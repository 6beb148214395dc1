/**
 * The lines that Board::winner scans (src/lib.rs:153-194), as sequences of
 * board coordinates. Each family is written the way the source builds it,
 * from integer ranges that are reversed and zipped; ScanShape then shows
 * that every scanned line is a straight run of cells on the board.
 */
module Lines {
  import opened Pieces

  /** A cell coordinate; rows count up from the bottom. */
  datatype Pos = Pos(row: int, col: int)

  predicate OnBoard(a: Pos) {
    0 <= a.row < ROWS && 0 <= a.col < COLS
  }

  /** Every cell of the line lies on the board. */
  predicate AllOnBoard(line: seq<Pos>) {
    forall k :: 0 <= k < |line| ==> OnBoard(line[k])
  }

  function Min(a: int, b: int): (m: int) {
    if a <= b then a else b
  }

  /** The range `lo..hi`. */
  function Range(lo: int, hi: int): (s: seq<int>) {
    seq(if lo <= hi then hi - lo else 0, k => lo + k)
  }

  /** `.rev()` of a range. */
  function Rev(s: seq<int>): (r: seq<int>) {
    seq(|s|, k requires 0 <= k < |s| => s[|s| - 1 - k])
  }

  /** `rows.zip(cols)` read as (row, col) pairs; it stops at the shorter input. */
  function ZipRowCol(rows: seq<int>, cols: seq<int>): (line: seq<Pos>) {
    seq(Min(|rows|, |cols|), k requires 0 <= k < Min(|rows|, |cols|) => Pos(rows[k], cols[k]))
  }

  /** `cols.zip(rows)` read as (col, row) pairs. */
  function ZipColRow(cols: seq<int>, rows: seq<int>): (line: seq<Pos>) {
    seq(Min(|cols|, |rows|), k requires 0 <= k < Min(|cols|, |rows|) => Pos(rows[k], cols[k]))
  }

  /** Row `r`, left to right (`row.iter()`). */
  function RowLine(r: int): (line: seq<Pos>) {
    seq(COLS, c => Pos(r, c))
  }

  /** Column `c`, bottom to top (`self.0.iter().map(|row| &row[col])`). */
  function ColLine(c: int): (line: seq<Pos>) {
    seq(ROWS, r => Pos(r, c))
  }

  /** `(0..i).rev().zip(0..COLS)`: from (i-1, 0) down and to the right. */
  function FallingFromLeft(i: int): (line: seq<Pos>) {
    ZipRowCol(Rev(Range(0, i)), Range(0, COLS))
  }

  /** `(i..ROWS).zip(0..COLS)`: from (i, 0) up and to the right. */
  function RisingFromLeft(i: int): (line: seq<Pos>) {
    ZipRowCol(Range(i, ROWS), Range(0, COLS))
  }

  /** `(i..COLS).zip(0..ROWS)`: from (0, i) up and to the right. */
  function RisingFromBottom(i: int): (line: seq<Pos>) {
    ZipColRow(Range(i, COLS), Range(0, ROWS))
  }

  /** `(i..COLS).rev().zip(0..ROWS)`: from (0, COLS-1) up and to the left. */
  function LeaningFromRight(i: int): (line: seq<Pos>) {
    ZipColRow(Rev(Range(i, COLS)), Range(0, ROWS))
  }

  /** The number of lines the source pushes. */
  const LINES: nat := 2 * ROWS + 2 * ROWS + 2 * (COLS - 1)

  /**
   * The i-th line in the order the source pushes it: the rows, then the
   * "columns" 0..ROWS (so column COLS-1 is left out), then the two diagonals
   * for each m in 0..ROWS, then the two diagonals for each m in 1..COLS.
   */
  function ScanLine(i: nat): (line: seq<Pos>)
    requires i < LINES
  {
    if i < ROWS then RowLine(i)
    else if i < 2 * ROWS then ColLine(i - ROWS)
    else if i < 4 * ROWS then
      var j := i - 2 * ROWS;
      if j % 2 == 0 then FallingFromLeft(j / 2) else RisingFromLeft(j / 2)
    else
      var j := i - 4 * ROWS;
      if j % 2 == 0 then RisingFromBottom(j / 2 + 1) else LeaningFromRight(j / 2 + 1)
  }

  /** A unit step between neighbouring cells (one of the eight compass directions). */
  predicate IsStep(d: Pos) {
    -1 <= d.row <= 1 && -1 <= d.col <= 1 && d != Pos(0, 0)
  }

  /** `k * x` for a step component `x`, kept linear. */
  function Scale(k: int, x: int): (y: int)
    requires -1 <= x <= 1
  {
    if x == 0 then 0 else if x == 1 then k else -k
  }

  /** The cell `k` steps away from `a` in direction `d`. */
  function Walk(a: Pos, d: Pos, k: int): (b: Pos)
    requires IsStep(d)
  {
    Pos(a.row + Scale(k, d.row), a.col + Scale(k, d.col))
  }

  /** The `n` cells from `a` onwards in direction `d`. */
  function Ray(a: Pos, d: Pos, n: nat): (line: seq<Pos>)
    requires IsStep(d)
  {
    seq(n, k => Walk(a, d, k))
  }

  /** Walking j steps from the cell k steps along is walking k + j steps. */
  lemma WalkAdd(a: Pos, d: Pos, k: int, j: int)
    requires IsStep(d)
    ensures Walk(Walk(a, d, k), d, j) == Walk(a, d, k + j)
  {
  }

  lemma RowLineShape(r: int)
    requires 0 <= r < ROWS
    ensures RowLine(r) == Ray(Pos(r, 0), Pos(0, 1), COLS) && AllOnBoard(RowLine(r))
  {
    var line, ray := RowLine(r), Ray(Pos(r, 0), Pos(0, 1), COLS);
    assert |line| == |ray| == COLS;
    forall k | 0 <= k < |line| ensures line[k] == ray[k] {
    }
  }

  lemma ColLineShape(c: int)
    requires 0 <= c < COLS
    ensures ColLine(c) == Ray(Pos(0, c), Pos(1, 0), ROWS) && AllOnBoard(ColLine(c))
  {
    var line, ray := ColLine(c), Ray(Pos(0, c), Pos(1, 0), ROWS);
    assert |line| == |ray| == ROWS;
    forall k | 0 <= k < |line| ensures line[k] == ray[k] {
    }
  }

  lemma FallingFromLeftShape(i: nat)
    requires i <= ROWS
    ensures FallingFromLeft(i) == Ray(Pos(i - 1, 0), Pos(-1, 1), i) && AllOnBoard(FallingFromLeft(i))
  {
    var line, ray := FallingFromLeft(i), Ray(Pos(i - 1, 0), Pos(-1, 1), i);
    assert |line| == |ray|;
    forall k | 0 <= k < i ensures line[k] == ray[k] {
      assert Rev(Range(0, i))[k] == i - 1 - k;
    }
  }

  lemma RisingFromLeftShape(i: nat)
    requires i <= ROWS
    ensures RisingFromLeft(i) == Ray(Pos(i, 0), Pos(1, 1), ROWS - i) && AllOnBoard(RisingFromLeft(i))
  {
    var line, ray := RisingFromLeft(i), Ray(Pos(i, 0), Pos(1, 1), ROWS - i);
    assert |line| == |ray| == ROWS - i;
    forall k | 0 <= k < |line| ensures line[k] == ray[k] {
    }
  }

  lemma RisingFromBottomShape(i: nat)
    requires 1 <= i <= COLS
    ensures RisingFromBottom(i) == Ray(Pos(0, i), Pos(1, 1), COLS - i) && AllOnBoard(RisingFromBottom(i))
  {
    var line, ray := RisingFromBottom(i), Ray(Pos(0, i), Pos(1, 1), COLS - i);
    assert |line| == |ray| == COLS - i;
    forall k | 0 <= k < |line| ensures line[k] == ray[k] {
    }
  }

  lemma LeaningFromRightShape(i: nat)
    requires 1 <= i <= COLS
    ensures LeaningFromRight(i) == Ray(Pos(0, COLS - 1), Pos(1, -1), COLS - i)
    ensures AllOnBoard(LeaningFromRight(i))
  {
    var line, ray := LeaningFromRight(i), Ray(Pos(0, COLS - 1), Pos(1, -1), COLS - i);
    assert |line| == |ray|;
    forall k | 0 <= k < |line| ensures line[k] == ray[k] {
      assert Rev(Range(i, COLS))[k] == COLS - 1 - k;
    }
  }

  /** Where the i-th scanned line starts, which way it runs, and how long it is. */
  function ScanStart(i: nat): (a: Pos)
    requires i < LINES
  {
    if i < ROWS then Pos(i, 0)
    else if i < 2 * ROWS then Pos(0, i - ROWS)
    else if i < 4 * ROWS then
      var j := i - 2 * ROWS;
      if j % 2 == 0 then Pos(j / 2 - 1, 0) else Pos(j / 2, 0)
    else
      var j := i - 4 * ROWS;
      if j % 2 == 0 then Pos(0, j / 2 + 1) else Pos(0, COLS - 1)
  }

  function ScanStep(i: nat): (d: Pos)
    requires i < LINES
    ensures IsStep(d)
  {
    if i < ROWS then Pos(0, 1)
    else if i < 2 * ROWS then Pos(1, 0)
    else if i < 4 * ROWS then
      if (i - 2 * ROWS) % 2 == 0 then Pos(-1, 1) else Pos(1, 1)
    else
      if (i - 4 * ROWS) % 2 == 0 then Pos(1, 1) else Pos(1, -1)
  }

  function ScanLength(i: nat): (n: nat)
    requires i < LINES
  {
    if i < ROWS then COLS
    else if i < 2 * ROWS then ROWS
    else if i < 4 * ROWS then
      var j := i - 2 * ROWS;
      if j % 2 == 0 then j / 2 else ROWS - j / 2
    else
      COLS - ((i - 4 * ROWS) / 2 + 1)
  }

  // Where each pushed line sits in the scan order.

  lemma RowIndex(r: nat)
    requires r < ROWS
    ensures ScanLine(r) == RowLine(r)
    ensures ScanStart(r) == Pos(r, 0) && ScanStep(r) == Pos(0, 1) && ScanLength(r) == COLS
  {
  }

  lemma ColIndex(c: nat)
    requires c < ROWS
    ensures ScanLine(ROWS + c) == ColLine(c)
    ensures ScanStart(ROWS + c) == Pos(0, c) && ScanStep(ROWS + c) == Pos(1, 0) && ScanLength(ROWS + c) == ROWS
  {
  }

  lemma FallingIndex(m: nat)
    requires m < ROWS
    ensures var i := 2 * ROWS + 2 * m;
      && ScanLine(i) == FallingFromLeft(m)
      && ScanStart(i) == Pos(m - 1, 0) && ScanStep(i) == Pos(-1, 1) && ScanLength(i) == m
  {
  }

  lemma RisingLeftIndex(m: nat)
    requires m < ROWS
    ensures var i := 2 * ROWS + 2 * m + 1;
      && ScanLine(i) == RisingFromLeft(m)
      && ScanStart(i) == Pos(m, 0) && ScanStep(i) == Pos(1, 1) && ScanLength(i) == ROWS - m
  {
  }

  lemma RisingBottomIndex(m: nat)
    requires 1 <= m < COLS
    ensures var i := 4 * ROWS + 2 * (m - 1);
      && ScanLine(i) == RisingFromBottom(m)
      && ScanStart(i) == Pos(0, m) && ScanStep(i) == Pos(1, 1) && ScanLength(i) == COLS - m
  {
  }

  lemma LeaningIndex(m: nat)
    requires 1 <= m < COLS
    ensures var i := 4 * ROWS + 2 * (m - 1) + 1;
      && ScanLine(i) == LeaningFromRight(m)
      && ScanStart(i) == Pos(0, COLS - 1) && ScanStep(i) == Pos(1, -1) && ScanLength(i) == COLS - m
  {
  }

  /** Every scanned line is a straight run of cells that all lie on the board. */
  lemma ScanShape(i: nat)
    requires i < LINES
    ensures ScanLine(i) == Ray(ScanStart(i), ScanStep(i), ScanLength(i))
    ensures AllOnBoard(ScanLine(i))
  {
    if i < ROWS {
      RowIndex(i);
      RowLineShape(i);
    } else if i < 2 * ROWS {
      ColIndex(i - ROWS);
      ColLineShape(i - ROWS);
    } else if i < 4 * ROWS {
      var m := (i - 2 * ROWS) / 2;
      if i == 2 * ROWS + 2 * m {
        FallingIndex(m);
        FallingFromLeftShape(m);
      } else {
        assert i == 2 * ROWS + 2 * m + 1;
        RisingLeftIndex(m);
        RisingFromLeftShape(m);
      }
    } else {
      var m := (i - 4 * ROWS) / 2 + 1;
      if i == 4 * ROWS + 2 * (m - 1) {
        RisingBottomIndex(m);
        RisingFromBottomShape(m);
      } else {
        assert i == 4 * ROWS + 2 * (m - 1) + 1;
        LeaningIndex(m);
        LeaningFromRightShape(m);
      }
    }
  }

  /**
   * The lines the scan leaves out: no vertical line lies in the last column,
   * and every up-left/down-right line lies on an anti-diagonal
   * row + col = s with s < 5 or s == 6 (the ones with s = 5, 7, 8 are missing).
   */
  lemma ScanGaps(i: nat)
    requires i < LINES
    ensures ScanStep(i).col == 0 ==> ScanStart(i).col < COLS - 1
    ensures ScanStep(i).row + ScanStep(i).col == 0 ==>
      ScanStart(i).row + ScanStart(i).col < 5 || ScanStart(i).row + ScanStart(i).col == 6
  {
  }
}
