/**
 * The rules of the game over a snapshot of the board: gravity drop, legal
 * turns, the window test, the winner scan and game over (src/lib.rs:88-205),
 * together with what they guarantee.
 */
module Rules {
  import opened Wrappers
  import opened Pieces
  import opened Lines

  /** The board's squares, `[[Square; COLS]; ROWS]`, indexed `[row][col]`, row 0 at the bottom. */
  type Grid = g: seq<seq<Square>> | |g| == ROWS && forall r :: 0 <= r < ROWS ==> |g[r]| == COLS
    witness seq(ROWS, _ => seq(COLS, _ => Empty))

  /** The board Board::new builds: every square empty. */
  function EmptyGrid(): (g: Grid) {
    seq(ROWS, _ => seq(COLS, _ => Empty))
  }

  function At(g: Grid, a: Pos): (sq: Square)
    requires OnBoard(a)
  {
    g[a.row][a.col]
  }

  // ---------------------------------------------------------------------
  // Dropping a piece (Board::play, src/lib.rs:116-126)
  // ---------------------------------------------------------------------

  /** The lowest row, from `from` up, whose square in column `c` is empty. */
  function LowestEmpty(g: Grid, c: Column, from: nat): (r: Option<nat>)
    decreases ROWS - from
    ensures r.Some? ==> from <= r.value < ROWS && g[r.value][c] == Empty
    ensures forall k :: from <= k < ROWS && (r.None? || k < r.value) ==> g[k][c] != Empty
  {
    if from >= ROWS then None
    else if !g[from][c].Taken() then Some(from)
    else LowestEmpty(g, c, from + 1)
  }

  /** The grid after `turn`'s piece drops into its column; a full column leaves it as it was. */
  function Place(g: Grid, turn: Turn): (h: Grid) {
    match LowestEmpty(g, turn.pos, 0)
    case None => g
    case Some(r) => g[r := g[r][turn.pos := Piece(turn.player)]]
  }

  /**
   * A drop fills the lowest empty square of the turn's column with the
   * player's piece and changes nothing else; in a column without an empty
   * square it changes nothing at all.
   */
  lemma PlaceDropsToLowestEmpty(g: Grid, turn: Turn)
    ensures (forall r :: 0 <= r < ROWS ==> g[r][turn.pos] != Empty) ==> Place(g, turn) == g
    ensures forall r :: 0 <= r < ROWS && g[r][turn.pos] == Empty ==>
      exists low :: 0 <= low <= r && g[low][turn.pos] == Empty
        && (forall k :: 0 <= k < low ==> g[k][turn.pos] != Empty)
        && Place(g, turn)[low][turn.pos] == Piece(turn.player)
        && forall r', c :: 0 <= r' < ROWS && 0 <= c < COLS && (r', c) != (low, turn.pos) ==>
             Place(g, turn)[r'][c] == g[r'][c]
  {
    var low := LowestEmpty(g, turn.pos, 0);
    if low.Some? {
      var h := Place(g, turn);
      assert forall r', c :: 0 <= r' < ROWS && 0 <= c < COLS && (r', c) != (low.value, turn.pos) ==>
        h[r'][c] == g[r'][c];
    }
  }

  /** The number of taken squares in column `c`, from row `from` up. */
  function Height(g: Grid, c: Column, from: nat): (n: nat)
    requires from <= ROWS
    decreases ROWS - from
  {
    if from == ROWS then 0
    else (if g[from][c].Taken() then 1 else 0) + Height(g, c, from + 1)
  }

  /** A column has no empty square from `from` up exactly when all its ROWS - from squares there are taken. */
  lemma {:induction false} FullIffHeight(g: Grid, c: Column, from: nat)
    requires from <= ROWS
    decreases ROWS - from
    ensures LowestEmpty(g, c, from).None? <==> Height(g, c, from) == ROWS - from
  {
    if from < ROWS {
      FullIffHeight(g, c, from + 1);
      assert Height(g, c, from + 1) <= ROWS - (from + 1) by {
        HeightBound(g, c, from + 1);
      }
    }
  }

  lemma {:induction false} HeightBound(g: Grid, c: Column, from: nat)
    requires from <= ROWS
    decreases ROWS - from
    ensures Height(g, c, from) <= ROWS - from
  {
    if from < ROWS {
      HeightBound(g, c, from + 1);
    }
  }

  /**
   * A drop adds exactly one piece to the turn's column when it succeeds and
   * none when it fails; other columns keep their count.
   */
  lemma {:induction false} PlaceCounts(g: Grid, turn: Turn, c: Column, from: nat)
    requires from <= ROWS
    decreases ROWS - from
    ensures var low := LowestEmpty(g, turn.pos, 0);
      Height(Place(g, turn), c, from) ==
        Height(g, c, from) + (if c == turn.pos && low.Some? && from <= low.value then 1 else 0)
  {
    if from < ROWS {
      PlaceCounts(g, turn, c, from + 1);
    }
  }

  /** Gravity: in every column, nothing stands above an empty square. */
  ghost predicate Settled(g: Grid) {
    forall r, r', c :: 0 <= r < r' < ROWS && 0 <= c < COLS && g[r][c] == Empty ==> g[r'][c] == Empty
  }

  /** A drop keeps the board settled. */
  lemma PlaceKeepsSettled(g: Grid, turn: Turn)
    requires Settled(g)
    ensures Settled(Place(g, turn))
  {
    var h := Place(g, turn);
    var low := LowestEmpty(g, turn.pos, 0);
    forall r, r', c | 0 <= r < r' < ROWS && 0 <= c < COLS && h[r][c] == Empty
      ensures h[r'][c] == Empty
    {
      if low.Some? && c == turn.pos {
        assert h[r][c] == g[r][c];
      }
    }
  }

  /** On a settled board a drop succeeds exactly when the column's top square is empty. */
  lemma DropSucceedsIffTopEmpty(g: Grid, c: Column)
    requires Settled(g)
    ensures LowestEmpty(g, c, 0).Some? <==> g[ROWS - 1][c] == Empty
  {
  }

  // ---------------------------------------------------------------------
  // Legal turns (Board::turns, src/lib.rs:98-113)
  // ---------------------------------------------------------------------

  /** One turn for `player` per column from `col` on whose top square is free, in column order. */
  function TurnsFrom(g: Grid, player: Player, col: nat): (ts: seq<Turn>)
    requires col <= COLS
    decreases COLS - col
  {
    if col == COLS then []
    else
      var rest := TurnsFrom(g, player, col + 1);
      if g[ROWS - 1][col].Taken() then rest else [Turn(player, col)] + rest
  }

  /**
   * The turns from column `col` on: at most one per column, all for `player`,
   * in strictly ascending column order, each for a column whose top square is empty.
   */
  lemma {:induction false} TurnsFromSound(g: Grid, player: Player, col: nat)
    requires col <= COLS
    decreases COLS - col
    ensures var ts := TurnsFrom(g, player, col);
      && |ts| <= COLS - col
      && (forall k :: 0 <= k < |ts| ==>
            ts[k].player == player && col <= ts[k].pos && g[ROWS - 1][ts[k].pos] == Empty)
      && (forall k, l :: 0 <= k < l < |ts| ==> ts[k].pos < ts[l].pos)
  {
    if col < COLS {
      TurnsFromSound(g, player, col + 1);
      var rest := TurnsFrom(g, player, col + 1);
      if !g[ROWS - 1][col].Taken() {
        var ts := [Turn(player, col)] + rest;
        assert ts == TurnsFrom(g, player, col);
        assert forall k :: 0 < k < |ts| ==> ts[k] == rest[k - 1];
      }
    }
  }

  /** Every column from `col` on whose top square is empty has its turn listed. */
  lemma {:induction false} TurnsFromComplete(g: Grid, player: Player, col: nat)
    requires col <= COLS
    decreases COLS - col
    ensures forall c: Column :: col <= c && g[ROWS - 1][c] == Empty ==> Turn(player, c) in TurnsFrom(g, player, col)
  {
    if col < COLS {
      TurnsFromComplete(g, player, col + 1);
      var rest := TurnsFrom(g, player, col + 1);
      if g[ROWS - 1][col].Taken() {
        assert TurnsFrom(g, player, col) == rest;
      } else {
        assert TurnsFrom(g, player, col) == [Turn(player, col)] + rest;
      }
    }
  }

  /**
   * One column of the turn listing: the turns listed so far, then the turn for
   * column `col` if its top square is empty, then the rest.
   */
  lemma TurnsPush(g: Grid, player: Player, col: nat, turns: seq<Turn>)
    requires col < COLS
    ensures var next := if TopRow(g)[col].Taken() then turns else turns + [Turn(player, col)];
      turns + TurnsFrom(g, player, col) == next + TurnsFrom(g, player, col + 1)
  {
    var rest := TurnsFrom(g, player, col + 1);
    if !TopRow(g)[col].Taken() {
      assert turns + ([Turn(player, col)] + rest) == (turns + [Turn(player, col)]) + rest;
    }
  }

  /** The legal turns of a board, as Board::turns lists them. */
  function LegalTurns(g: Grid, player: Player): (ts: seq<Turn>) {
    TurnsFrom(g, player, 0)
  }

  /** On a settled board the legal turns are exactly the columns a drop succeeds in. */
  lemma LegalTurnsArePlayable(g: Grid, player: Player, c: Column)
    requires Settled(g)
    ensures Turn(player, c) in LegalTurns(g, player) <==> LowestEmpty(g, c, 0).Some?
  {
    DropSucceedsIffTopEmpty(g, c);
    TurnsFromSound(g, player, 0);
    TurnsFromComplete(g, player, 0);
    if Turn(player, c) in LegalTurns(g, player) {
      var ts := LegalTurns(g, player);
      var k :| 0 <= k < |ts| && ts[k] == Turn(player, c);
    }
  }

  lemma {:induction false} EmptyTurnsFrom(player: Player, col: nat)
    requires col <= COLS
    ensures TurnsFrom(EmptyGrid(), player, col) == seq(COLS - col, k requires 0 <= k < COLS - col => Turn(player, col + k))
    decreases COLS - col
  {
    if col < COLS {
      EmptyTurnsFrom(player, col + 1);
      var rest := seq(COLS - (col + 1), k requires 0 <= k < COLS - (col + 1) => Turn(player, col + 1 + k));
      var all := seq(COLS - col, k requires 0 <= k < COLS - col => Turn(player, col + k));
      assert all == [Turn(player, col)] + rest;
      assert EmptyGrid()[ROWS - 1][col] == Empty;
    }
  }

  /** On the new board every column is a legal turn, in order 0..COLS. */
  lemma EmptyGridTurns(player: Player)
    ensures LegalTurns(EmptyGrid(), player) == seq(COLS, c requires 0 <= c < COLS => Turn(player, c))
  {
    EmptyTurnsFrom(player, 0);
  }

  // ---------------------------------------------------------------------
  // The window test: the `connect4` closure (src/lib.rs:138-151)
  // ---------------------------------------------------------------------

  /** The distinct squares of a window (`four.iter().unique()`). */
  function Distinct(four: seq<Square>): (s: set<Square>) {
    set k | 0 <= k < |four| :: four[k]
  }

  lemma DistinctIsOne(four: seq<Square>)
    requires |four| == 4
    ensures |Distinct(four)| == 1 <==> forall k :: 0 <= k < 4 ==> four[k] == four[3]
  {
    var s := Distinct(four);
    assert four[3] in s;
    if forall k :: 0 <= k < 4 ==> four[k] == four[3] {
      assert s == {four[3]};
    }
    if |s| == 1 {
      assert |s - {four[3]}| == 0;
      forall k | 0 <= k < 4 ensures four[k] == four[3] {
        assert four[k] in s;
      }
    }
  }

  /**
   * A window wins for `p` when its squares are one distinct value and the
   * last is `p`'s piece; that is, when all four are `p`'s pieces.
   */
  function WindowOwner(four: seq<Square>): (r: Option<Player>)
    requires |four| == 4
    ensures r.Some? ==> forall k :: 0 <= k < 4 ==> four[k] == Piece(r.value)
    ensures four[3].Piece? && (forall k :: 0 <= k < 4 ==> four[k] == four[3]) ==> r == Some(four[3].owner)
  {
    DistinctIsOne(four);
    if |Distinct(four)| == 1 then
      match four[3]
      case Piece(p) => Some(p)
      case Empty => None
    else
      None
  }

  /** Every square of `w` is `p`'s piece. */
  predicate AllPieces(w: seq<Square>, p: Player) {
    forall j :: 0 <= j < |w| ==> w[j] == Piece(p)
  }

  /** The four squares of `v` from index `k` on are all `p`'s pieces. */
  predicate Owned(v: seq<Square>, k: int, p: Player) {
    0 <= k && k + 4 <= |v| && AllPieces(v[k..k + 4], p)
  }

  /** The `connect4` closure: the owner of the first winning window of `v`, from window `from` on. */
  function LineWinner(v: seq<Square>, from: nat): (r: Option<Player>)
    decreases |v| - from
    ensures r.Some? ==> exists k :: from <= k && Owned(v, k, r.value)
    ensures (exists k, p :: from <= k && Owned(v, k, p)) ==> r.Some?
  {
    if from + 4 > |v| then None
    else
      var w := WindowOwner(v[from..from + 4]);
      if w.Some? then
        assert Owned(v, from, w.value);
        w
      else
        LineWinner(v, from + 1)
  }

  // ---------------------------------------------------------------------
  // The winner scan (Board::winner, src/lib.rs:136-205)
  // ---------------------------------------------------------------------

  /** The first winner among `lines`, skipping lines shorter than four. */
  function FirstWinner(lines: seq<seq<Square>>): (r: Option<Player>)
    ensures r.Some? ==> exists i, k :: 0 <= i < |lines| && Owned(lines[i], k, r.value)
    ensures (exists i, k, p :: 0 <= i < |lines| && Owned(lines[i], k, p)) ==> r.Some?
  {
    if lines == [] then None
    else
      var w := if |lines[0]| >= 4 then LineWinner(lines[0], 0) else None;
      if w.Some? then w else FirstWinner(lines[1..])
  }

  /** One step of the scan: line `n` decides, or the scan moves on to line `n + 1`. */
  lemma FirstWinnerStep(lines: seq<seq<Square>>, n: nat)
    requires n < |lines|
    ensures FirstWinner(lines[n..]) ==
      if |lines[n]| >= 4 && LineWinner(lines[n], 0).Some? then LineWinner(lines[n], 0)
      else FirstWinner(lines[n + 1..])
  {
    assert lines[n..][1..] == lines[n + 1..];
  }

  /** The squares along a line (`.map(|(row, col)| &self.0[row][col]).collect()`). */
  function Squares(g: Grid, line: seq<Pos>): (v: seq<Square>)
    requires AllOnBoard(line)
  {
    seq(|line|, k requires 0 <= k < |line| => At(g, line[k]))
  }

  /** The squares of the i-th scanned line. */
  function ScannedSquares(g: Grid, i: nat): (v: seq<Square>)
    requires i < LINES
    ensures |v| == ScanLength(i)
  {
    ScanShape(i);
    Squares(g, ScanLine(i))
  }

  /** All scanned lines, in the order the source pushes them. */
  function ScannedLines(g: Grid): (lines: seq<seq<Square>>)
    ensures |lines| == LINES
  {
    seq(LINES, i requires 0 <= i < LINES => ScannedSquares(g, i))
  }

  /** The k-th square of the i-th scanned line is the board's square k steps along its run. */
  lemma ScannedLineAt(g: Grid, i: nat, k: int)
    requires i < LINES && 0 <= k < ScanLength(i)
    ensures OnBoard(Walk(ScanStart(i), ScanStep(i), k))
    ensures |ScannedLines(g)[i]| == ScanLength(i)
    ensures ScannedLines(g)[i][k] == At(g, Walk(ScanStart(i), ScanStep(i), k))
  {
    ScanShape(i);
    assert ScannedLines(g)[i] == ScannedSquares(g, i);
    assert ScanLine(i)[k] == Walk(ScanStart(i), ScanStep(i), k);
  }

  /** Pushing the squares along lines `i` and `i + 1` extends the first `i` scanned lines by two. */
  lemma PushScannedPair(g: Grid, lines: seq<seq<Square>>, i: nat, first: seq<Pos>, second: seq<Pos>)
    requires i + 1 < LINES && first == ScanLine(i) && second == ScanLine(i + 1)
    requires lines == ScannedLines(g)[..i]
    ensures AllOnBoard(first) && AllOnBoard(second)
    ensures lines + [Squares(g, first)] + [Squares(g, second)] == ScannedLines(g)[..i + 2]
  {
    PushScanned(g, lines, i, first);
    PushScanned(g, lines + [Squares(g, first)], i + 1, second);
  }

  /** Pushing the squares along line `i` extends the first `i` scanned lines by one. */
  lemma PushScanned(g: Grid, lines: seq<seq<Square>>, i: nat, line: seq<Pos>)
    requires i < LINES && line == ScanLine(i) && lines == ScannedLines(g)[..i]
    ensures AllOnBoard(line) && lines + [Squares(g, line)] == ScannedLines(g)[..i + 1]
  {
    ScanShape(i);
    assert ScannedLines(g)[i] == ScannedSquares(g, i);
  }

  /** Board::winner: the owner of the first winning window over the scanned lines. */
  function Winner(g: Grid): (r: Option<Player>)
    ensures r.Some? ==> exists i, k :: 0 <= i < LINES && Owned(ScannedLines(g)[i], k, r.value)
    ensures (exists i, k, p :: 0 <= i < LINES && Owned(ScannedLines(g)[i], k, p)) ==> r.Some?
  {
    FirstWinner(ScannedLines(g))
  }

  /** The cells `a`, `a + d`, `a + 2d`, `a + 3d` lie on the board and hold `p`'s pieces. */
  predicate FourFrom(g: Grid, p: Player, a: Pos, d: Pos)
    requires IsStep(d)
  {
    forall j :: 0 <= j < 4 ==> OnBoard(Walk(a, d, j)) && At(g, Walk(a, d, j)) == Piece(p)
  }

  /** Four of `p`'s pieces in a straight line, in any direction. */
  ghost predicate FourInARow(g: Grid, p: Player) {
    exists a: Pos, d: Pos :: IsStep(d) && FourFrom(g, p, a, d)
  }

  /** Square `j` of a winning window of a scanned line is one of `p`'s pieces, `j` steps on from its start. */
  lemma ScannedWindowSquare(g: Grid, i: nat, k: int, p: Player, j: int)
    requires i < LINES && Owned(ScannedLines(g)[i], k, p) && 0 <= j < 4
    ensures var s := Walk(ScanStart(i), ScanStep(i), k);
      OnBoard(Walk(s, ScanStep(i), j)) && At(g, Walk(s, ScanStep(i), j)) == Piece(p)
  {
    var v := ScannedLines(g)[i];
    ScannedLineAt(g, i, k + j);
    WalkAdd(ScanStart(i), ScanStep(i), k, j);
    assert v[k..k + 4][j] == v[k + j];
  }

  /** A winning window of a scanned line is four of `p`'s pieces in a straight line. */
  lemma ScannedWindowIsFour(g: Grid, i: nat, k: int, p: Player)
    requires i < LINES && Owned(ScannedLines(g)[i], k, p)
    ensures FourFrom(g, p, Walk(ScanStart(i), ScanStep(i), k), ScanStep(i))
  {
    var s, d := Walk(ScanStart(i), ScanStep(i), k), ScanStep(i);
    forall j | 0 <= j < 4 ensures OnBoard(Walk(s, d, j)) && At(g, Walk(s, d, j)) == Piece(p) {
      ScannedWindowSquare(g, i, k, p, j);
    }
  }

  /** Soundness: the scan only names a player who has four in a row. */
  lemma WinnerSound(g: Grid)
    ensures Winner(g).Some? ==> FourInARow(g, Winner(g).value)
  {
    if Winner(g).Some? {
      var p := Winner(g).value;
      var i, k :| 0 <= i < LINES && Owned(ScannedLines(g)[i], k, p);
      ScannedWindowIsFour(g, i, k, p);
      var d := ScanStep(i);
      assert IsStep(d) && FourFrom(g, p, Walk(ScanStart(i), d, k), d);
    }
  }

  /** One square of a scanned window that runs over `p`'s four in a row. */
  lemma WindowSquare(g: Grid, p: Player, i: nat, t: int, a: Pos, d: Pos, j: int)
    requires i < LINES && IsStep(d) && FourFrom(g, p, a, d)
    requires 0 <= t < ScanLength(i) && 0 <= j < 4
    requires Walk(ScanStart(i), ScanStep(i), t) == Walk(a, d, j)
    ensures |ScannedLines(g)[i]| == ScanLength(i) && ScannedLines(g)[i][t] == Piece(p)
  {
    ScannedLineAt(g, i, t);
  }

  /** Four of `p`'s pieces from index `k` on make a winning window. */
  lemma PiecesOwned(v: seq<Square>, k: int, p: Player)
    requires 0 <= k && k + 4 <= |v|
    requires forall t :: k <= t < k + 4 ==> v[t] == Piece(p)
    ensures Owned(v, k, p)
  {
    var w := v[k..k + 4];
    forall j | 0 <= j < 4 ensures w[j] == Piece(p) {
      assert w[j] == v[k + j];
    }
  }

  /** A scanned window whose four cells hold `p`'s pieces makes the scan report a winner. */
  lemma ScannedWindowWins(g: Grid, p: Player, i: nat, k: int, a: Pos, d: Pos, reversed: bool)
    requires i < LINES && IsStep(d) && FourFrom(g, p, a, d)
    requires 0 <= k && k + 4 <= ScanLength(i)
    requires forall t :: k <= t < k + 4 ==>
      Walk(ScanStart(i), ScanStep(i), t) == Walk(a, d, if reversed then k + 3 - t else t - k)
    ensures Winner(g).Some?
  {
    var v := ScannedLines(g)[i];
    forall t | k <= t < k + 4 ensures |v| == ScanLength(i) && v[t] == Piece(p) {
      WindowSquare(g, p, i, t, a, d, if reversed then k + 3 - t else t - k);
    }
    ScannedLineAt(g, i, k);
    PiecesOwned(v, k, p);
  }

  lemma RowsCovered(g: Grid, p: Player, a: Pos)
    requires FourFrom(g, p, a, Pos(0, 1))
    ensures Winner(g).Some?
  {
    assert OnBoard(Walk(a, Pos(0, 1), 0)) && OnBoard(Walk(a, Pos(0, 1), 3));
    RowIndex(a.row);
    ScannedWindowWins(g, p, a.row, a.col, a, Pos(0, 1), false);
  }

  lemma ColumnsCovered(g: Grid, p: Player, a: Pos)
    requires FourFrom(g, p, a, Pos(1, 0)) && a.col < COLS - 1
    ensures Winner(g).Some?
  {
    assert OnBoard(Walk(a, Pos(1, 0), 0)) && OnBoard(Walk(a, Pos(1, 0), 3));
    ColIndex(a.col);
    ScannedWindowWins(g, p, ROWS + a.col, a.row, a, Pos(1, 0), false);
  }

  /** An up-right four starting at or below the main diagonal lies on a line anchored on the left edge. */
  lemma RisingFromLeftCovered(g: Grid, p: Player, a: Pos)
    requires FourFrom(g, p, a, Pos(1, 1)) && a.row >= a.col
    ensures Winner(g).Some?
  {
    assert OnBoard(Walk(a, Pos(1, 1), 0)) && OnBoard(Walk(a, Pos(1, 1), 3));
    var m := a.row - a.col;
    var i := 2 * ROWS + 2 * m + 1;
    RisingLeftIndex(m);
    forall t | a.col <= t < a.col + 4
      ensures Walk(ScanStart(i), ScanStep(i), t) == Walk(a, Pos(1, 1), t - a.col)
    {
    }
    ScannedWindowWins(g, p, i, a.col, a, Pos(1, 1), false);
  }

  /** An up-right four starting above the main diagonal lies on a line anchored on the bottom edge. */
  lemma RisingFromBottomCovered(g: Grid, p: Player, a: Pos)
    requires FourFrom(g, p, a, Pos(1, 1)) && a.row < a.col
    ensures Winner(g).Some?
  {
    assert OnBoard(Walk(a, Pos(1, 1), 0)) && OnBoard(Walk(a, Pos(1, 1), 3));
    var m := a.col - a.row;
    var i := 4 * ROWS + 2 * (m - 1);
    RisingBottomIndex(m);
    forall t | a.row <= t < a.row + 4
      ensures Walk(ScanStart(i), ScanStep(i), t) == Walk(a, Pos(1, 1), t - a.row)
    {
    }
    ScannedWindowWins(g, p, i, a.row, a, Pos(1, 1), false);
  }

  lemma RisingCovered(g: Grid, p: Player, a: Pos)
    requires FourFrom(g, p, a, Pos(1, 1))
    ensures Winner(g).Some?
  {
    if a.row >= a.col {
      RisingFromLeftCovered(g, p, a);
    } else {
      RisingFromBottomCovered(g, p, a);
    }
  }

  /** An up-left four on the anti-diagonal row + col = 6 lies on the full line anchored at the bottom right. */
  lemma LeaningFromRightCovered(g: Grid, p: Player, a: Pos)
    requires FourFrom(g, p, a, Pos(1, -1)) && a.row + a.col == 6
    ensures Winner(g).Some?
  {
    assert OnBoard(Walk(a, Pos(1, -1), 0)) && OnBoard(Walk(a, Pos(1, -1), 3));
    var i := 4 * ROWS + 1;
    LeaningIndex(1);
    forall t | a.row <= t < a.row + 4
      ensures Walk(ScanStart(i), ScanStep(i), t) == Walk(a, Pos(1, -1), t - a.row)
    {
    }
    ScannedWindowWins(g, p, i, a.row, a, Pos(1, -1), false);
  }

  /**
   * An up-left four on the anti-diagonal row + col = 3 or 4 lies, read the
   * other way round, on the line anchored on the left edge at row s.
   */
  lemma FallingFromLeftCovered(g: Grid, p: Player, a: Pos)
    requires FourFrom(g, p, a, Pos(1, -1)) && (a.row + a.col == 3 || a.row + a.col == 4)
    ensures Winner(g).Some?
  {
    assert OnBoard(Walk(a, Pos(1, -1), 0)) && OnBoard(Walk(a, Pos(1, -1), 3));
    var s := a.row + a.col;
    var i := 2 * ROWS + 2 * (s + 1);
    var k := a.col - 3;
    FallingIndex(s + 1);
    forall t | k <= t < k + 4
      ensures Walk(ScanStart(i), ScanStep(i), t) == Walk(a, Pos(1, -1), k + 3 - t)
    {
      assert Walk(ScanStart(i), ScanStep(i), t) == Pos(s - t, t);
      assert Walk(a, Pos(1, -1), k + 3 - t) == Pos(s - t, t);
    }
    ScannedWindowWins(g, p, i, k, a, Pos(1, -1), true);
  }

  lemma LeaningCovered(g: Grid, p: Player, a: Pos)
    requires FourFrom(g, p, a, Pos(1, -1))
    requires a.row + a.col == 3 || a.row + a.col == 4 || a.row + a.col == 6
    ensures Winner(g).Some?
  {
    if a.row + a.col == 6 {
      LeaningFromRightCovered(g, p, a);
    } else {
      FallingFromLeftCovered(g, p, a);
    }
  }

  /**
   * Where the scan is complete: four of a player's pieces along a row, along
   * a column other than the last, along any up-right diagonal, or along an
   * up-left diagonal whose cells have row + col equal to 3, 4 or 6, always
   * make the scan report a winner.
   */
  lemma WinnerCovers(g: Grid, p: Player, a: Pos, d: Pos)
    requires d == Pos(0, 1) || d == Pos(1, 0) || d == Pos(1, 1) || d == Pos(1, -1)
    requires FourFrom(g, p, a, d)
    requires d == Pos(1, 0) ==> a.col < COLS - 1
    requires d == Pos(1, -1) ==> a.row + a.col == 3 || a.row + a.col == 4 || a.row + a.col == 6
    ensures Winner(g).Some?
  {
    if d == Pos(0, 1) {
      RowsCovered(g, p, a);
    } else if d == Pos(1, 0) {
      ColumnsCovered(g, p, a);
    } else if d == Pos(1, 1) {
      RisingCovered(g, p, a);
    } else {
      LeaningCovered(g, p, a);
    }
  }

  /** When the scan finds four for `p` and the opponent has no four in a row, the winner is `p`. */
  lemma WinnerIsTheOnlyFour(g: Grid, p: Player, a: Pos, d: Pos)
    requires d == Pos(0, 1) || d == Pos(1, 0) || d == Pos(1, 1) || d == Pos(1, -1)
    requires FourFrom(g, p, a, d)
    requires d == Pos(1, 0) ==> a.col < COLS - 1
    requires d == Pos(1, -1) ==> a.row + a.col == 3 || a.row + a.col == 4 || a.row + a.col == 6
    requires !FourInARow(g, p.Opponent())
    ensures Winner(g) == Some(p)
  {
    WinnerCovers(g, p, a, d);
    WinnerSound(g);
    var q := Winner(g).value;
    assert q == p || q == p.Opponent();
  }

  /** Soundness on the new board: with no pieces there is no winner. */
  lemma EmptyGridHasNoWinner()
    ensures Winner(EmptyGrid()) == None
  {
    var g := EmptyGrid();
    WinnerSound(g);
    forall a: Pos, d: Pos, p: Player | IsStep(d) ensures !FourFrom(g, p, a, d) {
      if OnBoard(Walk(a, d, 0)) {
        assert At(g, Walk(a, d, 0)) == Empty;
      }
    }
  }

  /** Along a line, the column stays put only on a vertical line, and row + col only on an anti-diagonal. */
  lemma WalkInvariants(a: Pos, d: Pos, k: int)
    requires IsStep(d)
    ensures d.col == 0 ==> Walk(a, d, k).col == a.col
    ensures d.col != 0 ==> Walk(a, d, k).col != Walk(a, d, k + 1).col
    ensures d.row + d.col == 0 ==> Walk(a, d, k).row + Walk(a, d, k).col == a.row + a.col
    ensures d.row + d.col != 0 ==>
      Walk(a, d, k).row + Walk(a, d, k).col != Walk(a, d, k + 1).row + Walk(a, d, k + 1).col
  {
  }

  /** The first two squares of window `k` of scanned line `i`. */
  lemma WindowHead(g: Grid, i: nat, k: int) returns (x: Pos, y: Pos)
    requires i < LINES && 0 <= k && k + 4 <= ScanLength(i)
    ensures x == Walk(ScanStart(i), ScanStep(i), k) && y == Walk(ScanStart(i), ScanStep(i), k + 1)
    ensures OnBoard(x) && OnBoard(y)
    ensures ScannedLines(g)[i][k..k + 4][0] == At(g, x) && ScannedLines(g)[i][k..k + 4][1] == At(g, y)
  {
    x, y := Walk(ScanStart(i), ScanStep(i), k), Walk(ScanStart(i), ScanStep(i), k + 1);
    ScannedLineAt(g, i, k);
    ScannedLineAt(g, i, k + 1);
  }

  /** With no scanned window all one player's pieces, the scan finds no winner. */
  lemma NoScannedFourNoWinner(g: Grid)
    requires forall i, k, p :: 0 <= i < LINES && 0 <= k && k + 4 <= ScanLength(i) ==> !Owned(ScannedLines(g)[i], k, p)
    ensures Winner(g) == None
  {
    forall i | 0 <= i < LINES ensures |ScannedLines(g)[i]| == ScanLength(i) {
      assert ScannedLines(g)[i] == ScannedSquares(g, i);
    }
  }

  /** Every scanned window has an empty square among its first two when only the last column holds pieces. */
  lemma LastColumnWindow(g: Grid, i: nat, k: int)
    requires forall r, c :: 0 <= r < ROWS && 0 <= c < COLS - 1 ==> g[r][c] == Empty
    requires i < LINES && 0 <= k && k + 4 <= ScanLength(i)
    ensures ScannedLines(g)[i][k..k + 4][0] == Empty || ScannedLines(g)[i][k..k + 4][1] == Empty
  {
    var x, y := WindowHead(g, i, k);
    ScanGaps(i);
    WalkInvariants(ScanStart(i), ScanStep(i), k);
    if x.col == COLS - 1 {
      assert y.col != COLS - 1;
      assert At(g, y) == Empty;
    } else {
      assert At(g, x) == Empty;
    }
  }

  /** Every scanned window has an empty square among its first two when only anti-diagonal s holds pieces. */
  lemma AntiDiagonalWindow(g: Grid, s: int, i: nat, k: int)
    requires s == 5 || s == 7 || s == 8
    requires forall r, c :: 0 <= r < ROWS && 0 <= c < COLS && r + c != s ==> g[r][c] == Empty
    requires i < LINES && 0 <= k && k + 4 <= ScanLength(i)
    ensures ScannedLines(g)[i][k..k + 4][0] == Empty || ScannedLines(g)[i][k..k + 4][1] == Empty
  {
    var x, y := WindowHead(g, i, k);
    ScanGaps(i);
    WalkInvariants(ScanStart(i), ScanStep(i), k);
    if x.row + x.col == s {
      assert y.row + y.col != s;
      assert At(g, y) == Empty;
    } else {
      assert At(g, x) == Empty;
    }
  }

  /**
   * The missing vertical scan: pieces that all stand in the last column
   * never make a winner, however many are stacked there.
   */
  lemma LastColumnNeverWins(g: Grid)
    requires forall r, c :: 0 <= r < ROWS && 0 <= c < COLS - 1 ==> g[r][c] == Empty
    ensures Winner(g) == None
  {
    forall i, k, p | 0 <= i < LINES && 0 <= k && k + 4 <= ScanLength(i)
      ensures !Owned(ScannedLines(g)[i], k, p)
    {
      LastColumnWindow(g, i, k);
    }
    NoScannedFourNoWinner(g);
  }

  /**
   * The missing anti-diagonals: pieces that all stand on one anti-diagonal
   * row + col = s with s = 5, 7 or 8 never make a winner.
   */
  lemma MissingAntiDiagonalNeverWins(g: Grid, s: int)
    requires s == 5 || s == 7 || s == 8
    requires forall r, c :: 0 <= r < ROWS && 0 <= c < COLS && r + c != s ==> g[r][c] == Empty
    ensures Winner(g) == None
  {
    forall i, k, p | 0 <= i < LINES && 0 <= k && k + 4 <= ScanLength(i)
      ensures !Owned(ScannedLines(g)[i], k, p)
    {
      AntiDiagonalWindow(g, s, i, k);
    }
    NoScannedFourNoWinner(g);
  }

  /** Four Black pieces at the bottom of the last column, nothing else. */
  function StackInLastColumn(): (g: Grid) {
    seq(ROWS, r => seq(COLS, c => if c == COLS - 1 && r < 4 then Piece(Black) else Empty))
  }

  /**
   * Four Black pieces on the anti-diagonal row + col = 5, from (0, 5) to (3, 2),
   * each standing on White pieces that fill its column below it.
   */
  function SupportedAntiDiagonalFive(): (g: Grid) {
    seq(ROWS, r => seq(COLS, c =>
      if r + c == 5 && r < 4 then Piece(Black)
      else if 2 <= c && r + c < 5 then Piece(White)
      else Empty))
  }

  /** On that board the only four in a row is Black's, on the anti-diagonal row + col = 5. */
  lemma SupportedFours(p: Player, a: Pos, d: Pos)
    requires IsStep(d) && FourFrom(SupportedAntiDiagonalFive(), p, a, d)
    ensures p == Black && d.row + d.col == 0 && a.row + a.col == 5
  {
    var g := SupportedAntiDiagonalFive();
    var x, y, z := Walk(a, d, 0), Walk(a, d, 1), Walk(a, d, 3);
    assert OnBoard(x) && At(g, x) == Piece(p);
    assert OnBoard(y) && At(g, y) == Piece(p);
    assert OnBoard(z) && At(g, z) == Piece(p);
  }

  /**
   * The scan is not complete: on this settled board Black has four stacked
   * in the last column, yet there is no winner.
   */
  lemma ScanMissesLastColumn()
    ensures Settled(StackInLastColumn()) && FourInARow(StackInLastColumn(), Black)
    ensures Winner(StackInLastColumn()) == None
  {
    var g := StackInLastColumn();
    assert FourFrom(g, Black, Pos(0, COLS - 1), Pos(1, 0));
    LastColumnNeverWins(g);
  }

  /**
   * The scan is not complete: on this settled board Black has four on the
   * anti-diagonal row + col = 5, White has no four, and there is no winner.
   */
  lemma ScanMissesAntiDiagonal()
    ensures var g := SupportedAntiDiagonalFive();
      Settled(g) && FourInARow(g, Black) && Winner(g) == None
  {
    var g := SupportedAntiDiagonalFive();
    assert FourFrom(g, Black, Pos(0, 5), Pos(1, -1));
    if Winner(g).Some? {
      var p := Winner(g).value;
      var i, k :| 0 <= i < LINES && Owned(ScannedLines(g)[i], k, p);
      ScannedWindowIsFour(g, i, k, p);
      ScanGaps(i);
      WalkInvariants(ScanStart(i), ScanStep(i), k);
      SupportedFours(p, Walk(ScanStart(i), ScanStep(i), k), ScanStep(i));
    }
  }

  // ---------------------------------------------------------------------
  // Game over (Board::over, src/lib.rs:129-131)
  // ---------------------------------------------------------------------

  /** The top row of the board. */
  function TopRow(g: Grid): (row: seq<Square>) {
    g[ROWS - 1]
  }

  /** Every square of the top row is taken. */
  predicate TopRowFull(g: Grid) {
    forall c :: 0 <= c < COLS ==> TopRow(g)[c].Taken()
  }

  /** Board::over: the top row is full or the scan found a winner. */
  predicate Over(g: Grid) {
    TopRowFull(g) || Winner(g).Some?
  }

  /** The game is over exactly when no legal turn is left or the scan found a winner. */
  lemma OverIffNoTurnsOrWinner(g: Grid, player: Player)
    ensures Over(g) <==> LegalTurns(g, player) == [] || Winner(g).Some?
  {
    var ts := LegalTurns(g, player);
    TurnsFromSound(g, player, 0);
    TurnsFromComplete(g, player, 0);
    if !TopRowFull(g) {
      var c :| 0 <= c < COLS && !TopRow(g)[c].Taken();
      assert Turn(player, c) in ts;
    }
    if ts != [] {
      assert g[ROWS - 1][ts[0].pos] == Empty;
      assert !TopRow(g)[ts[0].pos].Taken();
    }
  }

  /** The new board is settled. */
  lemma EmptyGridSettled()
    ensures Settled(EmptyGrid())
  {
  }

  /** The game on the new board is not over. */
  lemma EmptyGridNotOver()
    ensures !Over(EmptyGrid())
  {
    EmptyGridHasNoWinner();
    assert !TopRow(EmptyGrid())[0].Taken();
  }
}
