/**
 * Board (src/lib.rs:82-206): the ROWS x COLS array of squares that turns fill
 * in place. Each method is proved against the function of the same concern
 * in module Rules, evaluated on a snapshot of the array.
 */
module Boards {
  import opened Wrappers
  import opened Pieces
  import opened Lines
  import opened Rules

  /**
   * The `connect4` closure of Board::winner (src/lib.rs:138-151): slides a
   * window of four over `v` and returns the owner of the first window whose
   * squares are one distinct value that is a piece.
   */
  method FindFour(v: seq<Square>) returns (win: Option<Player>)
    ensures win == LineWinner(v, 0)
  {
    var start := 0;
    while start + 4 <= |v|
      invariant 0 <= start
      invariant LineWinner(v, start) == LineWinner(v, 0)
      decreases |v| - start
    {
      var four := v[start..start + 4];
      if |Distinct(four)| == 1 {
        match four[3]
        case Piece(p) =>
          return Some(p);
        case Empty =>
      }
      start := start + 1;
    }
    return None;
  }

  /**
   * The first half of Board::winner (src/lib.rs:153-194): pushes the
   * squares of every line, family by family, in the order the source does.
   */
  method CollectLines(g: Grid) returns (lines: seq<seq<Square>>)
    ensures lines == ScannedLines(g)
  {
    lines := PushRows(g);
    lines := PushColumns(g, lines);
    lines := PushLeftDiagonals(g, lines);
    lines := PushBottomDiagonals(g, lines);
    assert lines == ScannedLines(g)[..LINES];
  }

  /** All rows (src/lib.rs:157-159). */
  method PushRows(g: Grid) returns (lines: seq<seq<Square>>)
    ensures lines == ScannedLines(g)[..ROWS]
  {
    lines := [];
    for row := 0 to ROWS
      invariant lines == ScannedLines(g)[..row]
    {
      RowIndex(row);
      PushScanned(g, lines, row, RowLine(row));
      lines := lines + [Squares(g, RowLine(row))];
    }
  }

  /** The columns, counted up to ROWS as the source does (src/lib.rs:161-163). */
  method PushColumns(g: Grid, before: seq<seq<Square>>) returns (lines: seq<seq<Square>>)
    requires before == ScannedLines(g)[..ROWS]
    ensures lines == ScannedLines(g)[..2 * ROWS]
  {
    lines := before;
    for col := 0 to ROWS
      invariant lines == ScannedLines(g)[..ROWS + col]
    {
      ColIndex(col);
      PushScanned(g, lines, ROWS + col, ColLine(col));
      lines := lines + [Squares(g, ColLine(col))];
    }
  }

  /** The two diagonals anchored at each row of the left edge (src/lib.rs:165-179). */
  method PushLeftDiagonals(g: Grid, before: seq<seq<Square>>) returns (lines: seq<seq<Square>>)
    requires before == ScannedLines(g)[..2 * ROWS]
    ensures lines == ScannedLines(g)[..4 * ROWS]
  {
    lines := before;
    for i := 0 to ROWS
      invariant lines == ScannedLines(g)[..2 * ROWS + 2 * i]
    {
      FallingIndex(i);
      RisingLeftIndex(i);
      PushScannedPair(g, lines, 2 * ROWS + 2 * i, FallingFromLeft(i), RisingFromLeft(i));
      lines := lines + [Squares(g, FallingFromLeft(i))];
      lines := lines + [Squares(g, RisingFromLeft(i))];
    }
  }

  /** The two diagonals anchored at each column of the bottom edge but the first (src/lib.rs:180-194). */
  method PushBottomDiagonals(g: Grid, before: seq<seq<Square>>) returns (lines: seq<seq<Square>>)
    requires before == ScannedLines(g)[..4 * ROWS]
    ensures lines == ScannedLines(g)[..LINES]
  {
    lines := before;
    for i := 1 to COLS
      invariant lines == ScannedLines(g)[..4 * ROWS + 2 * (i - 1)]
    {
      RisingBottomIndex(i);
      LeaningIndex(i);
      PushScannedPair(g, lines, 4 * ROWS + 2 * (i - 1), RisingFromBottom(i), LeaningFromRight(i));
      lines := lines + [Squares(g, RisingFromBottom(i))];
      lines := lines + [Squares(g, LeaningFromRight(i))];
    }
  }

  /**
   * The second half of Board::winner (src/lib.rs:196-204): the winner of the
   * first line of length four or more that has one.
   */
  method FirstFour(lines: seq<seq<Square>>) returns (winner: Option<Player>)
    ensures winner == FirstWinner(lines)
  {
    // Scan the lines of length four or more, in order.
    for n := 0 to |lines|
      invariant FirstWinner(lines[n..]) == FirstWinner(lines)
    {
      FirstWinnerStep(lines, n);
      var line := lines[n];
      if |line| >= 4 {
        var win := FindFour(line);
        if win.Some? {
          return win;
        }
      }
    }
    return None;
  }

  class Board {
    const cells: array2<Square>

    ghost predicate Valid() {
      cells.Length0 == ROWS && cells.Length1 == COLS
    }

    /** The squares as a value: `Snapshot()[row][col]` is `cells[row, col]`. */
    function Snapshot(): (g: Grid)
      requires Valid()
      reads cells
      ensures forall r, c :: 0 <= r < ROWS && 0 <= c < COLS ==> g[r][c] == cells[r, c]
    {
      seq(ROWS, r requires 0 <= r < cells.Length0 reads cells =>
        seq(COLS, c requires 0 <= c < cells.Length1 reads cells => cells[r, c]))
    }

    /** Board::new: every square empty. */
    constructor ()
      ensures Valid() && fresh(cells)
      ensures Snapshot() == EmptyGrid()
    {
      cells := new Square[ROWS, COLS]((r, c) => Empty);
      new;
      assert forall r :: 0 <= r < ROWS ==> Snapshot()[r] == EmptyGrid()[r];
    }

    /** Board::turns: one turn for `player` per column whose top square is free. */
    method Turns(player: Player) returns (turns: seq<Turn>)
      requires Valid()
      ensures turns == LegalTurns(Snapshot(), player)
    {
      ghost var g := Snapshot();
      turns := [];
      for col := 0 to COLS
        invariant turns + TurnsFrom(g, player, col) == LegalTurns(g, player)
      {
        var top := cells[ROWS - 1, col];
        assert TopRow(g)[col] == top;
        TurnsPush(g, player, col, turns);
        if !top.Taken() {
          match NewTurn(player, col)
          case Some(turn) =>
            assert turn == Turn(player, col);
            turns := turns + [turn];
          case None =>
            assert false;
        }
      }
    }

    /**
     * Board::play: walks the rows upwards and puts the turn's piece in the
     * first empty square of its column; false when the column is full.
     */
    method Play(turn: Turn) returns (played: bool)
      requires Valid()
      modifies cells
      ensures played == LowestEmpty(old(Snapshot()), turn.pos, 0).Some?
      ensures Snapshot() == Place(old(Snapshot()), turn)
    {
      ghost var g := Snapshot();
      for row := 0 to ROWS
        invariant Snapshot() == g
        invariant LowestEmpty(g, turn.pos, row) == LowestEmpty(g, turn.pos, 0)
      {
        if !cells[row, turn.pos].Taken() {
          cells[row, turn.pos] := Piece(turn.player);
          ghost var h := Place(g, turn);
          assert forall r :: 0 <= r < ROWS ==> Snapshot()[r] == h[r];
          return true;
        }
      }
      return false;
    }

    /** Board::winner: collects the lines, then returns the first line's winner. */
    method Winner() returns (winner: Option<Player>)
      requires Valid()
      ensures winner == Rules.Winner(Snapshot())
    {
      var g := Snapshot();
      var lines := CollectLines(g);
      winner := FirstFour(lines);
    }

    /** Board::over: the top row is full, or there is a winner. */
    method Over() returns (over: bool)
      requires Valid()
      ensures over == Rules.Over(Snapshot())
    {
      var g := Snapshot();
      if TopRowFull(g) {
        return true;
      }
      var winner := Winner();
      return winner.Some?;
    }
  }
}
