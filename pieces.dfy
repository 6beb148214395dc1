/**
 * Players, squares and turns of the four-in-a-row game (src/lib.rs).
 * The board has ROWS rows, numbered from the bottom, and COLS columns.
 */
module Pieces {
  import opened Wrappers

  const ROWS: nat := 6
  const COLS: nat := 7

  /** A player of the game; Black moves first. */
  datatype Player = Black | White {
    /** The other player. */
    function Opponent(): (r: Player)
      ensures r != this
    {
      match this
      case Black => White
      case White => Black
    }
  }

  /** Taking the opponent twice gives the player back. */
  lemma OpponentInvolutive(p: Player)
    ensures p.Opponent().Opponent() == p
  {
  }

  /** A square of the board: a player's piece, or nothing. */
  datatype Square = Piece(owner: Player) | Empty {
    /** Whether a piece stands on the square. */
    function Taken(): (b: bool)
      ensures b <==> this != Empty
    {
      match this
      case Piece(_) => true
      case Empty => false
    }
  }

  /** A column index that a turn may carry. */
  type Column = c: nat | c < COLS

  /**
   * A turn: the player who moves and the column the piece is dropped in.
   * Turns are only built by NewTurn, so their column is always on the board.
   */
  datatype Turn = Turn(player: Player, pos: Column)

  /** Builds a turn, or nothing when the column is off the board. */
  function NewTurn(player: Player, pos: nat): (r: Option<Turn>)
    ensures r.Some? <==> pos < COLS
    ensures r.Some? ==> r.value.player == player && r.value.pos == pos
  {
    if pos < COLS then Some(Turn(player, pos)) else None
  }
}
