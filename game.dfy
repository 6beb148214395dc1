/**
 * Connect4 (src/lib.rs:14-80): a board together with the player to move.
 * It checks that a turn belongs to the player to move before handing it to
 * the board, and hands the move to the opponent afterwards.
 */
module Game {
  import opened Wrappers
  import opened Pieces
  import opened Rules
  import opened Boards

  class Connect4 {
    const board: Board
    var player: Player

    /** The board has its fixed size, and gravity holds on it. */
    ghost predicate Valid()
      reads board.cells
    {
      board.Valid() && Settled(board.Snapshot())
    }

    /** Connect4::default: an empty board, with Black to move. */
    constructor ()
      ensures Valid() && fresh(board) && fresh(board.cells)
      ensures player == Black && board.Snapshot() == EmptyGrid()
    {
      board := new Board();
      player := Black;
      EmptyGridSettled();
    }

    /** Game::player: the player to move. */
    function CurrentPlayer(): (p: Player)
      reads this
      ensures p == player
    {
      player
    }

    /**
     * Game::turns: the board's legal turns for the player to move; on the
     * settled board these are exactly the columns a drop succeeds in.
     */
    method Turns() returns (turns: seq<Turn>)
      requires Valid()
      ensures turns == LegalTurns(board.Snapshot(), player)
      ensures forall c: Column :: Turn(player, c) in turns <==> LowestEmpty(board.Snapshot(), c, 0).Some?
    {
      turns := board.Turns(player);
      forall c: Column ensures Turn(player, c) in turns <==> LowestEmpty(board.Snapshot(), c, 0).Some? {
        LegalTurnsArePlayable(board.Snapshot(), player, c);
      }
    }

    /** Player::switch, applied to the player to move. */
    method SwitchPlayer()
      modifies this
      ensures player == old(player).Opponent()
    {
      player := player.Opponent();
    }

    /**
     * Game::play: a turn for the wrong player is refused and changes
     * nothing. Otherwise the board plays it, and the move passes to the
     * opponent whether or not the drop succeeded.
     */
    method Play(turn: Turn) returns (played: bool)
      requires Valid()
      modifies this, board.cells
      ensures Valid()
      ensures turn.player != old(player) ==>
        !played && player == old(player) && board.Snapshot() == old(board.Snapshot())
      ensures turn.player == old(player) ==>
        && played == LowestEmpty(old(board.Snapshot()), turn.pos, 0).Some?
        && board.Snapshot() == Place(old(board.Snapshot()), turn)
        && player == old(player).Opponent()
    {
      if turn.player != player {
        return false;
      }
      ghost var g := board.Snapshot();
      played := board.Play(turn);
      SwitchPlayer();
      PlaceKeepsSettled(g, turn);
    }

    /** Game::over: the board's verdict. */
    method Over() returns (over: bool)
      requires Valid()
      ensures over == Rules.Over(board.Snapshot())
    {
      over := board.Over();
    }

    /** Game::winner: the board's verdict. */
    method Winner() returns (winner: Option<Player>)
      requires Valid()
      ensures winner == Rules.Winner(board.Snapshot())
    {
      winner := board.Winner();
    }
  }
}
