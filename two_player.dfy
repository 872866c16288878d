/** The two-player game: players 0 and 1 take turns dropping pieces 1
    and 2 into the columns they click. */
module TwoPlayer {
  import opened Board
  import opened Outcomes

  /** The side whose turn it is: player 0 drops piece 1, player 1 piece 2. */
  function PieceFor(turn: int): int {
    if turn == 0 then PieceOne else PieceTwo
  }

  /** The full-board test of this game mode: the first column with room
      ends the scan.  Unlike the computer game's draw test it does not
      look at winners. */
  method IsDraw(board: array2<int>) returns (d: bool)
    requires board.Length0 == Rows && board.Length1 == Cols
    ensures d <==> forall c :: 0 <= c < Cols ==> !IsValidLocation(Snapshot(board), c)
    ensures d <==> |ValidLocations(Snapshot(board))| == 0
  {
    NoValidLocations(Snapshot(board));
    for c := 0 to Cols
      invariant forall c' :: 0 <= c' < c ==> !IsValidLocation(Snapshot(board), c')
    {
      if board[Rows - 1, c] == Empty {
        return false;
      }
    }
    return true;
  }

  /** The turn after a move: the turn number plus one, modulo 2, which is
      the other player. */
  function NextTurn(turn: int): (next: int)
    ensures 0 <= next < 2
    ensures turn == 0 || turn == 1 ==> next == 1 - turn && PieceFor(next) != PieceFor(turn)
  {
    (turn + 1) % 2
  }

  /** The result announced after `piece` has moved: the win is checked
      first, so a move that wins and fills the board is a win. */
  ghost function MoveOutcome(g: Grid, piece: int): Outcome
    requires WellFormed(g)
  {
    if HasFour(g, piece) then Won(piece)
    else if |ValidLocations(g)| == 0 then Drawn
    else Continues
  }

  /** A move by either player keeps pieces resting on pieces and never
      takes a finished board back to an unfinished one; on an unfinished
      board the game goes on after it exactly when the board is still not
      finished. */
  lemma AfterDrop(g: Grid, col: int, piece: int)
    requires WellFormed(g) && Gravity(g)
    requires 0 <= col < Cols && IsValidLocation(g, col)
    requires piece == PieceOne || piece == PieceTwo
    ensures Gravity(Drop(g, col, piece))
    ensures Terminal(g) ==> Terminal(Drop(g, col, piece))
    ensures !Terminal(g) ==> (MoveOutcome(Drop(g, col, piece), piece) == Continues <==> !Terminal(Drop(g, col, piece)))
  {
    var h := Drop(g, col, piece);
    var other := if piece == PieceOne then PieceTwo else PieceOne;
    DropKeepsGravity(g, col, piece);
    DropKeepsOtherFours(g, col, piece, other);
    DropKeepsFours(g, col, piece, PieceOne);
    DropKeepsFours(g, col, piece, PieceTwo);
    NoValidLocations(h);
    ValidLocationsComplete(g, col);
  }

  /** One two-player game.  Invariants: pieces rest on pieces, and the
      game is over exactly when the board is finished. */
  class Game {
    var board: array2<int>
    var turn: int
    var gameOver: bool

    ghost predicate Valid()
      reads this, board
    {
      && board.Length0 == Rows && board.Length1 == Cols
      && (turn == 0 || turn == 1)
      && Gravity(Snapshot(board))
      && (gameOver <==> Terminal(Snapshot(board)))
    }

    /** A new game: an empty board, player 0 to move. */
    constructor()
      ensures Valid() && fresh(board)
      ensures Snapshot(board) == CreateBoard() && turn == 0 && !gameOver
    {
      var a := NewBoard();
      board := a;
      turn := 0;
      gameOver := false;
      EmptyBoardOpen(PieceOne);
      EmptyBoardOpen(PieceTwo);
      assert 0 in ValidLocations(CreateBoard());
    }

    /** A click in column `col`.  A full column is ignored.  Otherwise the
        mover's piece lands on the next open row, the win and then the
        full board are checked, and the turn passes to the other player.
        The game-over flag is only ever raised: clicks that arrive in the
        same batch of events as the finishing one are still played. */
    method Click(col: int) returns (outcome: Outcome)
      requires Valid() && 0 <= col < Cols
      modifies this, board
      ensures Valid() && board == old(board)
      ensures old(!IsValidLocation(Snapshot(board), col)) ==>
                && outcome == Ignored && Snapshot(board) == old(Snapshot(board))
                && turn == old(turn) && gameOver == old(gameOver)
      ensures old(IsValidLocation(Snapshot(board), col)) ==>
                && Snapshot(board) == Drop(old(Snapshot(board)), col, PieceFor(old(turn)))
                && outcome == MoveOutcome(Snapshot(board), PieceFor(old(turn)))
                && gameOver == (old(gameOver) || outcome != Continues)
                && turn == 1 - old(turn)
    {
      if board[Rows - 1, col] != Empty {
        return Ignored;
      }
      var piece := PieceFor(turn);
      outcome := Play(col, piece);
      turn := NextTurn(turn);
    }

    /** Drops `piece` into the playable column `col` and records whether
        the move finished the game. */
    method Play(col: int, piece: int) returns (outcome: Outcome)
      requires Valid() && 0 <= col < Cols && IsValidLocation(Snapshot(board), col)
      requires piece == PieceOne || piece == PieceTwo
      modifies this, board
      ensures Valid() && board == old(board) && turn == old(turn)
      ensures Snapshot(board) == Drop(old(Snapshot(board)), col, piece)
      ensures outcome == MoveOutcome(Snapshot(board), piece)
      ensures gameOver == (old(gameOver) || outcome != Continues)
    {
      ghost var g := Snapshot(board);
      var row := GetNextOpenRow(board, col);
      DropPiece(board, row.value, col, piece);
      AfterDrop(g, col, piece);
      var won := WinningMove(board, piece);
      if won {
        gameOver := true;
        return Won(piece);
      }
      var draw := IsDraw(board);
      if draw {
        gameOver := true;
        return Drawn;
      }
      outcome := Continues;
    }
  }
}
