/** The game loop of the human-versus-computer mode: the player's clicks
    and the computer's replies on one live board. */
module WithAiGame {
  import opened Wrappers
  import opened Board
  import opened Search
  import opened WithAi
  import opened Outcomes

  /** The result announced after `piece` has moved: its win is checked
      before the draw. */
  ghost function MoveOutcome(g: Grid, piece: int): Outcome
    requires WellFormed(g)
  {
    if HasFour(g, piece) then Won(piece)
    else if Terminal(g) && !HasFour(g, PlayerPiece) && !HasFour(g, AiPiece) then Drawn
    else Continues
  }

  /** A move in a running game keeps pieces resting on pieces, and the
      game goes on after it exactly when the board is not finished: the
      other side cannot have gained four in a row. */
  lemma AfterDrop(g: Grid, col: int, piece: int)
    requires WellFormed(g) && Gravity(g) && !Terminal(g)
    requires 0 <= col < Cols && IsValidLocation(g, col)
    requires piece == PlayerPiece || piece == AiPiece
    ensures Gravity(Drop(g, col, piece))
    ensures MoveOutcome(Drop(g, col, piece), piece) == Continues <==> !Terminal(Drop(g, col, piece))
  {
    DropKeepsGravity(g, col, piece);
    DropKeepsOtherFours(g, col, piece, Opponent(piece));
  }

  /** One game between the player and the computer.  Invariants: pieces
      rest on pieces, and the game is over exactly when the board is
      finished (a side has four in a row or every column is full). */
  class Game {
    var board: array2<int>
    var turn: int
    var gameOver: bool
    /** The search depth chosen in the difficulty menu. */
    const depth: nat

    ghost predicate Valid()
      reads this, board
    {
      && board.Length0 == Rows && board.Length1 == Cols
      && (turn == Player || turn == Ai)
      && depth > 0
      && Gravity(Snapshot(board))
      && (gameOver <==> Terminal(Snapshot(board)))
    }

    /** A new game: an empty board, the chosen difficulty and the side
        drawn to start. */
    constructor(difficulty: Difficulty, startTurn: int)
      requires startTurn == Player || startTurn == Ai
      ensures Valid() && fresh(board)
      ensures Snapshot(board) == CreateBoard() && turn == startTurn && !gameOver
      ensures depth == DifficultyDepth(difficulty)
    {
      var a := NewBoard();
      board := a;
      turn := startTurn;
      gameOver := false;
      depth := DifficultyDepth(difficulty);
      EmptyBoardOpen(PieceOne);
      EmptyBoardOpen(PieceTwo);
      assert 0 in ValidLocations(CreateBoard());
    }

    /** A click in column `col`: ignored unless it is the player's turn in
        a running game and the column has room; otherwise the player's
        piece is dropped, the win and then the draw are checked, and the
        turn passes to the computer. */
    method PlayerClick(col: int) returns (outcome: Outcome)
      requires Valid() && 0 <= col < Cols
      modifies this, board
      ensures Valid() && board == old(board)
      ensures old(turn != Player || gameOver || !IsValidLocation(Snapshot(board), col)) ==>
                && outcome == Ignored && Snapshot(board) == old(Snapshot(board))
                && turn == old(turn) && gameOver == old(gameOver)
      ensures old(turn == Player && !gameOver && IsValidLocation(Snapshot(board), col)) ==>
                && Snapshot(board) == Drop(old(Snapshot(board)), col, PlayerPiece)
                && outcome == MoveOutcome(Snapshot(board), PlayerPiece)
                && gameOver == (outcome != Continues)
                && turn == Ai
    {
      if turn != Player || gameOver || board[Rows - 1, col] != Empty {
        return Ignored;
      }
      outcome := Play(col, PlayerPiece);
      turn := Ai;
    }

    /** The computer's move: ignored unless it is the computer's turn in a
        running game; otherwise the column of the root search (window -inf,
        +inf) is the first column with the best minimax value, the
        computer's piece is dropped there, the win and then the draw are
        checked, and the turn passes to the player. */
    method AiMove() returns (outcome: Outcome, column: Option<int>)
      requires Valid()
      modifies this, board
      ensures Valid() && board == old(board)
      ensures old(turn != Ai || gameOver) ==>
                && outcome == Ignored && column == None && Snapshot(board) == old(Snapshot(board))
                && turn == old(turn) && gameOver == old(gameOver)
      ensures old(turn == Ai && !gameOver) ==>
                && column.Some? && column.value in ValidLocations(old(Snapshot(board)))
                && IsFirstBest(AiRules(), old(Snapshot(board)), depth, true, column.value,
                               MinimaxValue(AiRules(), old(Snapshot(board)), depth, true))
                && Snapshot(board) == Drop(old(Snapshot(board)), column.value, AiPiece)
                && outcome == MoveOutcome(Snapshot(board), AiPiece)
                && gameOver == (outcome != Continues)
                && turn == Player
    {
      if turn != Ai || gameOver {
        return Ignored, None;
      }
      var value;
      column, value := Minimax(board, depth, NegInf, PosInf, true);
      RootSearchExact(AiRules(), Snapshot(board), depth, true, column, value);
      outcome := Play(column.value, AiPiece);
      turn := Player;
    }

    /** Drops `piece` into the playable column `col` of a running game and
        records whether the move ended it. */
    method Play(col: int, piece: int) returns (outcome: Outcome)
      requires Valid() && !gameOver && 0 <= col < Cols && IsValidLocation(Snapshot(board), col)
      requires piece == PlayerPiece || piece == AiPiece
      modifies this, board
      ensures board == old(board) && turn == old(turn)
      ensures Valid()
      ensures Snapshot(board) == Drop(old(Snapshot(board)), col, piece)
      ensures outcome == MoveOutcome(Snapshot(board), piece) && gameOver == (outcome != Continues)
    {
      ghost var g := Snapshot(board);
      var row := GetNextOpenRow(board, col);
      DropPiece(board, row.value, col, piece);
      AfterDrop(g, col, piece);
      var won := WinningMove(board, piece);
      if won {
        gameOver := true;
        return Won(piece);
      }
      var draw := IsDraw(board);
      if draw {
        gameOver := true;
        return Drawn;
      }
      gameOver := false;
      outcome := Continues;
    }
  }
}
