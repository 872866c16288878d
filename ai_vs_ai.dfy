/** The computer-versus-computer game: both sides play the same alpha-beta
    minimax, each for its own piece (1 or 2), with the side passed down
    the search as a parameter. */
module AiVsAi {
  import opened Wrappers
  import opened Board
  import opened Evaluator
  import opened Search

  const Ai1Piece: int := PieceOne
  const Ai2Piece: int := PieceTwo
  /** The value of a won game for the searching side, 10**14. */
  const WinScore: int := 100000000000000
  /** The value of a game won by the other side: -10**13, one digit
      shorter than `WinScore`. */
  const LossScore: int := -10000000000000

  /** The side the evaluator penalises: piece 2 when scoring for piece 1,
      piece 1 for anything else. */
  function EvalOpponent(piece: int): int {
    if piece == Ai1Piece then Ai2Piece else Ai1Piece
  }

  /** The side the search drops at minimising nodes and whose win is the
      loss: piece 1 when searching for piece 2, piece 2 for anything else. */
  function SearchOpponent(piece: int): int {
    if piece == Ai2Piece then Ai1Piece else Ai2Piece
  }

  /** The two opponent tests agree exactly on the two real pieces; for
      each real piece the opponent is the other real piece. */
  lemma OpponentsAgree(piece: int)
    ensures EvalOpponent(piece) == SearchOpponent(piece) <==> piece == Ai1Piece || piece == Ai2Piece
    ensures piece == Ai1Piece || piece == Ai2Piece ==>
              SearchOpponent(piece) != piece && SearchOpponent(SearchOpponent(piece)) == piece
  {
  }

  /** The search run for `piece`: it maximises for `piece`, its win is
      worth 10**14, the other side's win -10**13, and leaves are scored
      for `piece`. */
  function VsRules(piece: int): Rules {
    Rules(piece, SearchOpponent(piece), WinScore, LossScore, EvalOpponent(piece))
  }

  /** The two searches do not score a finished game as opposites.  On a
      board won by one side, that side's search scores it 10**14 and the
      loser's search -10**13: a loss weighs a tenth of a win. */
  lemma TerminalNotZeroSum(g: Grid, piece: int)
    requires WellFormed(g) && Terminal(g)
    requires piece == Ai1Piece || piece == Ai2Piece
    requires HasFour(g, piece) && !HasFour(g, SearchOpponent(piece))
    ensures LeafValue(VsRules(piece), g) == WinScore
    ensures LeafValue(VsRules(SearchOpponent(piece)), g) == LossScore
    ensures LeafValue(VsRules(piece), g) == -10 * LeafValue(VsRules(SearchOpponent(piece)), g)
  {
    OpponentsAgree(piece);
  }

  /** A finished game's leaf value for `piece`, case by case. */
  lemma TerminalLeaf(g: Grid, piece: int)
    requires WellFormed(g) && Terminal(g)
    ensures HasFour(g, piece) ==> LeafValue(VsRules(piece), g) == WinScore
    ensures !HasFour(g, piece) && HasFour(g, SearchOpponent(piece)) ==> LeafValue(VsRules(piece), g) == LossScore
    ensures !HasFour(g, piece) && !HasFour(g, SearchOpponent(piece)) ==> LeafValue(VsRules(piece), g) == 0
  {
  }

  /** The win test of this game mode: the same four scans, but a board
      without a run falls off the end of the function and yields `None`
      instead of `False`.  `None` is falsy wherever the result is tested. */
  method WinningMove(board: array2<int>, piece: int) returns (won: Option<bool>)
    requires board.Length0 == Rows && board.Length1 == Cols
    ensures won == Some(true) || won == None
    ensures won == Some(true) <==> HasFour(Snapshot(board), piece)
  {
    var found := Board.WinningMove(board, piece);
    if found {
      return Some(true);
    }
    return None;
  }

  /** The playable columns, collected by appending in a loop. */
  method GetValidLocations(board: array2<int>) returns (validLocations: seq<int>)
    requires board.Length0 == Rows && board.Length1 == Cols
    ensures validLocations == ValidLocations(Snapshot(board))
  {
    ghost var g := Snapshot(board);
    validLocations := [];
    for col := 0 to Cols
      invariant validLocations + ValidFrom(g, col) == ValidLocations(g)
    {
      if board[Rows - 1, col] == Empty {
        assert ValidFrom(g, col) == [col] + ValidFrom(g, col + 1);
        validLocations := validLocations + [col];
      }
    }
  }

  /** The game is over: either side has won or every column is full. */
  method IsTerminalNode(board: array2<int>) returns (t: bool)
    requires board.Length0 == Rows && board.Length1 == Cols
    ensures t == Terminal(Snapshot(board))
    ensures t <==> HasFour(Snapshot(board), Ai1Piece) || HasFour(Snapshot(board), Ai2Piece) ||
                   forall c :: 0 <= c < Cols ==> !IsValidLocation(Snapshot(board), c)
  {
    var one := WinningMove(board, Ai1Piece);
    if one.Some? {
      return true;
    }
    var two := WinningMove(board, Ai2Piece);
    if two.Some? {
      return true;
    }
    var validLocations := GetValidLocations(board);
    t := |validLocations| == 0;
    NoValidLocations(Snapshot(board));
  }

  /** The heuristic board score for `piece`: the centre column, then the
      horizontal, vertical, up-right and down-right windows, each in a
      loop nest of its own. */
  method ScorePosition(board: array2<int>, piece: int) returns (score: int)
    requires board.Length0 == Rows && board.Length1 == Cols
    ensures score == ScoreSpec(Snapshot(board), piece, EvalOpponent(piece))
  {
    var g := Snapshot(board);
    var opp := EvalOpponent(piece);
    score := 0;
    var centerArray := Column(g, Cols / 2);
    score := score + Count(centerArray, piece) * 3;
    var rows := ScoreRows(g, piece, opp);
    var columns := ScoreColumns(g, piece, opp);
    var up := ScoreUpRight(g, piece, opp);
    var down := ScoreDownRight(g, piece, opp);
    score := score + rows + columns + up + down;
  }

  /** The up-right windows: rows outer, columns inner. */
  method ScoreUpRight(g: Grid, piece: int, opp: int) returns (score: int)
    requires WellFormed(g)
    ensures score == DirectionSum(g, piece, opp, UpRight, Lines(UpRight))
  {
    score := 0;
    for r := 0 to Rows - 3
      invariant score == DirectionSum(g, piece, opp, UpRight, r)
    {
      for c := 0 to Cols - 3
        invariant score == DirectionSum(g, piece, opp, UpRight, r) + LineSum(g, piece, opp, UpRight, r, c)
      {
        var window := [g[r][c], g[r + 1][c + 1], g[r + 2][c + 2], g[r + 3][c + 3]];
        DiagonalSlices(g, r, c);
        score := score + EvaluateWindow(window, piece, opp);
      }
    }
  }

  /** The down-right windows: loop row `r` reads the window that starts
      at row r + 3 and descends to row r. */
  method ScoreDownRight(g: Grid, piece: int, opp: int) returns (score: int)
    requires WellFormed(g)
    ensures score == DirectionSum(g, piece, opp, DownRight, Lines(DownRight))
  {
    score := 0;
    for r := 0 to Rows - 3
      invariant score == DirectionSum(g, piece, opp, DownRight, r)
    {
      for c := 0 to Cols - 3
        invariant score == DirectionSum(g, piece, opp, DownRight, r) + LineSum(g, piece, opp, DownRight, r, c)
      {
        var window := [g[r + 3][c], g[r + 2][c + 1], g[r + 1][c + 2], g[r][c + 3]];
        DiagonalSlices(g, r, c);
        score := score + EvaluateWindow(window, piece, opp);
      }
    }
  }

  /** Alpha-beta minimax for `piece`, which is passed down unchanged.  As
      in the other computer player, the column drawn at random before the
      loop is always replaced and is modelled as the first playable column. */
  method Minimax(board: array2<int>, depth: nat, alpha: ExtInt, beta: ExtInt, maximizingPlayer: bool, piece: int)
    returns (column: Option<int>, value: int)
    requires board.Length0 == Rows && board.Length1 == Cols
    ensures SearchOutcome(VsRules(piece), Snapshot(board), depth, maximizingPlayer, alpha, beta, column, value)
    decreases depth, 3
  {
    var validLocations := GetValidLocations(board);
    var isTerminal := IsTerminalNode(board);
    if depth == 0 || isTerminal {
      if isTerminal {
        var wins := WinningMove(board, piece);
        if wins.Some? {
          return None, WinScore;
        }
        var loses := WinningMove(board, SearchOpponent(piece));
        if loses.Some? {
          return None, LossScore;
        }
        return None, 0;
      } else {
        value := ScorePosition(board, piece);
        return None, value;
      }
    }
    ghost var g := Snapshot(board);
    ghost var vals := ChildValues(VsRules(piece), g, depth, maximizingPlayer, validLocations);
    InnerNode(VsRules(piece), g, depth, maximizingPlayer);
    ChildValuesOfChildren(VsRules(piece), g, depth, maximizingPlayer, validLocations);
    if maximizingPlayer {
      column, value := MaxBranch(board, depth, alpha, beta, piece, validLocations, vals);
    } else {
      column, value := MinBranch(board, depth, alpha, beta, piece, validLocations, vals);
    }
  }

  /** The maximising branch: `piece` in each playable column left to
      right, raising alpha and cutting off once alpha >= beta. */
  method MaxBranch(board: array2<int>, depth: nat, alpha: ExtInt, beta: ExtInt, piece: int, validLocations: seq<int>, ghost vals: seq<int>)
    returns (column: Option<int>, value: int)
    requires board.Length0 == Rows && board.Length1 == Cols
    requires depth > 0 && validLocations == ValidLocations(Snapshot(board)) && |validLocations| > 0
    requires ValuesOfChildren(VsRules(piece), Snapshot(board), depth, true, validLocations, vals)
    ensures column.Some? && column.value in ValidLocations(Snapshot(board))
    ensures Lt(alpha, Fin(value)) && Lt(Fin(value), beta) ==> IsFirstBest(VsRules(piece), Snapshot(board), depth, true, column.value, value)
    ensures FailSoft(alpha, beta, value, Extreme(vals, |vals|, true))
    decreases depth, 2
  {
    var best;
    ghost var k;
    column, best, k := MaxColumns(board, Snapshot(board), depth, alpha, beta, piece, validLocations, vals);
    value := best.n;
    if Lt(alpha, Fin(value)) && Lt(Fin(value), beta) {
      FirstBestByIndex(VsRules(piece), Snapshot(board), depth, true, vals, k, value);
    }
  }

  /** The maximising column loop, stated on the child values. */
  method MaxColumns(board: array2<int>, ghost g: Grid, depth: nat, alpha: ExtInt, beta: ExtInt, piece: int,
                    validLocations: seq<int>, ghost vals: seq<int>)
    returns (column: Option<int>, best: ExtInt, ghost k: nat)
    requires board.Length0 == Rows && board.Length1 == Cols && g == Snapshot(board)
    requires depth > 0 && Playable(g, validLocations) && |validLocations| > 0
    requires ValuesOfChildren(VsRules(piece), g, depth, true, validLocations, vals)
    ensures |vals| == |validLocations| && MaxDone(alpha, beta, vals, best, k)
    ensures column == Some(validLocations[k])
    decreases depth, 1
  {
    var n := |validLocations|;
    best := NegInf;
    var a := alpha;
    column := Some(validLocations[0]);
    ghost var prefix := 0;
    k := 0;
    var i := 0;
    while i < n
      invariant MaxLoop(alpha, beta, vals, i, best, a, prefix, k)
      invariant i == n ==> MaxDone(alpha, beta, vals, best, k)
      invariant column == Some(validLocations[k])
    {
      var newScore := SearchChild(board, g, depth, a, beta, true, piece, validLocations, i, vals);
      var improved, cut;
      best, a, improved, cut, prefix, k := MaxUpdate(alpha, beta, vals, i, best, a, prefix, k, newScore);
      if improved {
        column := Some(validLocations[i]);
      }
      if cut {
        break;
      }
      i := i + 1;
    }
  }

  /** The minimising branch: the opponent's piece in each playable column
      left to right, lowering beta and cutting off once alpha >= beta. */
  method MinBranch(board: array2<int>, depth: nat, alpha: ExtInt, beta: ExtInt, piece: int, validLocations: seq<int>, ghost vals: seq<int>)
    returns (column: Option<int>, value: int)
    requires board.Length0 == Rows && board.Length1 == Cols
    requires depth > 0 && validLocations == ValidLocations(Snapshot(board)) && |validLocations| > 0
    requires ValuesOfChildren(VsRules(piece), Snapshot(board), depth, false, validLocations, vals)
    ensures column.Some? && column.value in ValidLocations(Snapshot(board))
    ensures Lt(alpha, Fin(value)) && Lt(Fin(value), beta) ==> IsFirstBest(VsRules(piece), Snapshot(board), depth, false, column.value, value)
    ensures FailSoft(alpha, beta, value, Extreme(vals, |vals|, false))
    decreases depth, 2
  {
    var best;
    ghost var k;
    column, best, k := MinColumns(board, Snapshot(board), depth, alpha, beta, piece, validLocations, vals);
    value := best.n;
    if Lt(alpha, Fin(value)) && Lt(Fin(value), beta) {
      FirstBestByIndex(VsRules(piece), Snapshot(board), depth, false, vals, k, value);
    }
  }

  /** The minimising column loop, symmetric to `MaxColumns`. */
  method MinColumns(board: array2<int>, ghost g: Grid, depth: nat, alpha: ExtInt, beta: ExtInt, piece: int,
                    validLocations: seq<int>, ghost vals: seq<int>)
    returns (column: Option<int>, best: ExtInt, ghost k: nat)
    requires board.Length0 == Rows && board.Length1 == Cols && g == Snapshot(board)
    requires depth > 0 && Playable(g, validLocations) && |validLocations| > 0
    requires ValuesOfChildren(VsRules(piece), g, depth, false, validLocations, vals)
    ensures |vals| == |validLocations| && MinDone(alpha, beta, vals, best, k)
    ensures column == Some(validLocations[k])
    decreases depth, 1
  {
    var n := |validLocations|;
    best := PosInf;
    var b := beta;
    column := Some(validLocations[0]);
    ghost var prefix := 0;
    k := 0;
    var i := 0;
    while i < n
      invariant MinLoop(alpha, beta, vals, i, best, b, prefix, k)
      invariant i == n ==> MinDone(alpha, beta, vals, best, k)
      invariant column == Some(validLocations[k])
    {
      var newScore := SearchChild(board, g, depth, alpha, b, false, piece, validLocations, i, vals);
      var improved, cut;
      best, b, improved, cut, prefix, k := MinUpdate(alpha, beta, vals, i, best, b, prefix, k, newScore);
      if improved {
        column := Some(validLocations[i]);
      }
      if cut {
        break;
      }
      i := i + 1;
    }
  }

  /** One iteration's child search: `piece` (maximising) or its opponent
      (minimising) dropped into the `i`-th playable column of a copy, and
      the copy searched one level deeper for the other side, with `piece`
      passed on unchanged. */
  method SearchChild(board: array2<int>, ghost g: Grid, depth: nat, alpha: ExtInt, beta: ExtInt, maximizingPlayer: bool,
                     piece: int, validLocations: seq<int>, i: nat, ghost vals: seq<int>)
    returns (newScore: int)
    requires board.Length0 == Rows && board.Length1 == Cols && g == Snapshot(board)
    requires depth > 0 && Playable(g, validLocations) && i < |validLocations|
    requires ValuesOfChildren(VsRules(piece), g, depth, maximizingPlayer, validLocations, vals)
    ensures i < |vals| && FailSoft(alpha, beta, newScore, vals[i])
    decreases depth, 0
  {
    var col := validLocations[i];
    var dropped := if maximizingPlayer then piece else SearchOpponent(piece);
    var bCopy := CopyAndDrop(board, col, dropped);
    var childDepth: nat := depth - 1;
    var _, value := Minimax(bCopy, childDepth, alpha, beta, !maximizingPlayer, piece);
    ChildValueOf(VsRules(piece), g, depth, maximizingPlayer, col, Snapshot(bCopy), childDepth);
    newScore := value;
  }

  /** At the root, as the game calls it (window (-inf, +inf), maximising),
      the value is plain minimax for `piece` and, on an unfinished board,
      the column is the first playable column reaching it. */
  method BestMove(board: array2<int>, depth: nat, piece: int) returns (column: Option<int>, value: int)
    requires board.Length0 == Rows && board.Length1 == Cols
    ensures value == MinimaxValue(VsRules(piece), Snapshot(board), depth, true)
    ensures depth > 0 && !Terminal(Snapshot(board)) ==>
              column.Some? && column.value in ValidLocations(Snapshot(board)) &&
              IsFirstBest(VsRules(piece), Snapshot(board), depth, true, column.value, value)
  {
    column, value := Minimax(board, depth, NegInf, PosInf, true, piece);
    RootSearchExact(VsRules(piece), Snapshot(board), depth, true, column, value);
  }
}
