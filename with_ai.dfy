/** The human-versus-computer game: the player drops piece 1, the
    computer drops piece 2 and chooses its column by alpha-beta minimax
    scored for the computer. */
module WithAi {
  import opened Wrappers
  import opened Board
  import opened Evaluator
  import opened Search

  const Player: int := 0
  const Ai: int := 1
  const PlayerPiece: int := PieceOne
  const AiPiece: int := PieceTwo
  /** The value of a won game, 10**14. */
  const WinScore: int := 100000000000000

  /** The side the evaluator penalises: the player for the computer's
      piece, the computer for anything else. */
  function Opponent(piece: int): int {
    if piece == AiPiece then PlayerPiece else AiPiece
  }

  /** The search is run for the computer: it maximises, its win is worth
      10**14 and the player's win -10**14, and leaves are scored for it. */
  function AiRules(): Rules {
    Rules(AiPiece, PlayerPiece, WinScore, -WinScore, Opponent(AiPiece))
  }

  /** The difficulty buttons of the start menu. */
  datatype Difficulty = Easy | Medium | Hard

  /** The search depth a difficulty button selects. */
  function DifficultyDepth(d: Difficulty): nat {
    match d
    case Easy => 1
    case Medium => 3
    case Hard => 5
  }

  /** A full board where nobody has four in a row. */
  method IsDraw(board: array2<int>) returns (d: bool)
    requires board.Length0 == Rows && board.Length1 == Cols
    ensures d <==> Terminal(Snapshot(board)) && !HasFour(Snapshot(board), PlayerPiece) && !HasFour(Snapshot(board), AiPiece)
    ensures d ==> forall c :: 0 <= c < Cols ==> !IsValidLocation(Snapshot(board), c)
  {
    var g := Snapshot(board);
    NoValidLocations(g);
    if |ValidLocations(g)| != 0 {
      return false;
    }
    var playerWins := WinningMove(board, PlayerPiece);
    if playerWins {
      return false;
    }
    var aiWins := WinningMove(board, AiPiece);
    d := !aiWins;
  }

  /** The game is over: either side has won or every column is full. */
  method IsTerminalNode(board: array2<int>) returns (t: bool)
    requires board.Length0 == Rows && board.Length1 == Cols
    ensures t == Terminal(Snapshot(board))
    ensures t <==> HasFour(Snapshot(board), PlayerPiece) || HasFour(Snapshot(board), AiPiece) ||
                   forall c :: 0 <= c < Cols ==> !IsValidLocation(Snapshot(board), c)
  {
    var playerWins := WinningMove(board, PlayerPiece);
    if playerWins {
      return true;
    }
    var aiWins := WinningMove(board, AiPiece);
    if aiWins {
      return true;
    }
    t := |ValidLocations(Snapshot(board))| == 0;
    NoValidLocations(Snapshot(board));
  }

  /** The heuristic board score for `piece`: the centre column, then the
      horizontal and the vertical windows, then both diagonals in one
      loop (up-right from row r, down-right from row r + 3).  Each loop
      nest is a method of its own below. */
  method ScorePosition(board: array2<int>, piece: int) returns (score: int)
    requires board.Length0 == Rows && board.Length1 == Cols
    ensures score == ScoreSpec(Snapshot(board), piece, Opponent(piece))
  {
    var g := Snapshot(board);
    var opp := Opponent(piece);
    score := 0;
    var centerArray := Column(g, Cols / 2);
    score := score + Count(centerArray, piece) * 3;
    var rows := ScoreRows(g, piece, opp);
    var columns := ScoreColumns(g, piece, opp);
    var diagonals := ScoreDiagonals(g, piece, opp);
    score := score + rows + columns + diagonals;
  }

  /** Both diagonals in one loop: the up-right window from (r, c) and the
      down-right window from (r + 3, c). */
  method ScoreDiagonals(g: Grid, piece: int, opp: int) returns (score: int)
    requires WellFormed(g)
    ensures score == DirectionSum(g, piece, opp, UpRight, Lines(UpRight)) + DirectionSum(g, piece, opp, DownRight, Lines(DownRight))
  {
    score := 0;
    for r := 0 to Rows - 3
      invariant score == DirectionSum(g, piece, opp, UpRight, r) + DirectionSum(g, piece, opp, DownRight, r)
    {
      for c := 0 to Cols - 3
        invariant score == DirectionSum(g, piece, opp, UpRight, r) + DirectionSum(g, piece, opp, DownRight, r)
                           + LineSum(g, piece, opp, UpRight, r, c) + LineSum(g, piece, opp, DownRight, r, c)
      {
        var up := [g[r][c], g[r + 1][c + 1], g[r + 2][c + 2], g[r + 3][c + 3]];
        var down := [g[r + 3][c], g[r + 2][c + 1], g[r + 1][c + 2], g[r][c + 3]];
        DiagonalSlices(g, r, c);
        score := score + EvaluateWindow(up, piece, opp);
        score := score + EvaluateWindow(down, piece, opp);
      }
    }
  }

  /** Alpha-beta minimax for the computer.  The first playable column is
      always explored first and always improves on -inf/+inf, so the
      column drawn at random before the loop is always replaced; it is
      modelled as the first playable column. */
  method Minimax(board: array2<int>, depth: nat, alpha: ExtInt, beta: ExtInt, maximizingPlayer: bool)
    returns (column: Option<int>, value: int)
    requires board.Length0 == Rows && board.Length1 == Cols
    ensures SearchOutcome(AiRules(), Snapshot(board), depth, maximizingPlayer, alpha, beta, column, value)
    decreases depth, 3
  {
    var validLocations := ValidLocations(Snapshot(board));
    var isTerminal := IsTerminalNode(board);
    if depth == 0 || isTerminal {
      if isTerminal {
        var aiWins := WinningMove(board, AiPiece);
        if aiWins {
          return None, WinScore;
        }
        var playerWins := WinningMove(board, PlayerPiece);
        if playerWins {
          return None, -WinScore;
        }
        return None, 0;
      } else {
        value := ScorePosition(board, AiPiece);
        return None, value;
      }
    }
    ghost var g := Snapshot(board);
    ghost var vals := ChildValues(AiRules(), g, depth, maximizingPlayer, validLocations);
    InnerNode(AiRules(), g, depth, maximizingPlayer);
    ChildValuesOfChildren(AiRules(), g, depth, maximizingPlayer, validLocations);
    if maximizingPlayer {
      column, value := MaxBranch(board, depth, alpha, beta, validLocations, vals);
    } else {
      column, value := MinBranch(board, depth, alpha, beta, validLocations, vals);
    }
  }

  /** The maximising branch: the computer's piece in each playable column
      left to right, raising alpha and cutting off once alpha >= beta. */
  method MaxBranch(board: array2<int>, depth: nat, alpha: ExtInt, beta: ExtInt, validLocations: seq<int>, ghost vals: seq<int>)
    returns (column: Option<int>, value: int)
    requires board.Length0 == Rows && board.Length1 == Cols
    requires depth > 0 && validLocations == ValidLocations(Snapshot(board)) && |validLocations| > 0
    requires ValuesOfChildren(AiRules(), Snapshot(board), depth, true, validLocations, vals)
    ensures column.Some? && column.value in ValidLocations(Snapshot(board))
    ensures Lt(alpha, Fin(value)) && Lt(Fin(value), beta) ==> IsFirstBest(AiRules(), Snapshot(board), depth, true, column.value, value)
    ensures FailSoft(alpha, beta, value, Extreme(vals, |vals|, true))
    decreases depth, 2
  {
    var best;
    ghost var k;
    column, best, k := MaxColumns(board, Snapshot(board), depth, alpha, beta, validLocations, vals);
    value := best.n;
    if Lt(alpha, Fin(value)) && Lt(Fin(value), beta) {
      FirstBestByIndex(AiRules(), Snapshot(board), depth, true, vals, k, value);
    }
  }

  /** The maximising column loop, stated on the child values: the value
      is fail-soft for their maximum and, strictly inside the window, is
      reached first at the chosen column's index. */
  method MaxColumns(board: array2<int>, ghost g: Grid, depth: nat, alpha: ExtInt, beta: ExtInt, validLocations: seq<int>, ghost vals: seq<int>)
    returns (column: Option<int>, best: ExtInt, ghost k: nat)
    requires board.Length0 == Rows && board.Length1 == Cols && g == Snapshot(board)
    requires depth > 0 && Playable(g, validLocations) && |validLocations| > 0
    requires ValuesOfChildren(AiRules(), g, depth, true, validLocations, vals)
    ensures |vals| == |validLocations| && MaxDone(alpha, beta, vals, best, k)
    ensures column == Some(validLocations[k])
    decreases depth, 1
  {
    var n := |validLocations|;
    best := NegInf;
    var a := alpha;
    column := Some(validLocations[0]);
    ghost var prefix := 0;
    k := 0;
    var i := 0;
    while i < n
      invariant MaxLoop(alpha, beta, vals, i, best, a, prefix, k)
      invariant i == n ==> MaxDone(alpha, beta, vals, best, k)
      invariant column == Some(validLocations[k])
    {
      var newScore := SearchChild(board, g, depth, a, beta, true, validLocations, i, vals);
      var improved, cut;
      best, a, improved, cut, prefix, k := MaxUpdate(alpha, beta, vals, i, best, a, prefix, k, newScore);
      if improved {
        column := Some(validLocations[i]);
      }
      if cut {
        break;
      }
      i := i + 1;
    }
  }

  /** The minimising branch: the player's piece in each playable column
      left to right, lowering beta and cutting off once alpha >= beta. */
  method MinBranch(board: array2<int>, depth: nat, alpha: ExtInt, beta: ExtInt, validLocations: seq<int>, ghost vals: seq<int>)
    returns (column: Option<int>, value: int)
    requires board.Length0 == Rows && board.Length1 == Cols
    requires depth > 0 && validLocations == ValidLocations(Snapshot(board)) && |validLocations| > 0
    requires ValuesOfChildren(AiRules(), Snapshot(board), depth, false, validLocations, vals)
    ensures column.Some? && column.value in ValidLocations(Snapshot(board))
    ensures Lt(alpha, Fin(value)) && Lt(Fin(value), beta) ==> IsFirstBest(AiRules(), Snapshot(board), depth, false, column.value, value)
    ensures FailSoft(alpha, beta, value, Extreme(vals, |vals|, false))
    decreases depth, 2
  {
    var best;
    ghost var k;
    column, best, k := MinColumns(board, Snapshot(board), depth, alpha, beta, validLocations, vals);
    value := best.n;
    if Lt(alpha, Fin(value)) && Lt(Fin(value), beta) {
      FirstBestByIndex(AiRules(), Snapshot(board), depth, false, vals, k, value);
    }
  }

  /** The minimising column loop, symmetric to `MaxColumns`. */
  method MinColumns(board: array2<int>, ghost g: Grid, depth: nat, alpha: ExtInt, beta: ExtInt, validLocations: seq<int>, ghost vals: seq<int>)
    returns (column: Option<int>, best: ExtInt, ghost k: nat)
    requires board.Length0 == Rows && board.Length1 == Cols && g == Snapshot(board)
    requires depth > 0 && Playable(g, validLocations) && |validLocations| > 0
    requires ValuesOfChildren(AiRules(), g, depth, false, validLocations, vals)
    ensures |vals| == |validLocations| && MinDone(alpha, beta, vals, best, k)
    ensures column == Some(validLocations[k])
    decreases depth, 1
  {
    var n := |validLocations|;
    best := PosInf;
    var b := beta;
    column := Some(validLocations[0]);
    ghost var prefix := 0;
    k := 0;
    var i := 0;
    while i < n
      invariant MinLoop(alpha, beta, vals, i, best, b, prefix, k)
      invariant i == n ==> MinDone(alpha, beta, vals, best, k)
      invariant column == Some(validLocations[k])
    {
      var newScore := SearchChild(board, g, depth, alpha, b, false, validLocations, i, vals);
      var improved, cut;
      best, b, improved, cut, prefix, k := MinUpdate(alpha, beta, vals, i, best, b, prefix, k, newScore);
      if improved {
        column := Some(validLocations[i]);
      }
      if cut {
        break;
      }
      i := i + 1;
    }
  }

  /** One iteration's child search: drop the mover's piece into the
      `i`-th playable column on a copy of the board and search the copy one
      level deeper, for the other side, with the current window. */
  method SearchChild(board: array2<int>, ghost g: Grid, depth: nat, alpha: ExtInt, beta: ExtInt, maximizingPlayer: bool,
                     validLocations: seq<int>, i: nat, ghost vals: seq<int>)
    returns (newScore: int)
    requires board.Length0 == Rows && board.Length1 == Cols && g == Snapshot(board)
    requires depth > 0 && Playable(g, validLocations) && i < |validLocations|
    requires ValuesOfChildren(AiRules(), g, depth, maximizingPlayer, validLocations, vals)
    ensures i < |vals| && FailSoft(alpha, beta, newScore, vals[i])
    decreases depth, 0
  {
    var col := validLocations[i];
    var bCopy := CopyAndDrop(board, col, Mover(AiRules(), maximizingPlayer));
    var childDepth: nat := depth - 1;
    var _, value := Minimax(bCopy, childDepth, alpha, beta, !maximizingPlayer);
    ChildValueOf(AiRules(), g, depth, maximizingPlayer, col, Snapshot(bCopy), childDepth);
    newScore := value;
  }
}
