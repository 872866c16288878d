/** The game-tree search shared by the computer players: depth-limited
    minimax, the specification its alpha-beta implementations are proved
    against, and the facts about one loop step of those implementations. */
module Search {
  import opened Wrappers
  import opened Board
  import opened Evaluator

  /** Integers extended with the two infinities `math.inf` supplies as
      alpha/beta sentinels and as the initial best value. */
  datatype ExtInt = NegInf | Fin(n: int) | PosInf

  predicate Lt(x: ExtInt, y: ExtInt) {
    match x
    case NegInf => !y.NegInf?
    case Fin(a) => y.PosInf? || (y.Fin? && a < y.n)
    case PosInf => false
  }

  predicate Le(x: ExtInt, y: ExtInt) {
    x == y || Lt(x, y)
  }

  /** Python's `max(x, y)`. */
  function ExtMax(x: ExtInt, y: ExtInt): ExtInt {
    if Lt(x, y) then y else x
  }

  /** Python's `min(x, y)`. */
  function ExtMin(x: ExtInt, y: ExtInt): ExtInt {
    if Lt(y, x) then y else x
  }

  /** What varies between the game modes: the piece the maximising side
      drops (and whose win scores `winValue`), the piece the minimising side
      drops (whose win scores `lossValue`), and the opponent the evaluator
      penalises.  Leaves are scored for `maxPiece`. */
  datatype Rules = Rules(maxPiece: int, minPiece: int, winValue: int, lossValue: int, evalOpp: int)

  /** The value of a leaf: a finished game scores by its winner (the
      maximising side's win is tested first) or 0 for a full board; an
      unfinished one scores by the heuristic. */
  ghost function LeafValue(rules: Rules, g: Grid): int
    requires WellFormed(g)
  {
    if Terminal(g) then
      if HasFour(g, rules.maxPiece) then rules.winValue
      else if HasFour(g, rules.minPiece) then rules.lossValue
      else 0
    else ScoreSpec(g, rules.maxPiece, rules.evalOpp)
  }

  ghost predicate Playable(g: Grid, cols: seq<int>)
    requires WellFormed(g)
  {
    forall i :: 0 <= i < |cols| ==> 0 <= cols[i] < Cols && IsValidLocation(g, cols[i])
  }

  function Mover(rules: Rules, maximizing: bool): int {
    if maximizing then rules.maxPiece else rules.minPiece
  }

  /** Plain depth-limited minimax, without pruning: the best child value
      over the playable columns. */
  ghost function MinimaxValue(rules: Rules, g: Grid, depth: nat, maximizing: bool): int
    requires WellFormed(g)
    decreases depth, 1, 0
  {
    if depth == 0 || Terminal(g) then LeafValue(rules, g)
    else
      var vals := ChildValues(rules, g, depth, maximizing, ValidLocations(g));
      Extreme(vals, |vals|, maximizing)
  }

  /** The minimax value after the side to move drops into `col`. */
  ghost function ChildValue(rules: Rules, g: Grid, depth: nat, maximizing: bool, col: int): int
    requires WellFormed(g) && depth > 0 && 0 <= col < Cols && IsValidLocation(g, col)
    decreases depth, 0, 0
  {
    MinimaxValue(rules, Drop(g, col, Mover(rules, maximizing)), depth - 1, !maximizing)
  }

  /** `ChildValue` is the value of the position after the drop, searched
      one level shallower for the other side. */
  lemma ChildValueOf(rules: Rules, g: Grid, depth: nat, maximizing: bool, col: int, child: Grid, childDepth: nat)
    requires WellFormed(g) && depth > 0 && 0 <= col < Cols && IsValidLocation(g, col)
    requires child == Drop(g, col, Mover(rules, maximizing)) && childDepth == depth - 1
    ensures ChildValue(rules, g, depth, maximizing, col) == MinimaxValue(rules, child, childDepth, !maximizing)
  {
  }

  /** The child values of the columns `cols`, in order. */
  ghost function ChildValues(rules: Rules, g: Grid, depth: nat, maximizing: bool, cols: seq<int>): (vals: seq<int>)
    requires WellFormed(g) && depth > 0 && Playable(g, cols)
    decreases depth, 0, 1
    ensures |vals| == |cols|
  {
    seq(|cols|, j requires 0 <= j < |cols| => ChildValue(rules, g, depth, maximizing, cols[j]))
  }

  /** The largest (maximising) or smallest value among the first `n`,
      scanning left to right. */
  function Extreme(vals: seq<int>, n: nat, maximizing: bool): int
    requires 0 < n <= |vals|
  {
    var v := vals[n - 1];
    if n == 1 then v
    else
      var b := Extreme(vals, n - 1, maximizing);
      if maximizing then (if v > b then v else b) else (if v < b then v else b)
  }

  /** `Extreme` bounds each of the first `n` values: from above when
      maximising, from below when minimising. */
  lemma {:induction false} ExtremeBounds(vals: seq<int>, n: nat, maximizing: bool, i: nat)
    requires i < n <= |vals|
    ensures maximizing ==> vals[i] <= Extreme(vals, n, maximizing)
    ensures !maximizing ==> vals[i] >= Extreme(vals, n, maximizing)
  {
    if i < n - 1 {
      ExtremeBounds(vals, n - 1, maximizing, i);
    }
  }

  /** `Extreme` is one of the first `n` values. */
  lemma {:induction false} ExtremeAttained(vals: seq<int>, n: nat, maximizing: bool) returns (i: nat)
    requires 0 < n <= |vals|
    ensures i < n && vals[i] == Extreme(vals, n, maximizing)
  {
    if n == 1 {
      i := 0;
    } else {
      i := ExtremeAttained(vals, n - 1, maximizing);
      if vals[n - 1] == Extreme(vals, n, maximizing) {
        i := n - 1;
      }
    }
  }

  /** One more value: the extreme of the first `n + 1` values from the
      extreme of the first `n`. */
  lemma ExtremeNext(vals: seq<int>, n: nat, maximizing: bool)
    requires n < |vals|
    ensures n == 0 ==> Extreme(vals, n + 1, maximizing) == vals[0]
    ensures n > 0 && maximizing ==>
      Extreme(vals, n + 1, maximizing) == (if vals[n] > Extreme(vals, n, maximizing) then vals[n] else Extreme(vals, n, maximizing))
    ensures n > 0 && !maximizing ==>
      Extreme(vals, n + 1, maximizing) == (if vals[n] < Extreme(vals, n, maximizing) then vals[n] else Extreme(vals, n, maximizing))
  {
  }

  /** At an inner node some column is playable and the minimax value is
      the extreme of the child values over the playable columns. */
  lemma InnerNode(rules: Rules, g: Grid, depth: nat, maximizing: bool)
    requires WellFormed(g) && depth > 0 && !Terminal(g)
    ensures |ValidLocations(g)| > 0
    ensures MinimaxValue(rules, g, depth, maximizing) ==
            var vals := ChildValues(rules, g, depth, maximizing, ValidLocations(g));
            Extreme(vals, |vals|, maximizing)
  {
  }

  // ---------------------------------------------------------------
  // What an alpha-beta search promises
  // ---------------------------------------------------------------

  /** The fail-soft relation between a value `v` returned for the window
      (alpha, beta) and the exact value: exact inside the window, an upper
      bound on a fail low and a lower bound on a fail high. */
  ghost predicate FailSoft(alpha: ExtInt, beta: ExtInt, v: int, exact: int) {
    Lt(alpha, beta) ==>
      && (Le(Fin(v), alpha) ==> exact <= v)
      && (Le(beta, Fin(v)) ==> exact >= v)
      && (Lt(alpha, Fin(v)) && Lt(Fin(v), beta) ==> exact == v)
  }

  /** `col` reaches the value `v` and every playable column left of it
      is strictly worse for the side to move. */
  ghost predicate IsFirstBest(rules: Rules, g: Grid, depth: nat, maximizing: bool, col: int, v: int)
    requires WellFormed(g) && depth > 0 && 0 <= col < Cols && IsValidLocation(g, col)
  {
    && ChildValue(rules, g, depth, maximizing, col) == v
    && forall c :: 0 <= c < col && IsValidLocation(g, c) ==>
         if maximizing then ChildValue(rules, g, depth, maximizing, c) < v
         else ChildValue(rules, g, depth, maximizing, c) > v
  }

  /** The contract of a minimax call with window (alpha, beta):
      - a leaf (depth 0 or a finished game) returns no column and the leaf value;
      - an inner node returns a playable column;
      - the value is fail-soft with respect to plain minimax;
      - a value strictly inside the window is reached first by the
        returned column. */
  ghost predicate SearchOutcome(rules: Rules, g: Grid, depth: nat, maximizing: bool,
                                alpha: ExtInt, beta: ExtInt, column: Option<int>, value: int)
    requires WellFormed(g)
  {
    && (depth == 0 || Terminal(g) ==> column == None && value == LeafValue(rules, g))
    && (depth > 0 && !Terminal(g) ==>
          && column.Some? && column.value in ValidLocations(g)
          && (Lt(alpha, Fin(value)) && Lt(Fin(value), beta) ==>
                IsFirstBest(rules, g, depth, maximizing, column.value, value)))
    && FailSoft(alpha, beta, value, MinimaxValue(rules, g, depth, maximizing))
  }

  /** Called with the window (-inf, +inf) the search is exact: its value is
      plain minimax and its column is the first column reaching it. */
  lemma RootSearchExact(rules: Rules, g: Grid, depth: nat, maximizing: bool, column: Option<int>, value: int)
    requires WellFormed(g)
    requires SearchOutcome(rules, g, depth, maximizing, NegInf, PosInf, column, value)
    ensures value == MinimaxValue(rules, g, depth, maximizing)
    ensures depth > 0 && !Terminal(g) ==>
              column.Some? && column.value in ValidLocations(g) &&
              IsFirstBest(rules, g, depth, maximizing, column.value, value)
  {
  }

  /** `vals` are the child values of the columns `cols`, one by one. */
  ghost predicate ValuesOfChildren(rules: Rules, g: Grid, depth: nat, maximizing: bool, cols: seq<int>, vals: seq<int>)
    requires WellFormed(g) && depth > 0 && Playable(g, cols)
  {
    && |vals| == |cols|
    && forall j {:trigger ChildValue(rules, g, depth, maximizing, cols[j])} :: 0 <= j < |cols| ==>
         vals[j] == ChildValue(rules, g, depth, maximizing, cols[j])
  }

  lemma ChildValuesOfChildren(rules: Rules, g: Grid, depth: nat, maximizing: bool, cols: seq<int>)
    requires WellFormed(g) && depth > 0 && Playable(g, cols)
    ensures ValuesOfChildren(rules, g, depth, maximizing, cols, ChildValues(rules, g, depth, maximizing, cols))
  {
    forall j | 0 <= j < |cols|
      ensures ChildValues(rules, g, depth, maximizing, cols)[j] == ChildValue(rules, g, depth, maximizing, cols[j])
    {
    }
  }

  /** The first-best condition stated over positions in the list of
      playable columns gives the condition over column numbers. */
  lemma FirstBestByIndex(rules: Rules, g: Grid, depth: nat, maximizing: bool, vals: seq<int>, k: nat, v: int)
    requires WellFormed(g) && depth > 0 && ValuesOfChildren(rules, g, depth, maximizing, ValidLocations(g), vals)
    requires k < |vals| && vals[k] == v
    requires forall j :: 0 <= j < k ==> if maximizing then vals[j] < v else vals[j] > v
    ensures IsFirstBest(rules, g, depth, maximizing, ValidLocations(g)[k], v)
  {
    var cols := ValidLocations(g);
    ValidLocationsAscending(g);
    forall c | 0 <= c < cols[k] && IsValidLocation(g, c)
      ensures if maximizing then ChildValue(rules, g, depth, maximizing, c) < v
              else ChildValue(rules, g, depth, maximizing, c) > v
    {
      ValidLocationsComplete(g, c);
      var j :| 0 <= j < |cols| && cols[j] == c;
      AscendingOrder(cols, j, k);
    }
  }

  // ---------------------------------------------------------------
  // One step of the column loop
  // ---------------------------------------------------------------

  /** The maximising loop's invariant once a child has been explored:
      `value` is the best returned so far and `prefix` the exact best of
      the explored children. */
  ghost predicate MaxInv(alpha: ExtInt, value: ExtInt, prefix: int) {
    && value.Fin?
    && (Le(value, alpha) ==> prefix <= value.n)
    && (Lt(alpha, value) ==> prefix == value.n)
  }

  /** The minimising loop's invariant, symmetric to `MaxInv`. */
  ghost predicate MinInv(beta: ExtInt, value: ExtInt, prefix: int) {
    && value.Fin?
    && (Le(beta, value) ==> prefix >= value.n)
    && (Lt(value, beta) ==> prefix == value.n)
  }

  /** One maximising step: the child was searched with window
      (max(alpha, value), beta), returned `v` and has exact value `m`. */
  lemma MaxStep(alpha: ExtInt, beta: ExtInt, value: ExtInt, prefix: int, v: int, m: int)
    requires value == NegInf || (MaxInv(alpha, value, prefix) && Lt(ExtMax(alpha, value), beta))
    requires FailSoft(ExtMax(alpha, value), beta, v, m)
    ensures
      var value' := if Lt(value, Fin(v)) then Fin(v) else value;
      var prefix' := if value == NegInf then m else (if m > prefix then m else prefix);
      && ExtMax(ExtMax(alpha, value), value') == ExtMax(alpha, value')
      && (Lt(ExtMax(alpha, value'), beta) ==> MaxInv(alpha, value', prefix'))
      && (Lt(value, Fin(v)) && Lt(alpha, Fin(v)) && Lt(ExtMax(alpha, Fin(v)), beta) ==>
            m == v && (value == NegInf || prefix < v))
      && (!Lt(ExtMax(alpha, value'), beta) && Lt(alpha, beta) ==>
            value' == Fin(v) && m >= v && Le(beta, Fin(v)))
  {
  }

  /** One minimising step: the child was searched with window
      (alpha, min(beta, value)), returned `v` and has exact value `m`. */
  lemma MinStep(alpha: ExtInt, beta: ExtInt, value: ExtInt, prefix: int, v: int, m: int)
    requires value == PosInf || (MinInv(beta, value, prefix) && Lt(alpha, ExtMin(beta, value)))
    requires FailSoft(alpha, ExtMin(beta, value), v, m)
    ensures
      var value' := if Lt(Fin(v), value) then Fin(v) else value;
      var prefix' := if value == PosInf then m else (if m < prefix then m else prefix);
      && ExtMin(ExtMin(beta, value), value') == ExtMin(beta, value')
      && (Lt(alpha, ExtMin(beta, value')) ==> MinInv(beta, value', prefix'))
      && (Lt(Fin(v), value) && Lt(Fin(v), beta) && Lt(alpha, ExtMin(beta, Fin(v))) ==>
            m == v && (value == PosInf || prefix > v))
      && (!Lt(alpha, ExtMin(beta, value')) && Lt(alpha, beta) ==>
            value' == Fin(v) && m <= v && Le(Fin(v), alpha))
  {
  }

  /** The state of the maximising column loop before child `i`:
      `value` (the best score returned), `a` (the raised alpha), `prefix`
      (the exact best of the explored children) and `k` (the index of the
      chosen column). */
  ghost predicate MaxLoop(alpha: ExtInt, beta: ExtInt, vals: seq<int>, i: nat, value: ExtInt, a: ExtInt, prefix: int, k: nat) {
    && i <= |vals| && k < |vals| && (i > 0 ==> k < i)
    && a == ExtMax(alpha, value)
    && (i == 0 <==> value == NegInf)
    && (i > 0 ==> MaxInv(alpha, value, prefix) && Lt(a, beta) && prefix == Extreme(vals, i, true))
    && (i > 0 && Lt(alpha, value) ==> vals[k] == value.n && forall j :: 0 <= j < k ==> vals[j] < value.n)
  }

  /** What the maximising loop has established when it stops: the value is
      fail-soft for the extreme child value and, strictly inside the
      window, reached first at index `k`. */
  ghost predicate MaxDone(alpha: ExtInt, beta: ExtInt, vals: seq<int>, value: ExtInt, k: nat)
    requires |vals| > 0
  {
    && value.Fin? && k < |vals|
    && FailSoft(alpha, beta, value.n, Extreme(vals, |vals|, true))
    && (Lt(alpha, value) && Lt(value, beta) ==> vals[k] == value.n && forall j :: 0 <= j < k ==> vals[j] < value.n)
  }

  /** The minimising loop's state, symmetric to `MaxLoop`. */
  ghost predicate MinLoop(alpha: ExtInt, beta: ExtInt, vals: seq<int>, i: nat, value: ExtInt, b: ExtInt, prefix: int, k: nat) {
    && i <= |vals| && k < |vals| && (i > 0 ==> k < i)
    && b == ExtMin(beta, value)
    && (i == 0 <==> value == PosInf)
    && (i > 0 ==> MinInv(beta, value, prefix) && Lt(alpha, b) && prefix == Extreme(vals, i, false))
    && (i > 0 && Lt(value, beta) ==> vals[k] == value.n && forall j :: 0 <= j < k ==> vals[j] > value.n)
  }

  ghost predicate MinDone(alpha: ExtInt, beta: ExtInt, vals: seq<int>, value: ExtInt, k: nat)
    requires |vals| > 0
  {
    && value.Fin? && k < |vals|
    && FailSoft(alpha, beta, value.n, Extreme(vals, |vals|, false))
    && (Lt(alpha, value) && Lt(value, beta) ==> vals[k] == value.n && forall j :: 0 <= j < k ==> vals[j] > value.n)
  }

  /** The body of the maximising loop after child `i` returned `newScore`:
      keep the larger value (the column changes only on a strict
      improvement), raise alpha to it, and cut off once alpha >= beta.
      Either the loop goes on with its invariant, or it is done. */
  method MaxUpdate(alpha: ExtInt, beta: ExtInt, ghost vals: seq<int>, i: nat, value: ExtInt, a: ExtInt,
                   ghost prefix: int, ghost k: nat, newScore: int)
    returns (value': ExtInt, a': ExtInt, improved: bool, cut: bool, ghost prefix': int, ghost k': nat)
    requires i < |vals| && MaxLoop(alpha, beta, vals, i, value, a, prefix, k)
    requires FailSoft(a, beta, newScore, vals[i])
    ensures improved <==> Lt(value, Fin(newScore))
    ensures value' == (if improved then Fin(newScore) else value)
    ensures k' == (if improved then i else k)
    ensures a' == ExtMax(a, value')
    ensures cut <==> !Lt(a', beta)
    ensures !cut ==> MaxLoop(alpha, beta, vals, i + 1, value', a', prefix', k')
    ensures cut || i + 1 == |vals| ==> MaxDone(alpha, beta, vals, value', k')
  {
    ghost var m := vals[i];
    MaxStep(alpha, beta, value, prefix, newScore, m);
    ExtremeNext(vals, i, true);
    if i > 0 {
      forall j | 0 <= j < i
        ensures vals[j] <= prefix
      {
        ExtremeBounds(vals, i, true, j);
      }
    }
    prefix' := if i == 0 then m else (if m > prefix then m else prefix);
    improved := Lt(value, Fin(newScore));
    value' := if improved then Fin(newScore) else value;
    k' := if improved then i else k;
    a' := ExtMax(a, value');
    cut := !Lt(a', beta);
    if cut {
      ExtremeBounds(vals, |vals|, true, i);
    }
  }

  /** The body of the minimising loop, symmetric to `MaxUpdate`: keep the
      smaller value, lower beta to it, cut off once alpha >= beta. */
  method MinUpdate(alpha: ExtInt, beta: ExtInt, ghost vals: seq<int>, i: nat, value: ExtInt, b: ExtInt,
                   ghost prefix: int, ghost k: nat, newScore: int)
    returns (value': ExtInt, b': ExtInt, improved: bool, cut: bool, ghost prefix': int, ghost k': nat)
    requires i < |vals| && MinLoop(alpha, beta, vals, i, value, b, prefix, k)
    requires FailSoft(alpha, b, newScore, vals[i])
    ensures improved <==> Lt(Fin(newScore), value)
    ensures value' == (if improved then Fin(newScore) else value)
    ensures k' == (if improved then i else k)
    ensures b' == ExtMin(b, value')
    ensures cut <==> !Lt(alpha, b')
    ensures !cut ==> MinLoop(alpha, beta, vals, i + 1, value', b', prefix', k')
    ensures cut || i + 1 == |vals| ==> MinDone(alpha, beta, vals, value', k')
  {
    ghost var m := vals[i];
    MinStep(alpha, beta, value, prefix, newScore, m);
    ExtremeNext(vals, i, false);
    if i > 0 {
      forall j | 0 <= j < i
        ensures vals[j] >= prefix
      {
        ExtremeBounds(vals, i, false, j);
      }
    }
    prefix' := if i == 0 then m else (if m < prefix then m else prefix);
    improved := Lt(Fin(newScore), value);
    value' := if improved then Fin(newScore) else value;
    k' := if improved then i else k;
    b' := ExtMin(b, value');
    cut := !Lt(alpha, b');
    if cut {
      ExtremeBounds(vals, |vals|, false, i);
    }
  }
}
