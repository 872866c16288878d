/** The heuristic evaluator: a fixed score table for one window of four
    cells, and the board score built from it. */
module Evaluator {
  import opened Board

  /** How many cells of `w` hold `x` (Python's `list.count`). */
  function Count(w: seq<int>, x: int): (n: nat)
    ensures n <= |w|
  {
    if w == [] then 0 else (if w[0] == x then 1 else 0) + Count(w[1..], x)
  }

  /** The count of a four-cell window, cell by cell. */
  lemma Count4(a: int, b: int, c: int, d: int, x: int)
    ensures Count([a, b, c, d], x) ==
      (if a == x then 1 else 0) + (if b == x then 1 else 0) + (if c == x then 1 else 0) + (if d == x then 1 else 0)
  {
    var one := (if d == x then 1 else 0);
    assert [d][1..] == [];
    assert Count([d], x) == one;
    assert [c, d][1..] == [d];
    assert Count([c, d], x) == (if c == x then 1 else 0) + one;
    assert [b, c, d][1..] == [c, d];
    assert Count([b, c, d], x) == (if b == x then 1 else 0) + (if c == x then 1 else 0) + one;
    assert [a, b, c, d][1..] == [b, c, d];
  }

  /** A value that occurs nowhere is counted 0 times. */
  lemma {:induction false} CountAbsent(w: seq<int>, x: int)
    requires forall i :: 0 <= i < |w| ==> w[i] != x
    ensures Count(w, x) == 0
  {
    if w != [] {
      CountAbsent(w[1..], x);
    }
  }

  /** Two different values together occupy at most all the cells. */
  lemma {:induction false} CountDisjoint(w: seq<int>, x: int, y: int)
    requires x != y
    ensures Count(w, x) + Count(w, y) <= |w|
  {
    if w != [] {
      CountDisjoint(w[1..], x, y);
    }
  }

  /** The window table: four of `piece` 100, three of `piece` and an empty
      cell 5, two of `piece` and two empty cells 2; independently of these,
      three of `opp` and an empty cell subtract 4. */
  function EvaluateWindow(w: seq<int>, piece: int, opp: int): int {
    var bonus :=
      if Count(w, piece) == 4 then 100
      else if Count(w, piece) == 3 && Count(w, Empty) == 1 then 5
      else if Count(w, piece) == 2 && Count(w, Empty) == 2 then 2
      else 0;
    var penalty := if Count(w, opp) == 3 && Count(w, Empty) == 1 then 4 else 0;
    bonus - penalty
  }

  /** For a window of four and two different sides the bonus and the
      penalty never meet: the score is one of the five table entries, and
      each entry is reached exactly by its composition. */
  lemma WindowTable(w: seq<int>, piece: int, opp: int)
    requires |w| == 4 && piece != opp && piece != Empty && opp != Empty
    ensures EvaluateWindow(w, piece, opp) in {-4, 0, 2, 5, 100}
    ensures EvaluateWindow(w, piece, opp) == 100 <==> Count(w, piece) == 4
    ensures EvaluateWindow(w, piece, opp) == 5 <==> Count(w, piece) == 3 && Count(w, Empty) == 1
    ensures EvaluateWindow(w, piece, opp) == 2 <==> Count(w, piece) == 2 && Count(w, Empty) == 2
    ensures EvaluateWindow(w, piece, opp) == -4 <==> Count(w, opp) == 3 && Count(w, Empty) == 1
  {
    CountDisjoint(w, piece, opp);
    CountDisjoint(w, piece, Empty);
    CountDisjoint(w, opp, Empty);
  }

  /** The scores of a window of three pieces and a gap, for each side. */
  lemma ThreeAndGap()
    ensures EvaluateWindow([PieceOne, PieceOne, PieceOne, Empty], PieceOne, PieceTwo) == 5
    ensures EvaluateWindow([PieceOne, PieceOne, PieceOne, Empty], PieceTwo, PieceOne) == -4
  {
    Count4(PieceOne, PieceOne, PieceOne, Empty, PieceOne);
    Count4(PieceOne, PieceOne, PieceOne, Empty, PieceTwo);
    Count4(PieceOne, PieceOne, PieceOne, Empty, Empty);
  }

  // ---------------------------------------------------------------
  // The board score
  // ---------------------------------------------------------------

  /** Column `c` read bottom to top. */
  function Column(g: Grid, c: int): (col: seq<int>)
    requires WellFormed(g) && 0 <= c < Cols
    ensures |col| == Rows && forall r :: 0 <= r < Rows ==> col[r] == g[r][c]
  {
    seq(Rows, r requires 0 <= r < Rows => g[r][c])
  }

  /** The scoring loops visit the windows of direction `d` as `Lines(d)`
      outer iterations of `PerLine(d)` inner ones:
      horizontal 6 x 4, vertical 7 x 3 and each diagonal 3 x 4. */
  function Lines(d: Direction): nat {
    match d
    case Horizontal => Rows
    case Vertical => Cols
    case UpRight => Rows - 3
    case DownRight => Rows - 3
  }

  function PerLine(d: Direction): nat {
    if d == Vertical then Rows - 3 else Cols - 3
  }

  /** The start cell of the window at outer index `o`, inner index `i`.
      Horizontal and diagonal loops run rows outside and columns inside,
      the vertical loop columns outside and rows inside; the down-right
      window of loop row `o` starts at row `o + 3`. */
  function StartRow(d: Direction, o: int, i: int): int {
    match d
    case Horizontal => o
    case Vertical => i
    case UpRight => o
    case DownRight => o + 3
  }

  function StartCol(d: Direction, o: int, i: int): int {
    if d == Vertical then o else i
  }

  /** Every in-bounds window is visited by exactly one loop position. */
  lemma WindowsEnumerated(d: Direction, r: int, c: int)
    requires InBounds(d, r, c)
    ensures exists o, i :: 0 <= o < Lines(d) && 0 <= i < PerLine(d) && StartRow(d, o, i) == r && StartCol(d, o, i) == c
    ensures forall o, i :: 0 <= o < Lines(d) && 0 <= i < PerLine(d) && StartRow(d, o, i) == r && StartCol(d, o, i) == c ==>
              (o, i) == (if d == Vertical then (c, r) else if d == DownRight then (r - 3, c) else (r, c))
  {
    match d
    case Horizontal =>
      assert StartRow(d, r, c) == r && StartCol(d, r, c) == c;
    case Vertical =>
      assert StartRow(d, c, r) == r && StartCol(d, c, r) == c;
    case UpRight =>
      assert StartRow(d, r, c) == r && StartCol(d, r, c) == c;
    case DownRight =>
      assert StartRow(d, r - 3, c) == r && StartCol(d, r - 3, c) == c;
  }

  lemma LoopWindowInBounds(d: Direction, o: int, i: int)
    requires 0 <= o < Lines(d) && 0 <= i < PerLine(d)
    ensures InBounds(d, StartRow(d, o, i), StartCol(d, o, i))
  {
  }

  /** The row and column slices the scoring loops take are windows. */
  lemma RowSlice(g: Grid, r: int, c: int)
    requires WellFormed(g) && 0 <= r < Rows && 0 <= c < Cols - 3
    ensures g[r][c..c + 4] == Window(g, Horizontal, r, c)
  {
  }

  lemma ColumnSlice(g: Grid, c: int, r: int)
    requires WellFormed(g) && 0 <= c < Cols && 0 <= r < Rows - 3
    ensures Column(g, c)[r..r + 4] == Window(g, Vertical, r, c)
  {
  }

  /** The diagonal cells the combined diagonal loop reads at (r, c) are
      the up-right window from (r, c) and the down-right one from (r + 3, c). */
  lemma DiagonalSlices(g: Grid, r: int, c: int)
    requires WellFormed(g) && 0 <= r < Rows - 3 && 0 <= c < Cols - 3
    ensures [g[r][c], g[r + 1][c + 1], g[r + 2][c + 2], g[r + 3][c + 3]] == Window(g, UpRight, r, c)
    ensures [g[r + 3][c], g[r + 2][c + 1], g[r + 1][c + 2], g[r][c + 3]] == Window(g, DownRight, r + 3, c)
    ensures [g[r][c], g[r + 1][c + 1], g[r + 2][c + 2], g[r + 3][c + 3]] == Window(g, UpRight, StartRow(UpRight, r, c), StartCol(UpRight, r, c))
    ensures [g[r + 3][c], g[r + 2][c + 1], g[r + 1][c + 2], g[r][c + 3]] == Window(g, DownRight, StartRow(DownRight, r, c), StartCol(DownRight, r, c))
  {
  }

  /** The score of the window at loop position (o, i). */
  function WindowScore(g: Grid, piece: int, opp: int, d: Direction, o: nat, i: nat): int
    requires WellFormed(g) && o < Lines(d) && i < PerLine(d)
  {
    LoopWindowInBounds(d, o, i);
    EvaluateWindow(Window(g, d, StartRow(d, o, i), StartCol(d, o, i)), piece, opp)
  }

  /** The sum over the first `n` windows of outer iteration `o`. */
  function LineSum(g: Grid, piece: int, opp: int, d: Direction, o: nat, n: nat): int
    requires WellFormed(g) && o < Lines(d) && n <= PerLine(d)
  {
    if n == 0 then 0 else LineSum(g, piece, opp, d, o, n - 1) + WindowScore(g, piece, opp, d, o, n - 1)
  }

  /** The sum over the first `n` outer iterations of direction `d`. */
  function DirectionSum(g: Grid, piece: int, opp: int, d: Direction, n: nat): int
    requires WellFormed(g) && n <= Lines(d)
  {
    if n == 0 then 0 else DirectionSum(g, piece, opp, d, n - 1) + LineSum(g, piece, opp, d, n - 1, PerLine(d))
  }

  /** The board score for `piece`: three points per `piece` in the centre
      column, plus the table score of each of the 69 windows. */
  ghost function ScoreSpec(g: Grid, piece: int, opp: int): int
    requires WellFormed(g)
  {
    3 * Count(Column(g, Cols / 2), piece)
    + DirectionSum(g, piece, opp, Horizontal, Lines(Horizontal))
    + DirectionSum(g, piece, opp, Vertical, Lines(Vertical))
    + DirectionSum(g, piece, opp, UpRight, Lines(UpRight))
    + DirectionSum(g, piece, opp, DownRight, Lines(DownRight))
  }

  /** Every cell is empty. */
  ghost predicate AllEmpty(g: Grid)
    requires WellFormed(g)
  {
    forall r, c :: 0 <= r < Rows && 0 <= c < Cols ==> g[r][c] == Empty
  }

  /** Every window of an empty board scores 0 for two proper sides. */
  lemma EmptyWindowScore(g: Grid, piece: int, opp: int, d: Direction, o: nat, i: nat)
    requires WellFormed(g) && AllEmpty(g)
    requires piece != Empty && opp != Empty
    requires o < Lines(d) && i < PerLine(d)
    ensures WindowScore(g, piece, opp, d, o, i) == 0
  {
    LoopWindowInBounds(d, o, i);
    var r, c := StartRow(d, o, i), StartCol(d, o, i);
    var dr, dc := RowStep(d), ColStep(d);
    assert Window(g, d, r, c) == [Empty, Empty, Empty, Empty] by {
      assert g[r][c] == Empty && g[r + dr][c + dc] == Empty;
      assert g[r + 2 * dr][c + 2 * dc] == Empty && g[r + 3 * dr][c + 3 * dc] == Empty;
    }
    Count4(Empty, Empty, Empty, Empty, piece);
    Count4(Empty, Empty, Empty, Empty, opp);
  }

  /** A line whose windows all score 0 sums to 0. */
  lemma {:induction false} ZeroLineSum(g: Grid, piece: int, opp: int, d: Direction, o: nat, n: nat)
    requires WellFormed(g) && o < Lines(d) && n <= PerLine(d)
    requires forall i :: 0 <= i < n ==> WindowScore(g, piece, opp, d, o, i) == 0
    ensures LineSum(g, piece, opp, d, o, n) == 0
  {
    if n > 0 {
      ZeroLineSum(g, piece, opp, d, o, n - 1);
    }
  }

  /** Every line of an empty board sums to 0. */
  lemma EmptyLine(g: Grid, piece: int, opp: int, d: Direction, o: nat)
    requires WellFormed(g) && AllEmpty(g)
    requires piece != Empty && opp != Empty
    requires o < Lines(d)
    ensures LineSum(g, piece, opp, d, o, PerLine(d)) == 0
  {
    forall i | 0 <= i < PerLine(d)
      ensures WindowScore(g, piece, opp, d, o, i) == 0
    {
      EmptyWindowScore(g, piece, opp, d, o, i);
    }
    ZeroLineSum(g, piece, opp, d, o, PerLine(d));
  }

  lemma {:induction false} EmptyDirectionSum(g: Grid, piece: int, opp: int, d: Direction, n: nat)
    requires WellFormed(g) && AllEmpty(g)
    requires piece != Empty && opp != Empty
    requires n <= Lines(d)
    ensures DirectionSum(g, piece, opp, d, n) == 0
  {
    if n > 0 {
      EmptyDirectionSum(g, piece, opp, d, n - 1);
      EmptyLine(g, piece, opp, d, n - 1);
    }
  }

  /** The empty board scores 0 for either side. */
  lemma EmptyBoardScore(piece: int, opp: int)
    requires piece != Empty && opp != Empty
    ensures ScoreSpec(CreateBoard(), piece, opp) == 0
  {
    var g := CreateBoard();
    assert AllEmpty(g);
    CountAbsent(Column(g, Cols / 2), piece);
    EmptyDirectionSum(g, piece, opp, Horizontal, Lines(Horizontal));
    EmptyDirectionSum(g, piece, opp, Vertical, Lines(Vertical));
    EmptyDirectionSum(g, piece, opp, UpRight, Lines(UpRight));
    EmptyDirectionSum(g, piece, opp, DownRight, Lines(DownRight));
  }

  // ---------------------------------------------------------------
  // The straight loop nests of `score_position`, shared by both
  // computer players
  // ---------------------------------------------------------------

  /** The horizontal windows, row by row. */
  method ScoreRows(g: Grid, piece: int, opp: int) returns (score: int)
    requires WellFormed(g)
    ensures score == DirectionSum(g, piece, opp, Horizontal, Lines(Horizontal))
  {
    score := 0;
    for r := 0 to Rows
      invariant score == DirectionSum(g, piece, opp, Horizontal, r)
    {
      var rowArray := g[r];
      for c := 0 to Cols - 3
        invariant score == DirectionSum(g, piece, opp, Horizontal, r) + LineSum(g, piece, opp, Horizontal, r, c)
      {
        RowSlice(g, r, c);
        score := score + EvaluateWindow(rowArray[c..c + 4], piece, opp);
      }
    }
  }

  /** The vertical windows, column by column. */
  method ScoreColumns(g: Grid, piece: int, opp: int) returns (score: int)
    requires WellFormed(g)
    ensures score == DirectionSum(g, piece, opp, Vertical, Lines(Vertical))
  {
    score := 0;
    for c := 0 to Cols
      invariant score == DirectionSum(g, piece, opp, Vertical, c)
    {
      var colArray := Column(g, c);
      for r := 0 to Rows - 3
        invariant score == DirectionSum(g, piece, opp, Vertical, c) + LineSum(g, piece, opp, Vertical, c, r)
      {
        ColumnSlice(g, c, r);
        score := score + EvaluateWindow(colArray[r..r + 4], piece, opp);
      }
    }
  }
}
