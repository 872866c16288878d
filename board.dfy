/** The Connect-Four grid shared by the three game modes.

    The grid has six rows of seven cells; row 0 is the bottom row and a
    piece dropped into a column falls to the lowest empty cell.  A cell
    holds Empty (0) or a piece (1 or 2).  The pure model works on `Grid`
    values; the in-place code of the game works on an `array2<int>`, and
    `Snapshot` reads such an array as a `Grid`. */
module Board {
  import opened Wrappers

  const Rows: nat := 6
  const Cols: nat := 7
  const Empty: int := 0
  /** The two piece values used by every game mode. */
  const PieceOne: int := 1
  const PieceTwo: int := 2

  type Grid = seq<seq<int>>

  predicate WellFormed(g: Grid) {
    |g| == Rows && forall r :: 0 <= r < Rows ==> |g[r]| == Cols
  }

  /** The array `a` read as a grid. */
  function Snapshot(a: array2<int>): (g: Grid)
    requires a.Length0 == Rows && a.Length1 == Cols
    reads a
    ensures WellFormed(g)
    ensures forall r, c :: 0 <= r < Rows && 0 <= c < Cols ==> g[r][c] == a[r, c]
  {
    seq(Rows, r requires 0 <= r < Rows reads a =>
      seq(Cols, c requires 0 <= c < Cols reads a => a[r, c]))
  }

  /** Two well-formed grids with the same cells are equal. */
  lemma GridEq(g: Grid, h: Grid)
    requires WellFormed(g) && WellFormed(h)
    requires forall r, c :: 0 <= r < Rows && 0 <= c < Cols ==> g[r][c] == h[r][c]
    ensures g == h
  {
    forall r | 0 <= r < Rows
      ensures g[r] == h[r]
    {
      assert |g[r]| == |h[r]| == Cols;
      assert forall c :: 0 <= c < Cols ==> g[r][c] == h[r][c];
    }
  }

  // ---------------------------------------------------------------
  // Board operations
  // ---------------------------------------------------------------

  /** A new game: every cell is empty. */
  function CreateBoard(): (g: Grid)
    ensures WellFormed(g)
    ensures forall r, c :: 0 <= r < Rows && 0 <= c < Cols ==> g[r][c] == Empty
  {
    seq(Rows, _ => seq(Cols, _ => Empty))
  }

  /** A column is playable when its top cell is empty. */
  predicate IsValidLocation(g: Grid, col: int)
    requires WellFormed(g) && 0 <= col < Cols
  {
    g[Rows - 1][col] == Empty
  }

  /** The lowest empty row of column `col` at or above row `r`. */
  function OpenRowFrom(g: Grid, col: int, r: nat): (o: Option<nat>)
    requires WellFormed(g) && 0 <= col < Cols && r <= Rows
    decreases Rows - r
    ensures o.Some? ==> r <= o.value < Rows && g[o.value][col] == Empty
    ensures o.Some? ==> forall k :: r <= k < o.value ==> g[k][col] != Empty
    ensures o.None? <==> forall k :: r <= k < Rows ==> g[k][col] != Empty
  {
    if r == Rows then None
    else if g[r][col] == Empty then Some(r)
    else OpenRowFrom(g, col, r + 1)
  }

  /** The lowest empty row of a column, `None` for a full column. */
  function NextOpenRow(g: Grid, col: int): (o: Option<nat>)
    requires WellFormed(g) && 0 <= col < Cols
    ensures o.Some? ==> o.value < Rows && g[o.value][col] == Empty
    ensures o.Some? ==> forall k :: 0 <= k < o.value ==> g[k][col] != Empty
    ensures o.None? <==> forall k :: 0 <= k < Rows ==> g[k][col] != Empty
    ensures IsValidLocation(g, col) ==> o.Some?
  {
    OpenRowFrom(g, col, 0)
  }

  /** The grid with the one cell (row, col) set to `p`. */
  function SetCell(g: Grid, row: int, col: int, p: int): (h: Grid)
    requires WellFormed(g) && 0 <= row < Rows && 0 <= col < Cols
    ensures WellFormed(h)
    ensures forall r, c :: 0 <= r < Rows && 0 <= c < Cols ==>
              h[r][c] == if r == row && c == col then p else g[r][c]
  {
    g[row := g[row][col := p]]
  }

  /** Dropping `p` into a playable column: it lands on the next open row. */
  function Drop(g: Grid, col: int, p: int): (h: Grid)
    requires WellFormed(g) && 0 <= col < Cols && IsValidLocation(g, col)
    ensures WellFormed(h)
  {
    SetCell(g, NextOpenRow(g, col).value, col, p)
  }

  /** The playable columns from `col` on, in ascending order. */
  function ValidFrom(g: Grid, col: nat): (cols: seq<int>)
    requires WellFormed(g) && col <= Cols
    decreases Cols - col
    ensures forall i :: 0 <= i < |cols| ==> col <= cols[i] < Cols && IsValidLocation(g, cols[i])
  {
    if col == Cols then []
    else if IsValidLocation(g, col) then [col] + ValidFrom(g, col + 1)
    else ValidFrom(g, col + 1)
  }

  /** The playable columns from `col` on are listed in strictly ascending order. */
  lemma {:induction false} ValidFromAscending(g: Grid, col: nat)
    requires WellFormed(g) && col <= Cols
    ensures forall i, j :: 0 <= i < j < |ValidFrom(g, col)| ==> ValidFrom(g, col)[i] < ValidFrom(g, col)[j]
    decreases Cols - col
  {
    if col < Cols {
      ValidFromAscending(g, col + 1);
      var rest := ValidFrom(g, col + 1);
      var cols := ValidFrom(g, col);
      if IsValidLocation(g, col) {
        assert cols == [col] + rest;
        forall i, j | 0 <= i < j < |cols|
          ensures cols[i] < cols[j]
        {
          assert cols[j] == rest[j - 1];
          if i > 0 {
            assert cols[i] == rest[i - 1];
          }
        }
      }
    }
  }

  /** Every playable column from `col` on is listed. */
  lemma {:induction false} ValidFromComplete(g: Grid, col: nat, x: int)
    requires WellFormed(g) && col <= x < Cols && IsValidLocation(g, x)
    ensures x in ValidFrom(g, col)
    decreases Cols - col
  {
    if x > col {
      ValidFromComplete(g, col + 1, x);
    }
  }

  /** The playable columns: columns whose top cell is empty, at most one
      per column (that they ascend is `ValidLocationsAscending`, that every
      such column is listed is `ValidLocationsComplete`). */
  function ValidLocations(g: Grid): (cols: seq<int>)
    requires WellFormed(g)
    ensures forall i :: 0 <= i < |cols| ==> 0 <= cols[i] < Cols && IsValidLocation(g, cols[i])
    ensures |cols| <= Cols
  {
    var cols := ValidFrom(g, 0);
    ValidFromAscending(g, 0);
    AscendingBound(cols);
    cols
  }

  /** The playable columns are listed left to right, each once. */
  lemma ValidLocationsAscending(g: Grid)
    requires WellFormed(g)
    ensures forall i, j :: 0 <= i < j < |ValidLocations(g)| ==> ValidLocations(g)[i] < ValidLocations(g)[j]
  {
    ValidFromAscending(g, 0);
  }

  /** Every column whose top cell is empty is listed as playable. */
  lemma ValidLocationsComplete(g: Grid, x: int)
    requires WellFormed(g) && 0 <= x < Cols && IsValidLocation(g, x)
    ensures x in ValidLocations(g)
  {
    ValidFromComplete(g, 0, x);
  }

  /** No column is playable exactly when every column is full. */
  lemma NoValidLocations(g: Grid)
    requires WellFormed(g)
    ensures |ValidLocations(g)| == 0 <==> forall c :: 0 <= c < Cols ==> !IsValidLocation(g, c)
  {
    if |ValidLocations(g)| == 0 {
      forall c | 0 <= c < Cols
        ensures !IsValidLocation(g, c)
      {
        if IsValidLocation(g, c) {
          ValidLocationsComplete(g, c);
        }
      }
    } else {
      assert IsValidLocation(g, ValidLocations(g)[0]);
    }
  }

  /** A strictly ascending sequence of columns has at most `Cols` entries. */
  lemma {:induction false} AscendingBound(cols: seq<int>)
    requires forall i :: 0 <= i < |cols| ==> 0 <= cols[i] < Cols
    requires forall i, j :: 0 <= i < j < |cols| ==> cols[i] < cols[j]
    ensures |cols| <= Cols
  {
    if |cols| > 0 {
      AscendingTail(cols, |cols| - 1);
    }
  }

  lemma {:induction false} AscendingTail(cols: seq<int>, k: nat)
    requires k < |cols|
    requires forall i :: 0 <= i < |cols| ==> 0 <= cols[i] < Cols
    requires forall i, j :: 0 <= i < j < |cols| ==> cols[i] < cols[j]
    ensures cols[k] >= k
  {
    if k > 0 {
      AscendingTail(cols, k - 1);
    }
  }

  /** The position of a column in an ascending list follows its value. */
  lemma AscendingOrder(cols: seq<int>, i: int, j: int)
    requires 0 <= i < |cols| && 0 <= j < |cols|
    requires forall x, y :: 0 <= x < y < |cols| ==> cols[x] < cols[y]
    ensures cols[i] < cols[j] <==> i < j
  {
  }

  // ---------------------------------------------------------------
  // Four in a row
  // ---------------------------------------------------------------

  /** The four scan directions of the win test and of the evaluator. */
  datatype Direction = Horizontal | Vertical | UpRight | DownRight

  function RowStep(d: Direction): int {
    match d
    case Horizontal => 0
    case Vertical => 1
    case UpRight => 1
    case DownRight => -1
  }

  function ColStep(d: Direction): int {
    if d == Vertical then 0 else 1
  }

  /** The run of four starting at (r, c) in direction `d` lies on the grid.
      Down-right runs start in rows 3..5 and step down one row per column. */
  predicate InBounds(d: Direction, r: int, c: int) {
    match d
    case Horizontal => 0 <= r < Rows && 0 <= c < Cols - 3
    case Vertical => 0 <= r < Rows - 3 && 0 <= c < Cols
    case UpRight => 0 <= r < Rows - 3 && 0 <= c < Cols - 3
    case DownRight => 3 <= r < Rows && 0 <= c < Cols - 3
  }

  /** The four cells of the run starting at (r, c) in direction `d`. */
  function Window(g: Grid, d: Direction, r: int, c: int): (w: seq<int>)
    requires WellFormed(g) && InBounds(d, r, c)
    ensures |w| == 4
  {
    var dr, dc := RowStep(d), ColStep(d);
    [g[r][c], g[r + dr][c + dc], g[r + 2 * dr][c + 2 * dc], g[r + 3 * dr][c + 3 * dc]]
  }

  /** `p` fills the run of four starting at (r, c) in direction `d`. */
  ghost predicate FourAt(g: Grid, p: int, d: Direction, r: int, c: int)
    requires WellFormed(g)
  {
    InBounds(d, r, c) &&
    var dr, dc := RowStep(d), ColStep(d);
    g[r][c] == p && g[r + dr][c + dc] == p && g[r + 2 * dr][c + 2 * dc] == p && g[r + 3 * dr][c + 3 * dc] == p
  }

  /** The win test's run of four is the evaluator's window filled with `p`. */
  lemma FourAtWindow(g: Grid, p: int, d: Direction, r: int, c: int)
    requires WellFormed(g)
    ensures FourAt(g, p, d, r, c) <==> InBounds(d, r, c) && Window(g, d, r, c) == [p, p, p, p]
  {
  }

  /** `p` has four in a row: horizontally, vertically or along a diagonal. */
  ghost predicate HasFour(g: Grid, p: int)
    requires WellFormed(g)
  {
    exists d, r, c :: FourAt(g, p, d, r, c)
  }

  /** The game is over: a side has four in a row or no column is playable. */
  ghost predicate Terminal(g: Grid)
    requires WellFormed(g)
  {
    HasFour(g, PieceOne) || HasFour(g, PieceTwo) || |ValidLocations(g)| == 0
  }

  // ---------------------------------------------------------------
  // Operations on the live board, an array2<int>
  // ---------------------------------------------------------------

  /** A new board: a fresh six-by-seven array of empty cells. */
  method NewBoard() returns (a: array2<int>)
    ensures fresh(a) && a.Length0 == Rows && a.Length1 == Cols
    ensures Snapshot(a) == CreateBoard()
  {
    a := new int[Rows, Cols]((_, _) => Empty);
    GridEq(Snapshot(a), CreateBoard());
  }

  /** Writes one cell and nothing else. */
  method DropPiece(a: array2<int>, row: int, col: int, piece: int)
    requires a.Length0 == Rows && a.Length1 == Cols
    requires 0 <= row < Rows && 0 <= col < Cols
    modifies a
    ensures Snapshot(a) == SetCell(old(Snapshot(a)), row, col, piece)
  {
    ghost var g := Snapshot(a);
    a[row, col] := piece;
    GridEq(Snapshot(a), SetCell(g, row, col, piece));
  }

  /** A fresh array holding the same cells as the board. */
  method CopyBoard(a: array2<int>) returns (b: array2<int>)
    requires a.Length0 == Rows && a.Length1 == Cols
    ensures fresh(b) && b.Length0 == Rows && b.Length1 == Cols
    ensures Snapshot(b) == Snapshot(a)
  {
    b := new int[Rows, Cols];
    for r := 0 to Rows
      invariant forall i, j :: 0 <= i < r && 0 <= j < Cols ==> b[i, j] == a[i, j]
    {
      for c := 0 to Cols
        invariant forall i, j :: 0 <= i < r && 0 <= j < Cols ==> b[i, j] == a[i, j]
        invariant forall j :: 0 <= j < c ==> b[r, j] == a[r, j]
      {
        b[r, c] := a[r, c];
      }
    }
    GridEq(Snapshot(b), Snapshot(a));
  }

  /** The search's child position: the open row of the column is found on
      the parent, the parent is copied, and the piece is written into the
      copy at that row. */
  method CopyAndDrop(a: array2<int>, col: int, piece: int) returns (b: array2<int>)
    requires a.Length0 == Rows && a.Length1 == Cols
    requires 0 <= col < Cols && IsValidLocation(Snapshot(a), col)
    ensures fresh(b) && b.Length0 == Rows && b.Length1 == Cols
    ensures Snapshot(b) == Drop(Snapshot(a), col, piece)
  {
    var row := GetNextOpenRow(a, col);
    b := CopyBoard(a);
    DropPiece(b, row.value, col, piece);
  }

  /** Scans the column upwards for the first empty cell; falls off the
      end (`None`) on a full column. */
  method GetNextOpenRow(a: array2<int>, col: int) returns (row: Option<nat>)
    requires a.Length0 == Rows && a.Length1 == Cols && 0 <= col < Cols
    ensures row.Some? ==> row.value < Rows && a[row.value, col] == Empty
    ensures row.Some? ==> forall k :: 0 <= k < row.value ==> a[k, col] != Empty
    ensures row.None? <==> forall k :: 0 <= k < Rows ==> a[k, col] != Empty
    ensures row == NextOpenRow(Snapshot(a), col)
  {
    for r := 0 to Rows
      invariant forall k :: 0 <= k < r ==> a[k, col] != Empty
    {
      if a[r, col] == Empty {
        return Some(r);
      }
    }
    return None;
  }

  /** The win test: four scans, horizontal, vertical, up-right and
      down-right, each stopping at the first run of four cells equal to
      `piece`. */
  method WinningMove(a: array2<int>, piece: int) returns (won: bool)
    requires a.Length0 == Rows && a.Length1 == Cols
    ensures won == HasFour(Snapshot(a), piece)
  {
    won := Scan(a, piece, Horizontal);
    if won { return; }
    won := Scan(a, piece, Vertical);
    if won { return; }
    won := Scan(a, piece, UpRight);
    if won { return; }
    won := Scan(a, piece, DownRight);
    if !won {
      forall d, r, c
        ensures !FourAt(Snapshot(a), piece, d, r, c)
      {
        match d
        case Horizontal =>
        case Vertical =>
        case UpRight =>
        case DownRight =>
      }
    }
  }

  /** A run of four on the live board, read cell by cell. */
  lemma FourAtCells(a: array2<int>, p: int, d: Direction, r: int, c: int)
    requires a.Length0 == Rows && a.Length1 == Cols && InBounds(d, r, c)
    ensures var dr, dc := RowStep(d), ColStep(d);
      FourAt(Snapshot(a), p, d, r, c) <==>
        a[r, c] == p && a[r + dr, c + dc] == p && a[r + 2 * dr, c + 2 * dc] == p && a[r + 3 * dr, c + 3 * dc] == p
  {
  }

  /** The first row, the end of the row range and the end of the column
      range that a scan in direction `d` walks. */
  function RowFrom(d: Direction): int {
    if d == DownRight then 3 else 0
  }

  function RowTo(d: Direction): int {
    if d == Vertical || d == UpRight then Rows - 3 else Rows
  }

  function ColTo(d: Direction): int {
    if d == Vertical then Cols else Cols - 3
  }

  /** The cells a scan walks are exactly the starts of runs on the grid. */
  lemma ScanRange(d: Direction, r: int, c: int)
    ensures InBounds(d, r, c) <==> RowFrom(d) <= r < RowTo(d) && 0 <= c < ColTo(d)
  {
  }

  /** One direction of the win test: columns outer, rows inner, stopping at
      the first run of four cells equal to `piece`. */
  method Scan(a: array2<int>, piece: int, d: Direction) returns (found: bool)
    requires a.Length0 == Rows && a.Length1 == Cols
    ensures found ==> HasFour(Snapshot(a), piece)
    ensures !found ==> forall r, c :: InBounds(d, r, c) ==> !FourAt(Snapshot(a), piece, d, r, c)
  {
    for c := 0 to ColTo(d)
      invariant forall r, c' :: InBounds(d, r, c') && c' < c ==> !FourAt(Snapshot(a), piece, d, r, c')
    {
      found := ScanColumn(a, piece, d, c);
      if found {
        return;
      }
    }
    return false;
  }

  /** The inner loop of `Scan`: the runs starting in column `c`. */
  method ScanColumn(a: array2<int>, piece: int, d: Direction, c: int) returns (found: bool)
    requires a.Length0 == Rows && a.Length1 == Cols && 0 <= c < ColTo(d)
    ensures found ==> HasFour(Snapshot(a), piece)
    ensures !found ==> forall r :: InBounds(d, r, c) ==> !FourAt(Snapshot(a), piece, d, r, c)
  {
    var dr, dc := RowStep(d), ColStep(d);
    for r := RowFrom(d) to RowTo(d)
      invariant forall r' :: InBounds(d, r', c) && r' < r ==> !FourAt(Snapshot(a), piece, d, r', c)
    {
      ScanRange(d, r, c);
      FourAtCells(a, piece, d, r, c);
      if a[r, c] == piece && a[r + dr, c + dc] == piece && a[r + 2 * dr, c + 2 * dc] == piece && a[r + 3 * dr, c + 3 * dc] == piece {
        assert FourAt(Snapshot(a), piece, d, r, c);
        return true;
      }
    }
    return false;
  }

  // ---------------------------------------------------------------
  // Gravity and the effect of a drop
  // ---------------------------------------------------------------

  /** Every column is filled contiguously from row 0: no piece floats
      above an empty cell. */
  ghost predicate Gravity(g: Grid)
    requires WellFormed(g)
  {
    forall c, r1, r2 :: 0 <= c < Cols && 0 <= r1 < r2 < Rows && g[r2][c] != Empty ==> g[r1][c] != Empty
  }

  /** On a gravity-respecting board the next open row separates the full
      part of the column from the empty part. */
  lemma GravityOpenRow(g: Grid, col: int)
    requires WellFormed(g) && Gravity(g) && 0 <= col < Cols && IsValidLocation(g, col)
    ensures forall k :: 0 <= k < NextOpenRow(g, col).value ==> g[k][col] != Empty
    ensures forall k :: NextOpenRow(g, col).value <= k < Rows ==> g[k][col] == Empty
  {
    var row := NextOpenRow(g, col).value;
    forall k | row <= k < Rows
      ensures g[k][col] == Empty
    {
      if k > row {
        assert g[row][col] == Empty;
      }
    }
  }

  /** Dropping into a playable column at its next open row keeps every
      column contiguous from row 0. */
  lemma DropKeepsGravity(g: Grid, col: int, p: int)
    requires WellFormed(g) && Gravity(g) && 0 <= col < Cols && IsValidLocation(g, col)
    requires p != Empty
    ensures Gravity(Drop(g, col, p))
  {
    var h := Drop(g, col, p);
    var row := NextOpenRow(g, col).value;
    GravityOpenRow(g, col);
    forall c, r1, r2 | 0 <= c < Cols && 0 <= r1 < r2 < Rows && h[r2][c] != Empty
      ensures h[r1][c] != Empty
    {
      if c == col {
        if r2 == row {
          assert h[r1][c] == g[r1][c];
        } else {
          assert r2 < row;
        }
      }
    }
  }

  /** After a drop, the column stops being playable exactly when the piece
      landed on the top row; other columns keep their status. */
  lemma DropFillsColumn(g: Grid, col: int, p: int)
    requires WellFormed(g) && 0 <= col < Cols && IsValidLocation(g, col)
    requires p != Empty
    ensures IsValidLocation(Drop(g, col, p), col) <==> NextOpenRow(g, col).value != Rows - 1
    ensures forall c :: 0 <= c < Cols && c != col ==>
              IsValidLocation(Drop(g, col, p), c) == IsValidLocation(g, c)
  {
  }

  /** A drop of `p` never creates a four in a row for another value `q`. */
  lemma DropKeepsOtherFours(g: Grid, col: int, p: int, q: int)
    requires WellFormed(g) && 0 <= col < Cols && IsValidLocation(g, col)
    requires p != q
    ensures HasFour(Drop(g, col, p), q) ==> HasFour(g, q)
  {
    var h := Drop(g, col, p);
    if HasFour(h, q) {
      var d, r, c :| FourAt(h, q, d, r, c);
      assert FourAt(g, q, d, r, c);
    }
  }

  /** A drop never breaks a run of four of a piece: the cell it fills
      was empty. */
  lemma DropKeepsFours(g: Grid, col: int, p: int, q: int)
    requires WellFormed(g) && 0 <= col < Cols && IsValidLocation(g, col)
    requires q != Empty
    ensures HasFour(g, q) ==> HasFour(Drop(g, col, p), q)
  {
    if HasFour(g, q) {
      var d, r, c :| FourAt(g, q, d, r, c);
      assert FourAt(Drop(g, col, p), q, d, r, c);
    }
  }

  /** The empty board: no piece has four in a row, every column is
      playable and gravity holds. */
  lemma EmptyBoardOpen(p: int)
    requires p != Empty
    ensures !HasFour(CreateBoard(), p)
    ensures forall c :: 0 <= c < Cols ==> c in ValidLocations(CreateBoard())
    ensures Gravity(CreateBoard())
  {
    var g := CreateBoard();
    forall d, r, c | InBounds(d, r, c)
      ensures !FourAt(g, p, d, r, c)
    {
      assert g[r][c] == Empty;
    }
    forall c | 0 <= c < Cols
      ensures c in ValidLocations(g)
    {
      ValidLocationsComplete(g, c);
    }
  }
}
