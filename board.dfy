/**
 * The Othello board as a value: an 8x8 grid of cells holding 0 (empty),
 * 1 (Black) or 2 (White), the players, the start position and disk counts.
 */
module Board {

  /** A cell: 0 is empty, 1 a Black disk, 2 a White disk. */
  type Cell = c: int | 0 <= c <= 2

  /** A player: 1 is Black, 2 is White. */
  type Player = p: int | p == 1 || p == 2 witness 1

  const Empty: Cell := 0
  const Black: Player := 1
  const White: Player := 2

  /** The other player, `3 - player`. */
  function Opponent(p: Player): (q: Player)
    ensures q != p
  {
    3 - p
  }

  /** Eight rows of eight cells. */
  predicate IsGrid(g: seq<seq<Cell>>) {
    |g| == 8 && forall r :: 0 <= r < 8 ==> |g[r]| == 8
  }

  type Grid = g: seq<seq<Cell>> | IsGrid(g) witness seq(8, _ => seq(8, _ => 0))

  predicate InBounds(r: int, c: int) {
    0 <= r < 8 && 0 <= c < 8
  }

  /** Grids are equal when they agree on every cell. */
  lemma GridExt(a: Grid, b: Grid)
    requires forall r, c :: 0 <= r < 8 && 0 <= c < 8 ==> a[r][c] == b[r][c]
    ensures a == b
  {
    forall r | 0 <= r < 8
      ensures a[r] == b[r]
    {
      assert |a[r]| == |b[r]| == 8;
      assert forall c :: 0 <= c < 8 ==> a[r][c] == b[r][c];
    }
  }

  /** A row of n empty cells. */
  function EmptyRow(n: nat): (s: seq<Cell>)
    ensures |s| == n
  {
    if n == 0 then [] else [Empty] + EmptyRow(n - 1)
  }

  /** n rows of eight empty cells. */
  function EmptyRows(n: nat): (g: seq<seq<Cell>>)
    ensures |g| == n && forall r :: 0 <= r < n ==> g[r] == EmptyRow(8)
  {
    if n == 0 then [] else [EmptyRow(8)] + EmptyRows(n - 1)
  }

  /** All cells empty. */
  function EmptyGrid(): Grid {
    EmptyRows(8)
  }

  /** The row s with x at position i. */
  function Put(s: seq<Cell>, i: int, x: Cell): seq<Cell>
    requires 0 <= i < |s|
  {
    s[i := x]
  }

  /** Puts value x at (r, c), as `board[r][c] = x` does in place. */
  function SetCell(g: Grid, r: int, c: int, x: Cell): (h: Grid)
    requires InBounds(r, c)
    ensures h[r][c] == x
    ensures forall r', c' :: InBounds(r', c') && (r', c') != (r, c) ==> h[r'][c'] == g[r'][c']
  {
    g[r := Put(g[r], c, x)]
  }

  /** `get_initial_board`: an empty board, then the four centre disks. */
  function InitialGrid(): Grid {
    var e := EmptyGrid();
    SetCell(SetCell(SetCell(SetCell(e, 3, 3, Black), 3, 4, White), 4, 3, White), 4, 4, Black)
  }

  /** The `board_state` column default of the games table. */
  const DefaultBoardState: seq<seq<int>> := [
    [0, 0, 0, 0, 0, 0, 0, 0],
    [0, 0, 0, 0, 0, 0, 0, 0],
    [0, 0, 0, 0, 0, 0, 0, 0],
    [0, 0, 0, 1, 2, 0, 0, 0],
    [0, 0, 0, 2, 1, 0, 0, 0],
    [0, 0, 0, 0, 0, 0, 0, 0],
    [0, 0, 0, 0, 0, 0, 0, 0],
    [0, 0, 0, 0, 0, 0, 0, 0]
  ]

  // ---------------------------------------------------------------------
  // Counting disks
  // ---------------------------------------------------------------------

  /** Number of cells of a row equal to v (Python's `row.count(v)`). */
  function CountRow(s: seq<Cell>, v: Cell): (n: nat)
    ensures n <= |s|
  {
    if s == [] then 0 else (if s[0] == v then 1 else 0) + CountRow(s[1..], v)
  }

  /** Number of cells equal to v, summed over the rows. */
  function Count(g: seq<seq<Cell>>, v: Cell): nat {
    if g == [] then 0 else CountRow(g[0], v) + Count(g[1..], v)
  }

  predicate SameShape(a: seq<seq<Cell>>, b: seq<seq<Cell>>) {
    |a| == |b| && forall r :: 0 <= r < |a| ==> |a[r]| == |b[r]|
  }

  /** Number of positions where two rows of equal length differ. */
  function DiffRow(a: seq<Cell>, b: seq<Cell>): nat
    requires |a| == |b|
  {
    if a == [] then 0 else (if a[0] != b[0] then 1 else 0) + DiffRow(a[1..], b[1..])
  }

  /** Number of cells where two grids of the same shape differ. */
  function Diff(a: seq<seq<Cell>>, b: seq<seq<Cell>>): nat
    requires SameShape(a, b)
  {
    if a == [] then 0 else DiffRow(a[0], b[0]) + Diff(a[1..], b[1..])
  }

  lemma {:induction false} RowConservation(s: seq<Cell>)
    ensures CountRow(s, 0) + CountRow(s, 1) + CountRow(s, 2) == |s|
  {
    if s != [] {
      RowConservation(s[1..]);
    }
  }

  lemma {:induction false} RowsConservation(g: seq<seq<Cell>>)
    requires forall r :: 0 <= r < |g| ==> |g[r]| == 8
    ensures Count(g, 0) + Count(g, 1) + Count(g, 2) == 8 * |g|
  {
    if g != [] {
      RowConservation(g[0]);
      RowsConservation(g[1..]);
    }
  }

  /** Every board has 64 cells: count(0) + count(1) + count(2) == 64. */
  lemma Conservation(g: Grid)
    ensures Count(g, Empty) + Count(g, Black) + Count(g, White) == 64
  {
    RowsConservation(g);
  }

  lemma {:induction false} CountRowUpdate(s: seq<Cell>, i: int, x: Cell, v: Cell)
    requires 0 <= i < |s|
    ensures CountRow(s[i := x], v) == CountRow(s, v) - (if s[i] == v then 1 else 0) + (if x == v then 1 else 0)
  {
    if i == 0 {
      assert s[i := x][1..] == s[1..];
    } else {
      assert s[i := x][1..] == s[1..][i - 1 := x];
      CountRowUpdate(s[1..], i - 1, x, v);
    }
  }

  lemma {:induction false} CountUpdateRows(g: seq<seq<Cell>>, r: int, c: int, x: Cell, v: Cell)
    requires 0 <= r < |g| && 0 <= c < |g[r]|
    ensures Count(g[r := Put(g[r], c, x)], v) == Count(g, v) - (if g[r][c] == v then 1 else 0) + (if x == v then 1 else 0)
  {
    if r == 0 {
      assert g[r := Put(g[r], c, x)][1..] == g[1..];
      CountRowUpdate(g[0], c, x, v);
    } else {
      assert g[r := Put(g[r], c, x)][1..] == g[1..][r - 1 := Put(g[r], c, x)];
      CountUpdateRows(g[1..], r - 1, c, x, v);
    }
  }

  /** Writing x into one cell moves that cell from its old value's count to x's count. */
  lemma CountSetCell(g: Grid, r: int, c: int, x: Cell, v: Cell)
    requires InBounds(r, c)
    ensures Count(SetCell(g, r, c, x), v) == Count(g, v) - (if g[r][c] == v then 1 else 0) + (if x == v then 1 else 0)
  {
    CountUpdateRows(g, r, c, x, v);
  }

  lemma {:induction false} DiffRowUpdate(a: seq<Cell>, b: seq<Cell>, i: int, x: Cell)
    requires |a| == |b| && 0 <= i < |a|
    ensures DiffRow(a[i := x], b) == DiffRow(a, b) - (if a[i] != b[i] then 1 else 0) + (if x != b[i] then 1 else 0)
  {
    if i == 0 {
      assert a[i := x][1..] == a[1..];
    } else {
      assert a[i := x][1..] == a[1..][i - 1 := x];
      DiffRowUpdate(a[1..], b[1..], i - 1, x);
    }
  }

  lemma {:induction false} DiffUpdateRows(a: seq<seq<Cell>>, b: seq<seq<Cell>>, r: int, c: int, x: Cell)
    requires SameShape(a, b) && 0 <= r < |a| && 0 <= c < |a[r]|
    ensures SameShape(a[r := Put(a[r], c, x)], b)
    ensures Diff(a[r := Put(a[r], c, x)], b) == Diff(a, b) - (if a[r][c] != b[r][c] then 1 else 0) + (if x != b[r][c] then 1 else 0)
  {
    var a' := a[r := Put(a[r], c, x)];
    if r == 0 {
      assert a'[1..] == a[1..];
      DiffRowUpdate(a[0], b[0], c, x);
    } else {
      assert a'[1..] == a[1..][r - 1 := Put(a[r], c, x)];
      DiffUpdateRows(a[1..], b[1..], r - 1, c, x);
    }
  }

  /** Changing one cell changes the difference count with any other grid by at most that cell. */
  lemma DiffSetCell(a: Grid, b: Grid, r: int, c: int, x: Cell)
    requires InBounds(r, c)
    ensures Diff(SetCell(a, r, c, x), b) == Diff(a, b) - (if a[r][c] != b[r][c] then 1 else 0) + (if x != b[r][c] then 1 else 0)
  {
    DiffUpdateRows(a, b, r, c, x);
  }

  lemma {:induction false} DiffRowPositive(a: seq<Cell>, b: seq<Cell>, i: int)
    requires |a| == |b| && 0 <= i < |a| && a[i] != b[i]
    ensures DiffRow(a, b) >= 1
  {
    if i > 0 {
      DiffRowPositive(a[1..], b[1..], i - 1);
    }
  }

  lemma {:induction false} DiffRowsPositive(a: seq<seq<Cell>>, b: seq<seq<Cell>>, r: int, c: int)
    requires SameShape(a, b) && 0 <= r < |a| && 0 <= c < |a[r]| && a[r][c] != b[r][c]
    ensures Diff(a, b) >= 1
  {
    if r == 0 {
      DiffRowPositive(a[0], b[0], c);
    } else {
      DiffRowsPositive(a[1..], b[1..], r - 1, c);
    }
  }

  /**
   * When every cell that changes goes from x to y, the count of y grows by the
   * number of changed cells, the count of x shrinks by it, and other counts stay.
   */
  lemma {:induction false} RowShift(a: seq<Cell>, b: seq<Cell>, x: Cell, y: Cell, v: Cell)
    requires |a| == |b| && x != y
    requires forall i :: 0 <= i < |a| ==> a[i] == b[i] || (a[i] == x && b[i] == y)
    ensures CountRow(b, v) + (if v == x then DiffRow(a, b) else 0) == CountRow(a, v) + (if v == y then DiffRow(a, b) else 0)
  {
    if a != [] {
      RowShift(a[1..], b[1..], x, y, v);
    }
  }

  lemma {:induction false} RowsShift(a: seq<seq<Cell>>, b: seq<seq<Cell>>, x: Cell, y: Cell, v: Cell)
    requires SameShape(a, b) && x != y
    requires forall r, c :: 0 <= r < |a| && 0 <= c < |a[r]| ==> a[r][c] == b[r][c] || (a[r][c] == x && b[r][c] == y)
    ensures Count(b, v) + (if v == x then Diff(a, b) else 0) == Count(a, v) + (if v == y then Diff(a, b) else 0)
  {
    if a != [] {
      assert forall i :: 0 <= i < |a[0]| ==> a[0][i] == b[0][i] || (a[0][i] == x && b[0][i] == y);
      RowShift(a[0], b[0], x, y, v);
      RowsShift(a[1..], b[1..], x, y, v);
    }
  }

  /** The grid counts of a change where every changed cell goes from x to y. */
  lemma Shift(a: Grid, b: Grid, x: Cell, y: Cell, v: Cell)
    requires x != y
    requires forall r, c :: InBounds(r, c) ==> a[r][c] == b[r][c] || (a[r][c] == x && b[r][c] == y)
    ensures Count(b, v) + (if v == x then Diff(a, b) else 0) == Count(a, v) + (if v == y then Diff(a, b) else 0)
  {
    RowsShift(a, b, x, y, v);
  }

  /** A grid with one differing cell has a positive difference count. */
  lemma DiffPositive(a: Grid, b: Grid, r: int, c: int)
    requires InBounds(r, c) && a[r][c] != b[r][c]
    ensures Diff(a, b) >= 1
  {
    DiffRowsPositive(a, b, r, c);
  }

  lemma {:induction false} EmptyRowCounts(n: nat, v: Cell)
    ensures CountRow(EmptyRow(n), v) == if v == Empty then n else 0
  {
    if n > 0 {
      EmptyRowCounts(n - 1, v);
    }
  }

  lemma {:induction false} EmptyRowsCounts(n: nat, v: Cell)
    ensures Count(EmptyRows(n), v) == if v == Empty then 8 * n else 0
  {
    if n > 0 {
      EmptyRowCounts(8, v);
      EmptyRowsCounts(n - 1, v);
    }
  }

  /** The start position: Black on (3,3) and (4,4), White on (3,4) and (4,3), every other cell empty. */
  lemma InitialCells()
    ensures var g := InitialGrid();
      g[3][3] == Black && g[4][4] == Black && g[3][4] == White && g[4][3] == White &&
      forall r, c :: InBounds(r, c) && !(3 <= r <= 4 && 3 <= c <= 4) ==> g[r][c] == Empty
  {
  }

  lemma InitialCount(v: Cell)
    ensures Count(InitialGrid(), v) == if v == Empty then 60 else 2
  {
    var e := EmptyGrid();
    var g1 := SetCell(e, 3, 3, Black);
    var g2 := SetCell(g1, 3, 4, White);
    var g3 := SetCell(g2, 4, 3, White);
    assert e[3][3] == Empty && g1[3][4] == Empty && g2[4][3] == Empty && g3[4][4] == Empty;
    EmptyRowsCounts(8, v);
    CountSetCell(e, 3, 3, Black, v);
    CountSetCell(g1, 3, 4, White, v);
    CountSetCell(g2, 4, 3, White, v);
    CountSetCell(g3, 4, 4, Black, v);
  }

  /** The start position has two disks of each colour and 60 empty cells. */
  lemma InitialCounts()
    ensures Count(InitialGrid(), Black) == 2 && Count(InitialGrid(), White) == 2 && Count(InitialGrid(), Empty) == 60
  {
    InitialCount(Black);
    InitialCount(White);
    InitialCount(Empty);
  }

  lemma InitialRow(r: int)
    requires 0 <= r < 8
    ensures InitialGrid()[r] == DefaultBoardState[r]
  {
    var g := InitialGrid();
    InitialCells();
    assert forall c | 0 <= c < 8 :: g[r][c] == DefaultBoardState[r][c];
  }

  /** `get_initial_board` builds the same board as the games table's default `board_state`. */
  lemma InitialIsDefault()
    ensures InitialGrid() == DefaultBoardState
  {
    forall r | 0 <= r < 8
      ensures InitialGrid()[r] == DefaultBoardState[r]
    {
      InitialRow(r);
    }
  }
}
