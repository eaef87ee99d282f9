/**
 * The Othello rules as functions of a board value: which moves are legal,
 * which disks a move flips, the board after a move, whose turn it is next,
 * when the game is over, the scores and the winner.
 */
module Rules {
  import opened Board

  // ---------------------------------------------------------------------
  // Directions and rays
  // ---------------------------------------------------------------------

  /** A step to a neighbouring cell: row change dr, column change dc. */
  datatype Dir = Dir(dr: int, dc: int)

  /** The eight directions, in the order `is_valid_move` and `make_move` scan them. */
  const Directions: seq<Dir> := [Dir(-1, -1), Dir(-1, 0), Dir(-1, 1), Dir(0, -1), Dir(0, 1), Dir(1, -1), Dir(1, 0), Dir(1, 1)]

  /** One of the eight compass steps. */
  predicate IsUnit(d: Dir) {
    -1 <= d.dr <= 1 && -1 <= d.dc <= 1 && (d.dr != 0 || d.dc != 0)
  }

  /** Row of the cell k steps from `row` along d. */
  function RowAt(row: int, d: Dir, k: int): int {
    row + k * d.dr
  }

  /** Column of the cell k steps from `col` along d. */
  function ColAt(col: int, d: Dir, k: int): int {
    col + k * d.dc
  }

  /** Position of a direction in `Directions`. */
  function DirIndex(d: Dir): int {
    var raw := (d.dr + 1) * 3 + (d.dc + 1);
    if raw > 4 then raw - 1 else raw
  }

  lemma DirectionFacts(i: int)
    requires 0 <= i < 8
    ensures IsUnit(Directions[i]) && DirIndex(Directions[i]) == i
  {
  }

  lemma DirIndexFacts(d: Dir)
    requires IsUnit(d)
    ensures 0 <= DirIndex(d) < 8 && Directions[DirIndex(d)] == d
  {
  }

  /** A ray that starts on the board stays on it for at most seven steps. */
  lemma OnBoardDistance(row: int, col: int, d: Dir, k: int)
    requires InBounds(row, col) && IsUnit(d) && 0 <= k && InBounds(RowAt(row, d, k), ColAt(col, d, k))
    ensures k < 8
  {
  }

  function Abs(x: int): nat {
    if x < 0 then -x else x
  }

  function Sign(x: int): int {
    if x > 0 then 1 else if x < 0 then -1 else 0
  }

  function Max(a: int, b: int): int {
    if a < b then b else a
  }

  /** (r, c) lies on one of the eight lines through (row, col), other than (row, col) itself. */
  predicate OnLine(row: int, col: int, r: int, c: int) {
    (r != row || c != col) && (r == row || c == col || Abs(r - row) == Abs(c - col))
  }

  /** Direction from (row, col) towards (r, c). */
  function DirTo(row: int, col: int, r: int, c: int): Dir {
    Dir(Sign(r - row), Sign(c - col))
  }

  /** Number of steps from (row, col) to (r, c) along that direction. */
  function DistTo(row: int, col: int, r: int, c: int): int {
    Max(Abs(r - row), Abs(c - col))
  }

  /** The cell k >= 1 steps along d lies on a line through the origin, in direction d, at distance k. */
  lemma AtGeometry(row: int, col: int, d: Dir, k: int)
    requires IsUnit(d) && 1 <= k
    ensures OnLine(row, col, RowAt(row, d, k), ColAt(col, d, k))
    ensures DirTo(row, col, RowAt(row, d, k), ColAt(col, d, k)) == d
    ensures DistTo(row, col, RowAt(row, d, k), ColAt(col, d, k)) == k
  {
  }

  /** A cell on a line through the origin is reached by stepping DistTo times along DirTo. */
  lemma LineGeometry(row: int, col: int, r: int, c: int)
    requires OnLine(row, col, r, c)
    ensures IsUnit(DirTo(row, col, r, c)) && DistTo(row, col, r, c) >= 1
    ensures r == RowAt(row, DirTo(row, col, r, c), DistTo(row, col, r, c))
    ensures c == ColAt(col, DirTo(row, col, r, c), DistTo(row, col, r, c))
  {
  }

  // ---------------------------------------------------------------------
  // Runs, captures and legality
  // ---------------------------------------------------------------------

  /**
   * The first distance j >= k along d from (row, col) whose cell is off the
   * board or does not hold q. (A ray from a cell on the board leaves it within
   * |g| == 8 steps, so the bound k < |g| only serves termination.)
   */
  function RunEnd(g: Grid, row: int, col: int, d: Dir, q: Cell, k: nat): (j: nat)
    ensures k <= j
    decreases |g| - k
  {
    var r, c := RowAt(row, d, k), ColAt(col, d, k);
    if k < |g| && InBounds(r, c) && g[r][c] == q then RunEnd(g, row, col, d, q, k + 1) else k
  }

  /**
   * Direction d from (row, col) captures for p: at least one opponent disk
   * right next to it, and the first cell after that opponent run holds p.
   */
  predicate Captures(g: Grid, row: int, col: int, d: Dir, p: Player) {
    var e := RunEnd(g, row, col, d, Opponent(p), 1);
    var r, c := RowAt(row, d, e), ColAt(col, d, e);
    2 <= e && InBounds(r, c) && g[r][c] == p
  }

  /** `is_valid_move`: on the board, empty, and some direction captures. */
  predicate IsLegal(g: Grid, row: int, col: int, p: Player) {
    InBounds(row, col) && g[row][col] == Empty &&
      exists i :: 0 <= i < 8 && Captures(g, row, col, Directions[i], p)
  }

  /** The cells 1 .. e-1 steps along d are all on the board and hold q. */
  ghost predicate RunOf(g: Grid, row: int, col: int, d: Dir, q: Cell, e: int) {
    forall m :: 1 <= m < e ==>
      InBounds(RowAt(row, d, m), ColAt(col, d, m)) && g[RowAt(row, d, m)][ColAt(col, d, m)] == q
  }

  /**
   * The cell k steps along d belongs to a run of opponent disks that starts
   * next to (row, col) and is closed by a disk of p.
   */
  ghost predicate Bracketed(g: Grid, row: int, col: int, d: Dir, p: Player, k: int) {
    exists e :: k < e && RunOf(g, row, col, d, Opponent(p), e) &&
      InBounds(RowAt(row, d, e), ColAt(col, d, e)) && g[RowAt(row, d, e)][ColAt(col, d, e)] == p
  }

  lemma {:induction false} RunCells(g: Grid, row: int, col: int, d: Dir, q: Cell, k: nat, m: int)
    requires k <= m < RunEnd(g, row, col, d, q, k)
    ensures InBounds(RowAt(row, d, m), ColAt(col, d, m)) && g[RowAt(row, d, m)][ColAt(col, d, m)] == q
    decreases m - k
  {
    if k < m {
      RunCells(g, row, col, d, q, k + 1, m);
    }
  }

  lemma {:induction false} RunEndIs(g: Grid, row: int, col: int, d: Dir, q: Cell, k: nat, e: nat)
    requires k <= e <= 8
    requires forall m :: k <= m < e ==> InBounds(RowAt(row, d, m), ColAt(col, d, m)) && g[RowAt(row, d, m)][ColAt(col, d, m)] == q
    requires !(e < 8 && InBounds(RowAt(row, d, e), ColAt(col, d, e)) && g[RowAt(row, d, e)][ColAt(col, d, e)] == q)
    ensures RunEnd(g, row, col, d, q, k) == e
    decreases e - k
  {
    if k < e {
      RunEndIs(g, row, col, d, q, k + 1, e);
    }
  }

  /** An opponent disk k steps out extends the run: the run end seen from k and from k + 1 agree. */
  lemma RunEndStep(g: Grid, row: int, col: int, d: Dir, q: Cell, k: nat)
    requires InBounds(row, col) && IsUnit(d)
    requires InBounds(RowAt(row, d, k), ColAt(col, d, k)) && g[RowAt(row, d, k)][ColAt(col, d, k)] == q
    ensures RunEnd(g, row, col, d, q, k) == RunEnd(g, row, col, d, q, k + 1)
  {
    OnBoardDistance(row, col, d, k);
  }

  /**
   * Where the walk along d stops (k steps out, on a cell that is off the board
   * or not an opponent disk), d captures exactly when that cell holds p and at
   * least one opponent disk was passed.
   */
  lemma ScanStops(g: Grid, row: int, col: int, d: Dir, p: Player, k: nat)
    requires 1 <= k && RunEnd(g, row, col, d, Opponent(p), 1) == RunEnd(g, row, col, d, Opponent(p), k)
    requires !(InBounds(RowAt(row, d, k), ColAt(col, d, k)) && g[RowAt(row, d, k)][ColAt(col, d, k)] == Opponent(p))
    ensures RunEnd(g, row, col, d, Opponent(p), 1) == k
    ensures Captures(g, row, col, d, p) <==> 2 <= k && InBounds(RowAt(row, d, k), ColAt(col, d, k)) && g[RowAt(row, d, k)][ColAt(col, d, k)] == p
  {
  }

  /**
   * The scan a direction performs agrees with the plain reading: d captures
   * exactly when one or more opponent disks next to (row, col) are followed,
   * before any empty cell or the edge, by a disk of p.
   */
  lemma CapturesIff(g: Grid, row: int, col: int, d: Dir, p: Player)
    requires InBounds(row, col) && IsUnit(d)
    ensures Captures(g, row, col, d, p) <==> Bracketed(g, row, col, d, p, 1)
  {
    var q := Opponent(p);
    var e := RunEnd(g, row, col, d, q, 1);
    if Captures(g, row, col, d, p) {
      forall m | 1 <= m < e
        ensures InBounds(RowAt(row, d, m), ColAt(col, d, m)) && g[RowAt(row, d, m)][ColAt(col, d, m)] == q
      {
        RunCells(g, row, col, d, q, 1, m);
      }
      assert RunOf(g, row, col, d, q, e);
    }
    if Bracketed(g, row, col, d, p, 1) {
      var e' :| 1 < e' && RunOf(g, row, col, d, q, e') &&
        InBounds(RowAt(row, d, e'), ColAt(col, d, e')) && g[RowAt(row, d, e')][ColAt(col, d, e')] == p;
      OnBoardDistance(row, col, d, e');
      RunEndIs(g, row, col, d, q, 1, e');
    }
  }

  /**
   * `is_valid_move(row, col, p)` holds iff the cell is on the board and empty
   * and in some direction an adjacent run of one or more opponent disks is
   * closed by a disk of p.
   */
  lemma LegalIff(g: Grid, row: int, col: int, p: Player)
    ensures IsLegal(g, row, col, p) <==>
      InBounds(row, col) && g[row][col] == Empty &&
      exists i :: 0 <= i < 8 && Bracketed(g, row, col, Directions[i], p, 1)
  {
    if InBounds(row, col) {
      forall i | 0 <= i < 8
        ensures Captures(g, row, col, Directions[i], p) <==> Bracketed(g, row, col, Directions[i], p, 1)
      {
        DirectionFacts(i);
        CapturesIff(g, row, col, Directions[i], p);
      }
    }
  }

  /** Off-board and occupied cells are never legal. */
  lemma IllegalCells(g: Grid, row: int, col: int, p: Player)
    requires !InBounds(row, col) || g[row][col] != Empty
    ensures !IsLegal(g, row, col, p)
  {
  }

  // ---------------------------------------------------------------------
  // Applying a move
  // ---------------------------------------------------------------------

  /**
   * The move at (row, col) by p turns (r, c) over: (r, c) lies in a capturing
   * direction, inside the opponent run that direction brackets.
   */
  predicate Flips(g: Grid, row: int, col: int, p: Player, r: int, c: int) {
    OnLine(row, col, r, c) &&
    Captures(g, row, col, DirTo(row, col, r, c), p) &&
    DistTo(row, col, r, c) < RunEnd(g, row, col, DirTo(row, col, r, c), Opponent(p), 1)
  }

  /** `make_move` on a legal move: the target and every flipped disk become p; nothing else changes. */
  function AfterMove(g: Grid, row: int, col: int, p: Player): Grid
    requires InBounds(row, col)
  {
    seq(8, r requires 0 <= r < 8 =>
      Row(g, row, col, p, r))
  }

  function Row(g: Grid, row: int, col: int, p: Player, r: int): (s: seq<Cell>)
    requires InBounds(row, col) && 0 <= r < 8
    ensures |s| == 8
  {
    seq(8, c requires 0 <= c < 8 =>
      if (r == row && c == col) || Flips(g, row, col, p, r, c) then p else g[r][c])
  }

  /** A disk k steps along d flips exactly when the opponent run it sits in is bracketed by p. */
  lemma FlipsIff(g: Grid, row: int, col: int, p: Player, d: Dir, k: int)
    requires InBounds(row, col) && IsUnit(d) && 1 <= k
    ensures Flips(g, row, col, p, RowAt(row, d, k), ColAt(col, d, k)) <==> Bracketed(g, row, col, d, p, k)
  {
    AtGeometry(row, col, d, k);
    var q := Opponent(p);
    var e := RunEnd(g, row, col, d, q, 1);
    if Flips(g, row, col, p, RowAt(row, d, k), ColAt(col, d, k)) {
      forall m | 1 <= m < e
        ensures InBounds(RowAt(row, d, m), ColAt(col, d, m)) && g[RowAt(row, d, m)][ColAt(col, d, m)] == q
      {
        RunCells(g, row, col, d, q, 1, m);
      }
      assert RunOf(g, row, col, d, q, e);
    }
    if Bracketed(g, row, col, d, p, k) {
      var e' :| k < e' && RunOf(g, row, col, d, q, e') &&
        InBounds(RowAt(row, d, e'), ColAt(col, d, e')) && g[RowAt(row, d, e')][ColAt(col, d, e')] == p;
      OnBoardDistance(row, col, d, e');
      RunEndIs(g, row, col, d, q, 1, e');
    }
  }

  /** Every disk a move flips was the opponent's. */
  lemma FlippedWasOpponent(g: Grid, row: int, col: int, p: Player, r: int, c: int)
    requires InBounds(row, col) && Flips(g, row, col, p, r, c)
    ensures InBounds(r, c) && g[r][c] == Opponent(p)
  {
    LineGeometry(row, col, r, c);
    RunCells(g, row, col, DirTo(row, col, r, c), Opponent(p), 1, DistTo(row, col, r, c));
  }

  /**
   * What a legal move does to the board: the target becomes p, every flipped
   * disk was the opponent's and becomes p, every other cell keeps its value,
   * and the disk next to the target in each capturing direction flips.
   */
  lemma MoveEffects(g: Grid, row: int, col: int, p: Player)
    requires IsLegal(g, row, col, p)
    ensures var h := AfterMove(g, row, col, p);
      h[row][col] == p &&
      (forall r, c :: InBounds(r, c) && Flips(g, row, col, p, r, c) ==> g[r][c] == Opponent(p) && h[r][c] == p) &&
      (forall r, c :: InBounds(r, c) && (r, c) != (row, col) && !Flips(g, row, col, p, r, c) ==> h[r][c] == g[r][c]) &&
      (forall i :: 0 <= i < 8 && Captures(g, row, col, Directions[i], p) ==>
        Flips(g, row, col, p, RowAt(row, Directions[i], 1), ColAt(col, Directions[i], 1)))
  {
    var h := AfterMove(g, row, col, p);
    forall r, c | InBounds(r, c) && Flips(g, row, col, p, r, c)
      ensures g[r][c] == Opponent(p) && h[r][c] == p
    {
      FlippedWasOpponent(g, row, col, p, r, c);
    }
    forall i | 0 <= i < 8 && Captures(g, row, col, Directions[i], p)
      ensures Flips(g, row, col, p, RowAt(row, Directions[i], 1), ColAt(col, Directions[i], 1))
    {
      DirectionFacts(i);
      AtGeometry(row, col, Directions[i], 1);
    }
  }

  /** Along a direction that does not capture, a move changes nothing. */
  lemma NoCaptureNoChange(g: Grid, row: int, col: int, p: Player, d: Dir, k: int)
    requires InBounds(row, col) && IsUnit(d) && 1 <= k && !Captures(g, row, col, d, p)
    requires InBounds(RowAt(row, d, k), ColAt(col, d, k))
    ensures AfterMove(g, row, col, p)[RowAt(row, d, k)][ColAt(col, d, k)] == g[RowAt(row, d, k)][ColAt(col, d, k)]
  {
    AtGeometry(row, col, d, k);
  }

  /**
   * The disk counts after a legal move, with f the number of flipped disks:
   * the mover gains 1 + f disks, the opponent loses f, one empty cell is
   * filled, and at least one disk flips.
   */
  lemma MoveCounts(g: Grid, row: int, col: int, p: Player)
    requires IsLegal(g, row, col, p)
    ensures var h := AfterMove(g, row, col, p);
      var f := Diff(g, h) - 1;
      f >= 1 &&
      Count(h, p) == Count(g, p) + 1 + f &&
      Count(h, Opponent(p)) == Count(g, Opponent(p)) - f &&
      Count(h, Empty) == Count(g, Empty) - 1
  {
    var h := AfterMove(g, row, col, p);
    var placed := SetCell(g, row, col, p);
    var q := Opponent(p);
    MoveEffects(g, row, col, p);
    forall r, c | InBounds(r, c)
      ensures placed[r][c] == h[r][c] || (placed[r][c] == q && h[r][c] == p)
    {
    }
    PlaceAndTurnCounts(g, placed, h, row, col, p);
    var i :| 0 <= i < 8 && Captures(g, row, col, Directions[i], p);
    var r1, c1 := RowAt(row, Directions[i], 1), ColAt(col, Directions[i], 1);
    FlippedWasOpponent(g, row, col, p, r1, c1);
    DiffPositive(placed, h, r1, c1);
  }

  /**
   * Counting for a move in general: p fills the empty cell (row, col), then
   * some opponent disks turn to p. With f the number of turned disks, p
   * gains 1 + f, the opponent loses f, and one empty cell is gone.
   */
  lemma PlaceAndTurnCounts(g: Grid, placed: Grid, h: Grid, row: int, col: int, p: Player)
    requires InBounds(row, col) && g[row][col] == Empty && placed == SetCell(g, row, col, p) && h[row][col] == p
    requires forall r, c :: InBounds(r, c) ==> placed[r][c] == h[r][c] || (placed[r][c] == Opponent(p) && h[r][c] == p)
    ensures Diff(placed, h) == Diff(g, h) - 1
    ensures Count(h, p) == Count(g, p) + 1 + Diff(placed, h)
    ensures Count(h, Opponent(p)) == Count(g, Opponent(p)) - Diff(placed, h)
    ensures Count(h, Empty) == Count(g, Empty) - 1
  {
    var q := Opponent(p);
    DiffSetCell(g, h, row, col, p);
    Shift(placed, h, q, p, p);
    Shift(placed, h, q, p, q);
    Shift(placed, h, q, p, Empty);
    CountSetCell(g, row, col, p, p);
    CountSetCell(g, row, col, p, q);
    CountSetCell(g, row, col, p, Empty);
  }

  // ---------------------------------------------------------------------
  // Listing moves, turns and the end of the game
  // ---------------------------------------------------------------------

  /** Row-major order on (row, col) pairs. */
  predicate Before(a: (int, int), b: (int, int)) {
    a.0 < b.0 || (a.0 == b.0 && a.1 < b.1)
  }

  /** Each entry comes strictly before the next, so no entry appears twice. */
  predicate Ascending(ms: seq<(int, int)>) {
    forall a, b :: 0 <= a < b < |ms| ==> Before(ms[a], ms[b])
  }

  /** The cells (r, c) with c < n that are legal for p, left to right. */
  function RowMoves(g: Grid, p: Player, r: int, n: nat): seq<(int, int)>
    decreases n
  {
    if n == 0 then []
    else RowMoves(g, p, r, n - 1) + (if IsLegal(g, r, n - 1, p) then [(r, n - 1)] else [])
  }

  /**
   * The legal cells for p in the rows before n, row by row. (Rows are
   * |g| == 8 cells long; the bound is written |g| rather than 8 so that the
   * verifier does not unroll the listing of a whole row on its own.)
   */
  function MovesBefore(g: Grid, p: Player, n: nat): seq<(int, int)>
    decreases n
  {
    if n == 0 then [] else MovesBefore(g, p, n - 1) + RowMoves(g, p, n - 1, |g|)
  }

  /** `get_valid_moves(p)`: every legal cell, row by row and column by column. */
  function ValidMoves(g: Grid, p: Player): seq<(int, int)> {
    MovesBefore(g, p, |g|)
  }

  lemma {:induction false} RowMovesIff(g: Grid, p: Player, r: int, n: nat, m: (int, int))
    ensures m in RowMoves(g, p, r, n) <==> m.0 == r && 0 <= m.1 < n && IsLegal(g, r, m.1, p)
  {
    if n > 0 {
      RowMovesIff(g, p, r, n - 1, m);
    }
  }

  /** Every cell listed before row n is legal. */
  lemma {:induction false} MovesBeforeSound(g: Grid, p: Player, n: nat, m: (int, int))
    requires m in MovesBefore(g, p, n)
    ensures 0 <= m.0 < n && 0 <= m.1 < 8 && IsLegal(g, m.0, m.1, p)
  {
    var xs, ys := MovesBefore(g, p, n - 1), RowMoves(g, p, n - 1, |g|);
    if m in xs {
      MovesBeforeSound(g, p, n - 1, m);
    } else {
      RowMovesIff(g, p, n - 1, |g|, m);
    }
  }

  /** Every legal cell before row n is listed. */
  lemma {:induction false} MovesBeforeComplete(g: Grid, p: Player, n: nat, m: (int, int))
    requires 0 <= m.0 < n && 0 <= m.1 < 8 && IsLegal(g, m.0, m.1, p)
    ensures m in MovesBefore(g, p, n)
  {
    var xs, ys := MovesBefore(g, p, n - 1), RowMoves(g, p, n - 1, |g|);
    if m.0 < n - 1 {
      MovesBeforeComplete(g, p, n - 1, m);
      assert m in xs;
    } else {
      RowMovesIff(g, p, n - 1, |g|, m);
      assert m in ys;
    }
  }

  /** A cell is listed by `get_valid_moves` exactly when it is a legal move. */
  lemma ValidMovesIff(g: Grid, p: Player, m: (int, int))
    ensures m in ValidMoves(g, p) <==> InBounds(m.0, m.1) && IsLegal(g, m.0, m.1, p)
  {
    if m in ValidMoves(g, p) {
      MovesBeforeSound(g, p, |g|, m);
    }
    if InBounds(m.0, m.1) && IsLegal(g, m.0, m.1, p) {
      MovesBeforeComplete(g, p, |g|, m);
    }
  }

  lemma AscendingAppend(xs: seq<(int, int)>, ys: seq<(int, int)>)
    requires Ascending(xs) && Ascending(ys)
    requires forall a, b :: 0 <= a < |xs| && 0 <= b < |ys| ==> Before(xs[a], ys[b])
    ensures Ascending(xs + ys)
  {
    forall a, b | 0 <= a < b < |xs + ys|
      ensures Before((xs + ys)[a], (xs + ys)[b])
    {
      if b < |xs| {
      } else if a >= |xs| {
        assert (xs + ys)[a] == ys[a - |xs|];
      } else {
        assert (xs + ys)[b] == ys[b - |xs|];
      }
    }
  }

  lemma {:induction false} RowMovesSorted(g: Grid, p: Player, r: int, n: nat)
    ensures Ascending(RowMoves(g, p, r, n))
    ensures forall a :: 0 <= a < |RowMoves(g, p, r, n)| ==> RowMoves(g, p, r, n)[a].0 == r && RowMoves(g, p, r, n)[a].1 < n
  {
    if n > 0 {
      var xs := RowMoves(g, p, r, n - 1);
      var ys: seq<(int, int)> := if IsLegal(g, r, n - 1, p) then [(r, n - 1)] else [];
      RowMovesSorted(g, p, r, n - 1);
      AscendingAppend(xs, ys);
      forall a | 0 <= a < |xs + ys|
        ensures (xs + ys)[a].0 == r && (xs + ys)[a].1 < n
      {
        if a >= |xs| {
          assert (xs + ys)[a] == ys[a - |xs|];
        }
      }
    }
  }

  lemma {:induction false} MovesBeforeSorted(g: Grid, p: Player, n: nat)
    ensures Ascending(MovesBefore(g, p, n))
    ensures forall a :: 0 <= a < |MovesBefore(g, p, n)| ==> MovesBefore(g, p, n)[a].0 < n
  {
    if n > 0 {
      var xs := MovesBefore(g, p, n - 1);
      var ys := RowMoves(g, p, n - 1, |g|);
      MovesBeforeSorted(g, p, n - 1);
      RowMovesSorted(g, p, n - 1, |g|);
      AscendingAppend(xs, ys);
      forall a | 0 <= a < |xs + ys|
        ensures (xs + ys)[a].0 < n
      {
        if a >= |xs| {
          assert (xs + ys)[a] == ys[a - |xs|];
        }
      }
    }
  }

  /** `get_valid_moves` lists its cells in row-major order, each exactly once. */
  lemma ValidMovesSorted(g: Grid, p: Player)
    ensures Ascending(ValidMoves(g, p))
    ensures forall a, b :: 0 <= a < b < |ValidMoves(g, p)| ==> ValidMoves(g, p)[a] != ValidMoves(g, p)[b]
  {
    MovesBeforeSorted(g, p, |g|);
  }

  /** p has at least one legal move. */
  predicate HasMove(g: Grid, p: Player) {
    exists r, c :: 0 <= r < 8 && 0 <= c < 8 && IsLegal(g, r, c, p)
  }

  /** `get_valid_moves(p)` comes back empty exactly when p has no legal move. */
  lemma NoValidMoves(g: Grid, p: Player)
    ensures |ValidMoves(g, p)| == 0 <==> !HasMove(g, p)
  {
    var ms := ValidMoves(g, p);
    if |ms| > 0 {
      ValidMovesIff(g, p, ms[0]);
    } else {
      forall r, c | 0 <= r < 8 && 0 <= c < 8
        ensures !IsLegal(g, r, c, p)
      {
        ValidMovesIff(g, p, (r, c));
      }
    }
  }

  /**
   * The player to move after p moved: the opponent if it has a legal move,
   * otherwise p again, whether or not p has a move itself.
   */
  function NextPlayer(g: Grid, p: Player): Player {
    if |ValidMoves(g, Opponent(p))| > 0 then Opponent(p) else p
  }

  /** `is_game_over`: neither player has a legal move. */
  predicate GameOver(g: Grid) {
    |ValidMoves(g, Black)| == 0 && |ValidMoves(g, White)| == 0
  }

  /** The game is over exactly when no player has a legal move anywhere. */
  lemma GameOverIff(g: Grid)
    ensures GameOver(g) <==> !HasMove(g, Black) && !HasMove(g, White)
  {
    NoValidMoves(g, Black);
    NoValidMoves(g, White);
  }

  /**
   * The turn rule keeps the game moving: the opponent moves next exactly when
   * it has a legal move; unless the game is over, the player given the turn
   * has a legal move; once it is over, the turn stays with p.
   */
  lemma NextPlayerCanMove(g: Grid, p: Player)
    ensures NextPlayer(g, p) == Opponent(p) <==> HasMove(g, Opponent(p))
    ensures !GameOver(g) ==> HasMove(g, NextPlayer(g, p))
    ensures GameOver(g) ==> NextPlayer(g, p) == p
  {
    NoValidMoves(g, p);
    NoValidMoves(g, Opponent(p));
    GameOverIff(g);
  }

  /** `get_scores`: the numbers of Black and of White disks. */
  function Scores(g: Grid): (s: (nat, nat))
    ensures s.0 + s.1 + Count(g, Empty) == 64
  {
    Conservation(g);
    (Count(g, Black), Count(g, White))
  }

  /** `get_winner`: 1 if Black has more disks, 2 if White has more, 0 on a tie. */
  function Winner(g: Grid): (w: int)
    ensures w == 1 <==> Count(g, Black) > Count(g, White)
    ensures w == 2 <==> Count(g, White) > Count(g, Black)
    ensures w == 0 <==> Count(g, Black) == Count(g, White)
  {
    var (black, white) := Scores(g);
    if black > white then 1 else if white > black then 2 else 0
  }
}
