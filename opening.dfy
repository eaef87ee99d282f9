/**
 * The start position from Black's side: exactly four legal moves, and the
 * first of them flips one White disk and hands the turn to White.
 */
module Opening {
  import opened Board
  import opened Rules

  /** The cells Black may play in the start position, in row-major order. */
  const OpeningCells: seq<(int, int)> := [(2, 4), (3, 5), (4, 2), (5, 3)]

  /** Where the start position's disks are, and nowhere else. */
  ghost predicate StartDisks(g: Grid) {
    forall r, c :: InBounds(r, c) ==>
      (g[r][c] == White <==> (r == 3 && c == 4) || (r == 4 && c == 3)) &&
      (g[r][c] == Black <==> (r == 3 && c == 3) || (r == 4 && c == 4))
  }

  lemma InitialStartDisks()
    ensures StartDisks(InitialGrid())
  {
    InitialCells();
  }

  /**
   * An empty cell whose neighbour in direction i holds an opponent disk,
   * with p's disk right behind it, is a legal move for p.
   */
  lemma CaptureNext(g: Grid, row: int, col: int, i: int, p: Player)
    requires InBounds(row, col) && g[row][col] == Empty && 0 <= i < 8
    requires InBounds(RowAt(row, Directions[i], 1), ColAt(col, Directions[i], 1))
    requires g[RowAt(row, Directions[i], 1)][ColAt(col, Directions[i], 1)] == Opponent(p)
    requires InBounds(RowAt(row, Directions[i], 2), ColAt(col, Directions[i], 2))
    requires g[RowAt(row, Directions[i], 2)][ColAt(col, Directions[i], 2)] == p
    ensures Captures(g, row, col, Directions[i], p) && IsLegal(g, row, col, p)
  {
    DirectionFacts(i);
    RunEndStep(g, row, col, Directions[i], Opponent(p), 1);
    ScanStops(g, row, col, Directions[i], p, 2);
  }

  /**
   * Two White disks in a row along d from (row, col), on a board with the
   * start position's disks, are followed by an empty cell or the edge.
   */
  lemma NoLongRun(g: Grid, row: int, col: int, d: Dir)
    requires StartDisks(g) && IsUnit(d)
    requires InBounds(RowAt(row, d, 1), ColAt(col, d, 1)) && g[RowAt(row, d, 1)][ColAt(col, d, 1)] == White
    requires InBounds(RowAt(row, d, 2), ColAt(col, d, 2)) && g[RowAt(row, d, 2)][ColAt(col, d, 2)] == White
    ensures !InBounds(RowAt(row, d, 3), ColAt(col, d, 3)) || g[RowAt(row, d, 3)][ColAt(col, d, 3)] == Empty
  {
  }

  /** A White disk next to (row, col) with a Black disk behind it puts (row, col) among the opening cells. */
  lemma ShortRun(g: Grid, row: int, col: int, d: Dir)
    requires StartDisks(g) && IsUnit(d)
    requires InBounds(RowAt(row, d, 1), ColAt(col, d, 1)) && g[RowAt(row, d, 1)][ColAt(col, d, 1)] == White
    requires InBounds(RowAt(row, d, 2), ColAt(col, d, 2)) && g[RowAt(row, d, 2)][ColAt(col, d, 2)] == Black
    ensures (row, col) in OpeningCells
  {
    StartDiskAt(g, RowAt(row, d, 1), ColAt(col, d, 1));
    StartDiskAt(g, RowAt(row, d, 2), ColAt(col, d, 2));
    OpeningBetween(row, col, d);
  }

  /** Where a White or a Black disk can stand on a board with the start position's disks. */
  lemma StartDiskAt(g: Grid, r: int, c: int)
    requires StartDisks(g) && InBounds(r, c)
    ensures g[r][c] == White ==> (r == 3 && c == 4) || (r == 4 && c == 3)
    ensures g[r][c] == Black ==> (r == 3 && c == 3) || (r == 4 && c == 4)
  {
  }

  /** A cell two steps back along d from a Black centre disk, through a White one, is an opening cell. */
  lemma OpeningBetween(row: int, col: int, d: Dir)
    requires (RowAt(row, d, 1) == 3 && ColAt(col, d, 1) == 4) || (RowAt(row, d, 1) == 4 && ColAt(col, d, 1) == 3)
    requires (RowAt(row, d, 2) == 3 && ColAt(col, d, 2) == 3) || (RowAt(row, d, 2) == 4 && ColAt(col, d, 2) == 4)
    ensures (row, col) in OpeningCells
  {
    var wr, br := row + d.dr, row + 2 * d.dr;
    assert row == 2 * wr - br && col == 2 * (col + d.dc) - (col + 2 * d.dc);
    if wr == 3 {
      assert (row, col) == OpeningCells[if br == 3 then 1 else 0];
    } else {
      assert (row, col) == OpeningCells[if br == 3 then 3 else 2];
    }
  }

  /** On a board with the start position's disks, a capture by Black can only start from an opening cell. */
  lemma OnlyOpeningCaptures(g: Grid, row: int, col: int, d: Dir)
    requires StartDisks(g) && InBounds(row, col) && IsUnit(d) && Captures(g, row, col, d, Black)
    ensures (row, col) in OpeningCells
  {
    var e := RunEnd(g, row, col, d, White, 1);
    RunCells(g, row, col, d, White, 1, 1);
    if e == 2 {
      ShortRun(g, row, col, d);
    } else {
      RunCells(g, row, col, d, White, 1, 2);
      NoLongRun(g, row, col, d);
      if e >= 4 {
        RunCells(g, row, col, d, White, 1, 3);
      }
    }
  }

  /** On a board with the start position's disks, Black's legal moves are exactly the four opening cells. */
  lemma StartLegalIff(g: Grid, row: int, col: int)
    requires StartDisks(g)
    ensures IsLegal(g, row, col, Black) <==> (row, col) in OpeningCells
  {
    if IsLegal(g, row, col, Black) {
      StartLegalSound(g, row, col);
    }
    if (row, col) in OpeningCells {
      StartLegalComplete(g, row, col);
    }
  }

  lemma StartLegalSound(g: Grid, row: int, col: int)
    requires StartDisks(g) && IsLegal(g, row, col, Black)
    ensures (row, col) in OpeningCells
  {
    var i :| 0 <= i < 8 && Captures(g, row, col, Directions[i], Black);
    DirectionFacts(i);
    OnlyOpeningCaptures(g, row, col, Directions[i]);
  }

  lemma StartLegalComplete(g: Grid, row: int, col: int)
    requires StartDisks(g) && (row, col) in OpeningCells
    ensures IsLegal(g, row, col, Black)
  {
    StartCells(g);
    if (row, col) == (2, 4) {
      CaptureNext(g, row, col, 6, Black);
    } else if (row, col) == (3, 5) {
      CaptureNext(g, row, col, 3, Black);
    } else if (row, col) == (4, 2) {
      CaptureNext(g, row, col, 4, Black);
    } else {
      CaptureNext(g, row, col, 1, Black);
    }
  }

  /** Two ascending lists with the same entries are the same list. */
  lemma {:induction false} AscendingUnique(xs: seq<(int, int)>, ys: seq<(int, int)>)
    requires Ascending(xs) && Ascending(ys)
    requires forall m :: m in xs <==> m in ys
    ensures xs == ys
    decreases |xs|
  {
    assert |xs| > 0 ==> xs[0] in xs;
    assert |ys| > 0 ==> ys[0] in ys;
    if |xs| > 0 && |ys| > 0 {
      assert xs[0] == ys[0];
      forall m
        ensures m in xs[1..] <==> m in ys[1..]
      {
        assert m in xs[1..] <==> m in xs && m != xs[0];
        assert m in ys[1..] <==> m in ys && m != ys[0];
      }
      AscendingUnique(xs[1..], ys[1..]);
      assert xs == [xs[0]] + xs[1..];
      assert ys == [ys[0]] + ys[1..];
    }
  }

  lemma OpeningCellsAscending()
    ensures Ascending(OpeningCells)
  {
    forall a, b | 0 <= a < b < 4
      ensures Before(OpeningCells[a], OpeningCells[b])
    {
    }
  }

  /** On a board with the start position's disks, Black's list of valid moves is the four opening cells. */
  lemma StartMoves(g: Grid)
    requires StartDisks(g)
    ensures ValidMoves(g, Black) == OpeningCells
  {
    forall m
      ensures m in ValidMoves(g, Black) <==> m in OpeningCells
    {
      ValidMovesIff(g, Black, m);
      StartLegalIff(g, m.0, m.1);
    }
    ValidMovesSorted(g, Black);
    OpeningCellsAscending();
    AscendingUnique(ValidMoves(g, Black), OpeningCells);
  }

  /** `get_valid_moves(1)` on the start position lists the four opening cells. */
  lemma OpeningMoves()
    ensures ValidMoves(InitialGrid(), Black) == OpeningCells
    ensures HasMove(InitialGrid(), Black)
  {
    InitialStartDisks();
    StartMoves(InitialGrid());
    NoValidMoves(InitialGrid(), Black);
  }

  /** A cell holding v makes v's count positive. */
  lemma CountPresent(g: Grid, r: int, c: int, v: Cell)
    requires InBounds(r, c) && g[r][c] == v
    ensures Count(g, v) >= 1
  {
    CountSetCell(g, r, c, if v == Empty then Black else Empty, v);
  }

  /** One cell of the board after a move, read off the definition. */
  lemma AfterMoveCell(g: Grid, row: int, col: int, p: Player, r: int, c: int)
    requires InBounds(row, col) && InBounds(r, c)
    ensures AfterMove(g, row, col, p)[r][c] == if (r == row && c == col) || Flips(g, row, col, p, r, c) then p else g[r][c]
  {
  }

  /** A move that captures along direction i turns the opponent disk next to it. */
  lemma FlipNext(g: Grid, row: int, col: int, i: int, p: Player)
    requires InBounds(row, col) && 0 <= i < 8 && Captures(g, row, col, Directions[i], p)
    ensures InBounds(RowAt(row, Directions[i], 1), ColAt(col, Directions[i], 1))
    ensures AfterMove(g, row, col, p)[RowAt(row, Directions[i], 1)][ColAt(col, Directions[i], 1)] == p
  {
    var d := Directions[i];
    DirectionFacts(i);
    RunCells(g, row, col, d, Opponent(p), 1, 1);
    AtGeometry(row, col, d, 1);
    AfterMoveCell(g, row, col, p, RowAt(row, d, 1), ColAt(col, d, 1));
  }

  /** A cell off the move's lines, or not holding an opponent disk, keeps its value. */
  lemma Untouched(g: Grid, row: int, col: int, p: Player, r: int, c: int)
    requires InBounds(row, col) && InBounds(r, c) && (r != row || c != col)
    requires !OnLine(row, col, r, c) || g[r][c] != Opponent(p)
    ensures AfterMove(g, row, col, p)[r][c] == g[r][c]
  {
    if Flips(g, row, col, p, r, c) {
      FlippedWasOpponent(g, row, col, p, r, c);
    }
    AfterMoveCell(g, row, col, p, r, c);
  }

  /** A legal move from two disks each that leaves an opponent disk standing flips exactly one. */
  lemma SingleFlip(g: Grid, row: int, col: int, p: Player, r: int, c: int)
    requires IsLegal(g, row, col, p) && Count(g, p) == 2 && Count(g, Opponent(p)) == 2
    requires InBounds(r, c) && AfterMove(g, row, col, p)[r][c] == Opponent(p)
    ensures var h := AfterMove(g, row, col, p);
      Diff(g, h) == 2 && Count(h, p) == 4 && Count(h, Opponent(p)) == 1
  {
    MoveCounts(g, row, col, p);
    CountPresent(AfterMove(g, row, col, p), r, c, Opponent(p));
  }

  /** The start-position cells the first move at (2, 4) depends on. */
  lemma StartCells(g: Grid)
    requires StartDisks(g)
    ensures g[2][4] == Empty && g[3][4] == White && g[4][4] == Black
    ensures g[4][3] == White && g[2][5] == Empty && g[3][3] == Black
    ensures g[3][5] == Empty && g[4][2] == Empty && g[5][3] == Empty
  {
    assert InBounds(2, 4) && InBounds(3, 4) && InBounds(4, 4) && InBounds(3, 3);
    assert InBounds(4, 3) && InBounds(2, 5) && InBounds(3, 5) && InBounds(4, 2) && InBounds(5, 3);
  }

  /** A move that captures the neighbour in direction i turns that neighbour to p. */
  lemma FlipNeighbour(g: Grid, row: int, col: int, i: int, p: Player)
    requires InBounds(row, col) && g[row][col] == Empty && 0 <= i < 8
    requires InBounds(RowAt(row, Directions[i], 1), ColAt(col, Directions[i], 1))
    requires g[RowAt(row, Directions[i], 1)][ColAt(col, Directions[i], 1)] == Opponent(p)
    requires InBounds(RowAt(row, Directions[i], 2), ColAt(col, Directions[i], 2))
    requires g[RowAt(row, Directions[i], 2)][ColAt(col, Directions[i], 2)] == p
    ensures AfterMove(g, row, col, p)[RowAt(row, Directions[i], 1)][ColAt(col, Directions[i], 1)] == p
  {
    CaptureNext(g, row, col, i, p);
    FlipNext(g, row, col, i, p);
  }

  /** Black may play (2, 4) when (3, 4) is White and (4, 4) Black. */
  lemma FirstMoveLegal(g: Grid)
    requires g[2][4] == Empty && g[3][4] == White && g[4][4] == Black
    ensures IsLegal(g, 2, 4, Black)
  {
    CaptureNext(g, 2, 4, 6, Black);
  }

  /** The move at (2, 4) turns (3, 4) Black. */
  lemma FirstMoveTurns(g: Grid)
    requires g[2][4] == Empty && g[3][4] == White && g[4][4] == Black
    ensures AfterMove(g, 2, 4, Black)[3][4] == Black
  {
    FlipNeighbour(g, 2, 4, 6, Black);
  }

  /** The move at (2, 4) keeps every cell off its lines, and every cell not holding White. */
  lemma FirstMoveKeeps(g: Grid, r: int, c: int)
    requires g[2][4] == Empty && InBounds(r, c) && (r != 2 || c != 4)
    requires !OnLine(2, 4, r, c) || g[r][c] != White
    ensures AfterMove(g, 2, 4, Black)[r][c] == g[r][c]
  {
    Untouched(g, 2, 4, Black, r, c);
  }

  /** From two disks each, the move at (2, 4) changes two cells and leaves White one disk. */
  lemma FirstMoveFlipsOne(g: Grid)
    requires g[2][4] == Empty && g[3][4] == White && g[4][4] == Black && g[4][3] == White
    requires Count(g, Black) == 2 && Count(g, White) == 2
    ensures var h := AfterMove(g, 2, 4, Black);
      Diff(g, h) == 2 && Count(h, Black) == 4 && Count(h, White) == 1
  {
    FirstMoveLegal(g);
    FirstMoveKeeps(g, 4, 3);
    SingleFlip(g, 2, 4, Black, 4, 3);
  }

  /** With (3, 4) Black and (4, 3) White, White may answer at (2, 5). */
  lemma WhiteAnswers(h: Grid)
    requires h[2][5] == Empty && h[3][4] == Black && h[4][3] == White
    ensures HasMove(h, White)
  {
    CaptureNext(h, 2, 5, 5, White);
  }

  /** After the move at (2, 4) White has an answer, so the turn passes to White. */
  lemma FirstMovePasses(g: Grid)
    requires g[2][4] == Empty && g[3][4] == White && g[4][4] == Black
    requires g[4][3] == White && g[2][5] == Empty
    ensures NextPlayer(AfterMove(g, 2, 4, Black), Black) == White
  {
    FirstMoveTurns(g);
    FirstMoveKeeps(g, 4, 3);
    FirstMoveKeeps(g, 2, 5);
    WhiteAnswers(AfterMove(g, 2, 4, Black));
    NextPlayerCanMove(AfterMove(g, 2, 4, Black), Black);
  }

  /**
   * Black's opening move at (2, 4) flips exactly the White disk at (3, 4):
   * two cells change, Black then has four disks and White one, and White
   * moves next.
   */
  lemma OpeningMoveFlipsOne()
    ensures var h := AfterMove(InitialGrid(), 2, 4, Black);
      && Diff(InitialGrid(), h) == 2 && Count(h, Black) == 4 && Count(h, White) == 1
      && NextPlayer(h, Black) == White
  {
    InitialStartDisks();
    InitialCounts();
    StartCells(InitialGrid());
    FirstMoveFlipsOne(InitialGrid());
    FirstMovePasses(InitialGrid());
  }
}
