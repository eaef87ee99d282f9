/**
 * `OthelloGame`: a board and the player to move, with the ray-walking scans
 * of the source written as loops and proved against the rules in `Rules`.
 */
module GameLogic {
  import opened Wrappers
  import opened Board
  import opened Rules

  // ---------------------------------------------------------------------
  // The board part-way through `make_move`
  // ---------------------------------------------------------------------

  /**
   * A cell of the board while `make_move` runs: the target holds p, the
   * directions before i have been flipped, and the first m disks of
   * direction i have been turned.
   */
  ghost function StageCell(g: Grid, row: int, col: int, p: Player, i: int, m: int, r: int, c: int): Cell
    requires InBounds(row, col) && InBounds(r, c)
  {
    if r == row && c == col then p
    else if OnLine(row, col, r, c) && DirIndex(DirTo(row, col, r, c)) < i && Flips(g, row, col, p, r, c) then p
    else if OnLine(row, col, r, c) && DirIndex(DirTo(row, col, r, c)) == i && DistTo(row, col, r, c) <= m then p
    else g[r][c]
  }

  ghost function Stage(g: Grid, row: int, col: int, p: Player, i: int, m: int): (h: Grid)
    requires InBounds(row, col)
    ensures forall r, c :: InBounds(r, c) ==> h[r][c] == StageCell(g, row, col, p, i, m, r, c)
  {
    seq(8, r requires 0 <= r < 8 => StageRow(g, row, col, p, i, m, r))
  }

  ghost function StageRow(g: Grid, row: int, col: int, p: Player, i: int, m: int, r: int): (s: seq<Cell>)
    requires InBounds(row, col) && 0 <= r < 8
    ensures |s| == 8
  {
    seq(8, c requires 0 <= c < 8 => StageCell(g, row, col, p, i, m, r, c))
  }

  lemma StageStart(g: Grid, row: int, col: int, p: Player)
    requires InBounds(row, col)
    ensures SetCell(g, row, col, p) == Stage(g, row, col, p, 0, 0)
  {
    var h := Stage(g, row, col, p, 0, 0);
    forall r, c | 0 <= r < 8 && 0 <= c < 8
      ensures SetCell(g, row, col, p)[r][c] == h[r][c]
    {
      if OnLine(row, col, r, c) {
        LineGeometry(row, col, r, c);
        DirIndexFacts(DirTo(row, col, r, c));
      }
    }
    GridExt(SetCell(g, row, col, p), h);
  }

  /** Before direction i is flipped, the cells along it still hold their original values. */
  lemma StageOnRay(g: Grid, row: int, col: int, p: Player, i: int, m: int, k: int)
    requires InBounds(row, col) && 0 <= i < 8 && 0 <= m < k
    requires InBounds(RowAt(row, Directions[i], k), ColAt(col, Directions[i], k))
    ensures Stage(g, row, col, p, i, m)[RowAt(row, Directions[i], k)][ColAt(col, Directions[i], k)]
         == g[RowAt(row, Directions[i], k)][ColAt(col, Directions[i], k)]
  {
    DirectionFacts(i);
    AtGeometry(row, col, Directions[i], k);
  }

  lemma StageStepCell(g: Grid, row: int, col: int, p: Player, i: int, m: int, r: int, c: int)
    requires InBounds(row, col) && 0 <= i < 8 && 0 <= m && InBounds(r, c)
    ensures StageCell(g, row, col, p, i, m + 1, r, c) ==
      if r == RowAt(row, Directions[i], m + 1) && c == ColAt(col, Directions[i], m + 1) then p
      else StageCell(g, row, col, p, i, m, r, c)
  {
    DirectionFacts(i);
    AtGeometry(row, col, Directions[i], m + 1);
    if OnLine(row, col, r, c) {
      LineGeometry(row, col, r, c);
      DirIndexFacts(DirTo(row, col, r, c));
    }
  }

  /** Turning the (m+1)-th disk of direction i. */
  lemma StageStep(g: Grid, row: int, col: int, p: Player, i: int, m: int)
    requires InBounds(row, col) && 0 <= i < 8 && 0 <= m
    requires InBounds(RowAt(row, Directions[i], m + 1), ColAt(col, Directions[i], m + 1))
    ensures SetCell(Stage(g, row, col, p, i, m), RowAt(row, Directions[i], m + 1), ColAt(col, Directions[i], m + 1), p)
         == Stage(g, row, col, p, i, m + 1)
  {
    var r0, c0 := RowAt(row, Directions[i], m + 1), ColAt(col, Directions[i], m + 1);
    var a := SetCell(Stage(g, row, col, p, i, m), r0, c0, p);
    var b := Stage(g, row, col, p, i, m + 1);
    forall r, c | 0 <= r < 8 && 0 <= c < 8
      ensures a[r][c] == b[r][c]
    {
      StageStepCell(g, row, col, p, i, m, r, c);
    }
    GridExt(a, b);
  }

  lemma {:induction false} StageRunEnd(g: Grid, row: int, col: int, p: Player, i: int, q: Cell, k: nat)
    requires InBounds(row, col) && 0 <= i < 8 && 1 <= k
    ensures RunEnd(Stage(g, row, col, p, i, 0), row, col, Directions[i], q, k) == RunEnd(g, row, col, Directions[i], q, k)
    decreases 8 - k
  {
    var d := Directions[i];
    DirectionFacts(i);
    if k < 8 && InBounds(RowAt(row, d, k), ColAt(col, d, k)) {
      StageOnRay(g, row, col, p, i, 0, k);
      StageRunEnd(g, row, col, p, i, q, k + 1);
    }
  }

  /** Before direction i is flipped, the walk along it sees the original board. */
  lemma StageRay(g: Grid, row: int, col: int, p: Player, i: int)
    requires InBounds(row, col) && 0 <= i < 8
    ensures RunEnd(Stage(g, row, col, p, i, 0), row, col, Directions[i], Opponent(p), 1) == RunEnd(g, row, col, Directions[i], Opponent(p), 1)
    ensures Captures(Stage(g, row, col, p, i, 0), row, col, Directions[i], p) == Captures(g, row, col, Directions[i], p)
  {
    var d := Directions[i];
    DirectionFacts(i);
    StageRunEnd(g, row, col, p, i, Opponent(p), 1);
    var e := RunEnd(g, row, col, d, Opponent(p), 1);
    if InBounds(RowAt(row, d, e), ColAt(col, d, e)) {
      StageOnRay(g, row, col, p, i, 0, e);
    }
  }

  lemma StageFinishCell(g: Grid, row: int, col: int, p: Player, i: int, m: int, r: int, c: int)
    requires InBounds(row, col) && 0 <= i < 8 && Captures(g, row, col, Directions[i], p) && InBounds(r, c)
    requires m + 1 == RunEnd(g, row, col, Directions[i], Opponent(p), 1)
    ensures StageCell(g, row, col, p, i, m, r, c) == StageCell(g, row, col, p, i + 1, 0, r, c)
  {
    if OnLine(row, col, r, c) {
      LineGeometry(row, col, r, c);
      DirIndexFacts(DirTo(row, col, r, c));
    }
  }

  /** Once the bracketed run of a capturing direction i is turned, direction i is done. */
  lemma StageFinish(g: Grid, row: int, col: int, p: Player, i: int, m: int)
    requires InBounds(row, col) && 0 <= i < 8 && Captures(g, row, col, Directions[i], p)
    requires m + 1 == RunEnd(g, row, col, Directions[i], Opponent(p), 1)
    ensures Stage(g, row, col, p, i, m) == Stage(g, row, col, p, i + 1, 0)
  {
    var a := Stage(g, row, col, p, i, m);
    var b := Stage(g, row, col, p, i + 1, 0);
    forall r, c | 0 <= r < 8 && 0 <= c < 8
      ensures a[r][c] == b[r][c]
    {
      StageFinishCell(g, row, col, p, i, m, r, c);
      assert a[r][c] == StageCell(g, row, col, p, i, m, r, c);
      assert b[r][c] == StageCell(g, row, col, p, i + 1, 0, r, c);
    }
    GridExt(a, b);
  }

  lemma StageSkipCell(g: Grid, row: int, col: int, p: Player, i: int, r: int, c: int)
    requires InBounds(row, col) && 0 <= i < 8 && !Captures(g, row, col, Directions[i], p) && InBounds(r, c)
    ensures StageCell(g, row, col, p, i, 0, r, c) == StageCell(g, row, col, p, i + 1, 0, r, c)
  {
    if OnLine(row, col, r, c) {
      LineGeometry(row, col, r, c);
      DirIndexFacts(DirTo(row, col, r, c));
    }
  }

  /** A direction that does not capture changes nothing. */
  lemma StageSkip(g: Grid, row: int, col: int, p: Player, i: int)
    requires InBounds(row, col) && 0 <= i < 8 && !Captures(g, row, col, Directions[i], p)
    ensures Stage(g, row, col, p, i, 0) == Stage(g, row, col, p, i + 1, 0)
  {
    var a := Stage(g, row, col, p, i, 0);
    var b := Stage(g, row, col, p, i + 1, 0);
    forall r, c | 0 <= r < 8 && 0 <= c < 8
      ensures a[r][c] == b[r][c]
    {
      StageSkipCell(g, row, col, p, i, r, c);
    }
    GridExt(a, b);
  }

  /** After all eight directions the board is the one `AfterMove` describes. */
  lemma StageEnd(g: Grid, row: int, col: int, p: Player)
    requires InBounds(row, col)
    ensures Stage(g, row, col, p, 8, 0) == AfterMove(g, row, col, p)
  {
    var a := Stage(g, row, col, p, 8, 0);
    var b := AfterMove(g, row, col, p);
    forall r, c | 0 <= r < 8 && 0 <= c < 8
      ensures a[r][c] == b[r][c]
    {
      assert b[r] == Row(g, row, col, p, r);
      if OnLine(row, col, r, c) {
        LineGeometry(row, col, r, c);
        DirIndexFacts(DirTo(row, col, r, c));
      }
    }
    GridExt(a, b);
  }

  /** `board` with each on-board cell of `cells` set to p, in order. */
  function SetCells(b: Grid, cells: seq<(int, int)>, p: Player): Grid
    decreases |cells|
  {
    if |cells| == 0 then b
    else
      var prev := SetCells(b, cells[..|cells| - 1], p);
      var (r, c) := cells[|cells| - 1];
      if InBounds(r, c) then SetCell(prev, r, c, p) else prev
  }

  /** `cells` are the first |cells| cells along d from (row, col), nearest first. */
  predicate RayPrefix(cells: seq<(int, int)>, row: int, col: int, d: Dir) {
    |cells| == 0 ||
    (RayPrefix(cells[..|cells| - 1], row, col, d) && cells[|cells| - 1] == (RowAt(row, d, |cells|), ColAt(col, d, |cells|)))
  }

  lemma RayPrefixSnoc(cells: seq<(int, int)>, row: int, col: int, d: Dir, r: int, c: int)
    requires RayPrefix(cells, row, col, d)
    requires r == RowAt(row, d, |cells| + 1) && c == ColAt(col, d, |cells| + 1)
    ensures RayPrefix(cells + [(r, c)], row, col, d)
  {
    assert (cells + [(r, c)])[..|cells|] == cells;
  }

  lemma {:induction false} RayPrefixAt(cells: seq<(int, int)>, row: int, col: int, d: Dir, j: int)
    requires RayPrefix(cells, row, col, d) && 0 <= j < |cells|
    ensures cells[j] == (RowAt(row, d, j + 1), ColAt(col, d, j + 1))
  {
    if j < |cells| - 1 {
      RayPrefixAt(cells[..|cells| - 1], row, col, d, j);
    }
  }

  /** Turning the first m disks of a capturing run one by one gives stage m. */
  lemma {:induction false} FlipPrefix(g: Grid, row: int, col: int, p: Player, i: int, cells: seq<(int, int)>, m: nat)
    requires InBounds(row, col) && 0 <= i < 8
    requires RayPrefix(cells, row, col, Directions[i])
    requires m <= |cells| && |cells| + 1 == RunEnd(g, row, col, Directions[i], Opponent(p), 1)
    ensures SetCells(Stage(g, row, col, p, i, 0), cells[..m], p) == Stage(g, row, col, p, i, m)
  {
    if m > 0 {
      FlipPrefix(g, row, col, p, i, cells, m - 1);
      RunCells(g, row, col, Directions[i], Opponent(p), 1, m);
      RayPrefixAt(cells, row, col, Directions[i], m - 1);
      StageStep(g, row, col, p, i, m - 1);
      assert cells[..m][..m - 1] == cells[..m - 1];
    }
  }

  /** Turning the whole run a capturing direction collected finishes that direction. */
  lemma FlipDone(g: Grid, row: int, col: int, p: Player, i: int, cells: seq<(int, int)>)
    requires InBounds(row, col) && 0 <= i < 8 && Captures(g, row, col, Directions[i], p)
    requires RayPrefix(cells, row, col, Directions[i])
    requires |cells| + 1 == RunEnd(g, row, col, Directions[i], Opponent(p), 1)
    ensures SetCells(Stage(g, row, col, p, i, 0), cells, p) == Stage(g, row, col, p, i + 1, 0)
  {
    FlipPrefix(g, row, col, p, i, cells, |cells|);
    assert cells[..|cells|] == cells;
    StageFinish(g, row, col, p, i, |cells|);
  }


  // ---------------------------------------------------------------------
  // The game object
  // ---------------------------------------------------------------------

  class OthelloGame {
    var board: Grid
    var currentPlayer: Player

    /** `OthelloGame(board_state, current_player)`: a missing board means the start position. */
    constructor (boardState: Option<Grid>, currentPlayer: Player)
      ensures board == (if boardState.Some? then boardState.value else InitialGrid())
      ensures this.currentPlayer == currentPlayer
    {
      board := if boardState.Some? then boardState.value else InitialGrid();
      this.currentPlayer := currentPlayer;
    }

    /** `is_valid_move`: walks each of the eight rays from (row, col). */
    method IsValidMove(row: int, col: int, player: Player) returns (valid: bool)
      ensures valid == IsLegal(board, row, col, player)
    {
      if !InBounds(row, col) {
        return false;
      }
      if board[row][col] != Empty {
        return false;
      }
      for i := 0 to 8
        invariant forall j :: 0 <= j < i ==> !Captures(board, row, col, Directions[j], player)
      {
        DirectionFacts(i);
        var captures := ScanDirection(row, col, player, Directions[i]);
        if captures {
          return true;
        }
      }
      return false;
    }

    /**
     * One pass of `is_valid_move`'s direction loop: step over opponent disks
     * along d and report whether the walk stops on `player`'s disk
     * with at least one opponent disk in between.
     */
    method ScanDirection(row: int, col: int, player: Player, d: Dir) returns (captures: bool)
      requires InBounds(row, col) && IsUnit(d)
      ensures captures == Captures(board, row, col, d, player)
    {
      var g := board;
      var opponent := Opponent(player);
      var r, c := row + d.dr, col + d.dc;
      if !InBounds(r, c) || g[r][c] != opponent {
        ScanStops(g, row, col, d, player, 1);
        return false;
      }
      RunEndStep(g, row, col, d, opponent, 1);
      r, c := r + d.dr, c + d.dc;
      ghost var k := 2;
      while InBounds(r, c)
        invariant 2 <= k <= |g|
        invariant r == RowAt(row, d, k) && c == ColAt(col, d, k)
        invariant RunEnd(g, row, col, d, opponent, 1) == RunEnd(g, row, col, d, opponent, k)
        decreases 8 - k
      {
        OnBoardDistance(row, col, d, k);
        if g[r][c] == Empty {
          break;
        }
        if g[r][c] == player {
          ScanStops(g, row, col, d, player, k);
          return true;
        }
        RunEndStep(g, row, col, d, opponent, k);
        r, c := r + d.dr, c + d.dc;
        k := k + 1;
      }
      ScanStops(g, row, col, d, player, k);
      return false;
    }

    /** `get_valid_moves`: every legal cell for `player`, row by row, column by column. */
    method GetValidMoves(player: Player) returns (moves: seq<(int, int)>)
      ensures moves == ValidMoves(board, player)
    {
      moves := [];
      for row := 0 to 8
        invariant moves == MovesBefore(board, player, row)
      {
        var found := RowValidMoves(row, player);
        moves := moves + found;
      }
    }

    /** The inner loop of `get_valid_moves`: the legal cells of one row, left to right. */
    method RowValidMoves(row: int, player: Player) returns (found: seq<(int, int)>)
      ensures found == RowMoves(board, player, row, |board|)
    {
      found := [];
      for col := 0 to 8
        invariant found == RowMoves(board, player, row, col)
      {
        var valid := IsValidMove(row, col, player);
        if valid {
          found := found + [(row, col)];
        }
      }
    }

    /**
     * `make_move`: an illegal move returns false and changes nothing; a legal
     * one places the disk, flips every bracketed run, and hands the turn to
     * the opponent unless the opponent has no legal move.
     */
    method MakeMove(row: int, col: int, player: Player) returns (ok: bool)
      modifies this
      ensures ok == IsLegal(old(board), row, col, player)
      ensures !ok ==> board == old(board) && currentPlayer == old(currentPlayer)
      ensures ok ==> board == AfterMove(old(board), row, col, player)
      ensures ok ==> currentPlayer == NextPlayer(board, player)
    {
      ok := IsValidMove(row, col, player);
      if !ok {
        return;
      }
      PlaceAndFlip(row, col, player);
      PassTurn(player);
    }

    /** `is_game_over`: both lists of valid moves come back empty. */
    method IsGameOver() returns (over: bool)
      ensures over <==> !HasMove(board, Black) && !HasMove(board, White)
    {
      var blackMoves := GetValidMoves(Black);
      var whiteMoves := GetValidMoves(White);
      over := |blackMoves| == 0 && |whiteMoves| == 0;
      GameOverIff(board);
    }

    /**
     * The end of `make_move`: the turn goes to the opponent, and comes back
     * to `player` when the opponent has no legal move.
     */
    method PassTurn(player: Player)
      modifies this`currentPlayer
      ensures currentPlayer == NextPlayer(old(board), player)
    {
      currentPlayer := Opponent(player);
      var moves := GetValidMoves(currentPlayer);
      if |moves| == 0 {
        currentPlayer := Opponent(currentPlayer);
      }
    }

    /**
     * The body of `make_move` once the move is known to be legal: place the
     * disk, then flip the bracketed run in each of the eight directions.
     */
    method PlaceAndFlip(row: int, col: int, player: Player)
      requires InBounds(row, col)
      modifies this`board
      ensures board == AfterMove(old(board), row, col, player)
    {
      ghost var g := board;
      board := SetCell(board, row, col, player);
      StageStart(g, row, col, player);
      for i := 0 to 8
        invariant board == Stage(g, row, col, player, i, 0)
      {
        DirectionFacts(i);
        FlipDirection(row, col, player, i, Directions[i], g);
      }
      StageEnd(g, row, col, player);
    }

    /**
     * The walk of `make_move`'s direction loop: step over opponent disks along
     * d, collecting them in `toFlip`, and report whether the walk stops on a
     * disk of `player` with at least one opponent disk in between.
     */
    method CollectRun(row: int, col: int, player: Player, d: Dir) returns (toFlip: seq<(int, int)>, captures: bool)
      requires InBounds(row, col) && IsUnit(d)
      ensures captures == Captures(board, row, col, d, player)
      ensures RayPrefix(toFlip, row, col, d)
      ensures captures ==> |toFlip| + 1 == RunEnd(board, row, col, d, Opponent(player), 1)
    {
      var g := board;
      var opponent := Opponent(player);
      var r, c := row + d.dr, col + d.dc;
      if !InBounds(r, c) || g[r][c] != opponent {
        ScanStops(g, row, col, d, player, 1);
        return [], false;
      }
      RunEndStep(g, row, col, d, opponent, 1);
      toFlip := [(r, c)];
      r, c := r + d.dr, c + d.dc;
      captures := false;
      ghost var k := 2;
      while InBounds(r, c)
        invariant 2 <= k <= |g|
        invariant r == RowAt(row, d, k) && c == ColAt(col, d, k)
        invariant |toFlip| == k - 1 && RayPrefix(toFlip, row, col, d)
        invariant RunEnd(g, row, col, d, opponent, 1) == RunEnd(g, row, col, d, opponent, k)
        invariant !captures
        decreases 8 - k
      {
        OnBoardDistance(row, col, d, k);
        if g[r][c] == Empty {
          break;
        }
        if g[r][c] == player {
          captures := true;
          break;
        }
        RunEndStep(g, row, col, d, opponent, k);
        RayPrefixSnoc(toFlip, row, col, d, r, c);
        toFlip := toFlip + [(r, c)];
        r, c := r + d.dr, c + d.dc;
        k := k + 1;
      }
      ScanStops(g, row, col, d, player, k);
    }

    /**
     * One pass of `make_move`'s direction loop: if direction i captures,
     * turn every collected disk.
     */
    method FlipDirection(row: int, col: int, player: Player, ghost i: int, d: Dir, ghost g: Grid)
      requires InBounds(row, col) && 0 <= i < 8 && IsUnit(d) && Directions[i] == d
      requires board == Stage(g, row, col, player, i, 0)
      modifies this`board
      ensures board == Stage(g, row, col, player, i + 1, 0)
    {
      StageRay(g, row, col, player, i);
      ghost var start := board;
      var toFlip, captures := CollectRun(row, col, player, d);
      if !captures {
        StageSkip(g, row, col, player, i);
        return;
      }
      for j := 0 to |toFlip|
        invariant board == SetCells(start, toFlip[..j], player)
      {
        RunCells(start, row, col, d, Opponent(player), 1, j + 1);
        RayPrefixAt(toFlip, row, col, d, j);
        assert toFlip[..j + 1][..j] == toFlip[..j];
        var (fr, fc) := toFlip[j];
        board := SetCell(board, fr, fc, player);
      }
      assert toFlip[..|toFlip|] == toFlip;
      FlipDone(g, row, col, player, i, toFlip);
    }
  }
}
