/** One step of a slide: every tile that can move goes one cell further in
    direction (dx, dy), merging into an equal neighbour that has settled.
    Step is the board the fixed x-then-y scan of update() writes into
    newGrid; MoveStep is that scan. */
module Slide {
  import opened Sums
  import opened Board

  /** The tile at (x, y) moves this step: canMove holds and the cell is occupied. */
  predicate Moves(g: Grid, dx: int, dy: int, x: int, y: int)
    requires InBounds(x, y)
  {
    CanMove(g, dx, dy, x, y) && g[x][y] > 0
  }

  /** The moving tile at (x, y) meets an equal tile that cannot move on. */
  predicate Merges(g: Grid, dx: int, dy: int, x: int, y: int)
    requires InBounds(x, y)
  {
    Moves(g, dx, dy, x, y) && g[x + dx][y + dy] == g[x][y] && !CanMove(g, dx, dy, x + dx, y + dy)
  }

  /** What newGrid[x][y] holds once the scan is complete: the tile that moved
      in from behind (doubled when it merged), else 0 if the tile here moved
      away, else the tile that stayed. */
  function NextCell(g: Grid, dx: int, dy: int, x: int, y: int): (v: int)
    requires InBounds(x, y)
  {
    var sx, sy := x - dx, y - dy;
    if InBounds(sx, sy) && Moves(g, dx, dy, sx, sy) then
      (if Merges(g, dx, dy, sx, sy) then g[sx][sy] * 2 else g[sx][sy])
    else if Moves(g, dx, dy, x, y) then 0
    else g[x][y]
  }

  /** The board after one step in direction (dx, dy). */
  function Step(g: Grid, dx: int, dy: int): (r: Grid) {
    seq(N, x requires 0 <= x < N => seq(N, y requires 0 <= y < N => NextCell(g, dx, dy, x, y)))
  }

  /** didMove: some occupied cell can move. */
  ghost predicate AnyMoves(g: Grid, dx: int, dy: int) {
    exists x, y :: InBounds(x, y) && Moves(g, dx, dy, x, y)
  }

  // ------------------------------------------------------- sums over a board

  function Cells(g: Grid): (int, int) -> int {
    (x, y) => if InBounds(x, y) then g[x][y] else 0
  }

  /** The sum of all cell values. */
  function Total(g: Grid): (t: int) {
    GridSum(Cells(g), 0, N, N)
  }

  /** The score a merge of the tile at (x, y) adds: the doubled value. */
  function GainAt(g: Grid, dx: int, dy: int, x: int, y: int): int {
    if InBounds(x, y) && Merges(g, dx, dy, x, y) then g[x][y] * 2 else 0
  }

  function Gains(g: Grid, dx: int, dy: int): (int, int) -> int {
    (x, y) => GainAt(g, dx, dy, x, y)
  }

  /** What one step adds to the score: the doubled values of all its merges. */
  function Gain(g: Grid, dx: int, dy: int): (gain: int) {
    GridSum(Gains(g, dx, dy), 0, N, N)
  }

  /** The value of the tile at (x, y) if it moves this step, else 0. */
  function MovingAt(g: Grid, dx: int, dy: int, x: int, y: int): int {
    if InBounds(x, y) && Moves(g, dx, dy, x, y) then g[x][y] else 0
  }

  /** The value of the tile at (x, y) if it stays this step, else 0. */
  function StayingAt(g: Grid, dx: int, dy: int, x: int, y: int): int {
    if InBounds(x, y) && !Moves(g, dx, dy, x, y) then g[x][y] else 0
  }

  // ------------------------------------------------------------ properties

  /** Each cell of the new board is fed by at most the one cell behind it:
      it holds what arrives from there plus what stays in place (a merge
      adds the arriving tile to the equal tile that stays). */
  lemma NextCellSplit(g: Grid, dx: int, dy: int, x: int, y: int)
    requires IsUnit(dx, dy) && InBounds(x, y) && AllNonnegative(g)
    ensures NextCell(g, dx, dy, x, y) == MovingAt(g, dx, dy, x - dx, y - dy) + StayingAt(g, dx, dy, x, y)
  {
    var sx, sy := x - dx, y - dy;
    if InBounds(sx, sy) && Moves(g, dx, dy, sx, sy) && !Merges(g, dx, dy, sx, sy) {
      assert sx + dx == x && sy + dy == y;
      assert g[x][y] == 0 || Moves(g, dx, dy, x, y);
    }
  }

  function Moving(g: Grid, dx: int, dy: int): (int, int) -> int {
    (x, y) => MovingAt(g, dx, dy, x, y)
  }

  function Arriving(g: Grid, dx: int, dy: int): (int, int) -> int {
    (x, y) => MovingAt(g, dx, dy, x - dx, y - dy)
  }

  function Staying(g: Grid, dx: int, dy: int): (int, int) -> int {
    (x, y) => StayingAt(g, dx, dy, x, y)
  }

  /** A step conserves the sum of all cell values. */
  lemma StepConservesTotal(g: Grid, dx: int, dy: int)
    requires IsUnit(dx, dy) && AllNonnegative(g)
    ensures Total(Step(g, dx, dy)) == Total(g)
  {
    TotalBefore(g, dx, dy);
    TotalAfter(g, dx, dy);
    ArrivingSum(g, dx, dy);
  }

  /** The tiles that arrive somewhere add up to the tiles that leave. */
  lemma ArrivingSum(g: Grid, dx: int, dy: int)
    requires IsUnit(dx, dy)
    ensures GridSum(Arriving(g, dx, dy), 0, N, N) == GridSum(Moving(g, dx, dy), 0, N, N)
  {
    MovingVanishes(g, dx, dy);
    ShiftedSum(Moving(g, dx, dy), Arriving(g, dx, dy), dx, dy);
  }

  /** Arriving is Moving shifted by one cell; Moving is zero off the board
      and on the cells whose destination is off the board. */
  lemma MovingVanishes(g: Grid, dx: int, dy: int)
    ensures forall x, y :: Arriving(g, dx, dy)(x, y) == Moving(g, dx, dy)(x - dx, y - dy)
    ensures forall x, y :: !InBounds(x, y) ==> Moving(g, dx, dy)(x, y) == 0
    ensures forall x, y :: InBounds(x, y) && !InBounds(x + dx, y + dy) ==> Moving(g, dx, dy)(x, y) == 0
  {
  }

  lemma TotalBefore(g: Grid, dx: int, dy: int)
    ensures Total(g) == GridSum(Moving(g, dx, dy), 0, N, N) + GridSum(Staying(g, dx, dy), 0, N, N)
  {
    GridAdd(Moving(g, dx, dy), Staying(g, dx, dy), Cells(g), 0, N, N);
  }

  lemma TotalAfter(g: Grid, dx: int, dy: int)
    requires IsUnit(dx, dy) && AllNonnegative(g)
    ensures Total(Step(g, dx, dy)) == GridSum(Arriving(g, dx, dy), 0, N, N) + GridSum(Staying(g, dx, dy), 0, N, N)
  {
    StepCellsSplit(g, dx, dy);
    GridAdd(Arriving(g, dx, dy), Staying(g, dx, dy), Cells(Step(g, dx, dy)), 0, N, N);
  }

  lemma StepCellsSplit(g: Grid, dx: int, dy: int)
    requires IsUnit(dx, dy) && AllNonnegative(g)
    ensures forall x, y :: 0 <= x < N && 0 <= y < N ==>
      Cells(Step(g, dx, dy))(x, y) == Arriving(g, dx, dy)(x, y) + Staying(g, dx, dy)(x, y)
  {
    forall x, y | 0 <= x < N && 0 <= y < N
      ensures Cells(Step(g, dx, dy))(x, y) == Arriving(g, dx, dy)(x, y) + Staying(g, dx, dy)(x, y)
    {
      assert Cells(Step(g, dx, dy))(x, y) == NextCell(g, dx, dy, x, y);
      NextCellSplit(g, dx, dy, x, y);
    }
  }

  /** Shifting a board one cell along (dx, dy) keeps its sum when nothing
      outside the board counts and nothing is pushed off it. */
  lemma ShiftedSum(m: (int, int) -> int, shifted: (int, int) -> int, dx: int, dy: int)
    requires IsUnit(dx, dy)
    requires forall x, y :: shifted(x, y) == m(x - dx, y - dy)
    requires forall x, y :: !InBounds(x, y) ==> m(x, y) == 0
    requires forall x, y :: InBounds(x, y) && !InBounds(x + dx, y + dy) ==> m(x, y) == 0
    ensures GridSum(shifted, 0, N, N) == GridSum(m, 0, N, N)
  {
    if dx == 0 {
      ShiftedSumAlongY(m, shifted, dy);
    } else {
      ShiftedSumAlongX(m, shifted, dx);
    }
  }

  lemma ShiftedSumAlongY(m: (int, int) -> int, shifted: (int, int) -> int, dy: int)
    requires dy == 1 || dy == -1
    requires forall x, y :: shifted(x, y) == m(x, y - dy)
    requires forall x, y :: !InBounds(x, y) ==> m(x, y) == 0
    requires forall x, y :: InBounds(x, y) && !InBounds(x, y + dy) ==> m(x, y) == 0
    ensures GridSum(shifted, 0, N, N) == GridSum(m, 0, N, N)
  {
    var wall := if dy == 1 then N - 1 else 0;
    forall x | 0 <= x < N ensures RowSum(shifted, x, 0, N) == RowSum(m, x - 0, 0, N) {
      assert !InBounds(x, wall + dy);
      assert !InBounds(x, -1) && !InBounds(x, N);
      ShiftedRow(m, shifted, x, dy, wall);
    }
    GridShift(m, shifted, 0, 0, N, N);
  }

  lemma ShiftedSumAlongX(m: (int, int) -> int, shifted: (int, int) -> int, dx: int)
    requires dx == 1 || dx == -1
    requires forall x, y :: shifted(x, y) == m(x - dx, y)
    requires forall x, y :: !InBounds(x, y) ==> m(x, y) == 0
    requires forall x, y :: InBounds(x, y) && !InBounds(x + dx, y) ==> m(x, y) == 0
    ensures GridSum(shifted, 0, N, N) == GridSum(m, 0, N, N)
  {
    ColumnsShift(m, shifted, dx);
    var wall := if dx == 1 then N - 1 else 0;
    EdgeColumnsVanish(m, dx, wall);
    ShiftedColumns(m, dx, wall);
  }

  lemma ShiftedRow(m: (int, int) -> int, shifted: (int, int) -> int, x: int, dy: int, wall: int)
    requires dy == 1 || dy == -1
    requires wall == if dy == 1 then N - 1 else 0
    requires forall y :: shifted(x, y) == m(x, y - dy)
    requires m(x, -1) == 0 && m(x, N) == 0 && m(x, wall) == 0
    ensures RowSum(shifted, x, 0, N) == RowSum(m, x, 0, N)
  {
    RowShift(m, shifted, x, x, dy, 0, N);
    if dy == 1 {
      RowSplit(m, x, -1, 0, N - 1);
      RowSplit(m, x, 0, N - 1, N);
    } else {
      RowSplit(m, x, 0, 1, N + 1);
      RowSplit(m, x, 1, N, N + 1);
    }
  }

  lemma ColumnsShift(m: (int, int) -> int, shifted: (int, int) -> int, dx: int)
    requires forall x, y :: shifted(x, y) == m(x - dx, y)
    ensures GridSum(shifted, 0, N, N) == GridSum(m, -dx, N - dx, N)
  {
    forall x | 0 <= x < N ensures RowSum(shifted, x, 0, N) == RowSum(m, x - dx, 0, N) {
      RowShift(m, shifted, x, x - dx, 0, 0, N);
    }
    GridShift(m, shifted, dx, 0, N, N);
  }

  lemma EdgeColumnsVanish(m: (int, int) -> int, dx: int, wall: int)
    requires dx == 1 || dx == -1
    requires wall == if dx == 1 then N - 1 else 0
    requires forall x, y :: !InBounds(x, y) ==> m(x, y) == 0
    requires forall x, y :: InBounds(x, y) && !InBounds(x + dx, y) ==> m(x, y) == 0
    ensures forall y :: m(wall, y) == 0 && m(-1, y) == 0 && m(N, y) == 0
  {
    forall y ensures m(wall, y) == 0 {
      assert !InBounds(wall, y) || !InBounds(wall + dx, y);
    }
  }

  lemma ShiftedColumns(m: (int, int) -> int, dx: int, wall: int)
    requires dx == 1 || dx == -1
    requires wall == if dx == 1 then N - 1 else 0
    requires forall y :: m(-1, y) == 0 && m(N, y) == 0
    requires forall y :: m(wall, y) == 0
    ensures GridSum(m, -dx, N - dx, N) == GridSum(m, 0, N, N)
  {
    RowZero(m, -1, 0, N);
    RowZero(m, N, 0, N);
    RowZero(m, wall, 0, N);
    if dx == 1 {
      GridSplit(m, -1, 0, N - 1, N);
      GridSplit(m, 0, N - 1, N, N);
    } else {
      GridSplit(m, 1, N, N + 1, N);
      GridSplit(m, 0, 1, N, N);
    }
  }

  // ------------------------------------------------- tiles, score, stalling

  /** Every value the step writes is a copy of an old value or the double
      of one: that of the cell itself or of the cell just behind it. */
  lemma NextCellOrigin(g: Grid, dx: int, dy: int, x: int, y: int)
    requires InBounds(x, y)
    ensures var r := NextCell(g, dx, dy, x, y);
      r == 0 || r == g[x][y] ||
      (InBounds(x - dx, y - dy) && g[x - dx][y - dy] > 0 && (r == g[x - dx][y - dy] || r == g[x - dx][y - dy] * 2))
  {
  }

  /** A step keeps every cell 0 or a power of two no smaller than 2. */
  lemma StepKeepsTiles(g: Grid, dx: int, dy: int)
    requires AllTiles(g)
    ensures AllTiles(Step(g, dx, dy))
  {
    forall x, y | InBounds(x, y) ensures IsTile(Step(g, dx, dy)[x][y]) {
      NextCellOrigin(g, dx, dy, x, y);
      if InBounds(x - dx, y - dy) && g[x - dx][y - dy] > 0 {
        DoubleTile(g[x - dx][y - dy]);
      }
    }
  }

  /** On a board without negative cells a step never lowers the score. */
  lemma GainIsNonnegative(g: Grid, dx: int, dy: int)
    requires AllNonnegative(g)
    ensures Gain(g, dx, dy) >= 0
  {
    GridNonneg(Gains(g, dx, dy), 0, N, N);
  }

  /** When no occupied cell can move, the step writes back the old board and
      adds nothing to the score. */
  lemma StuckStepIsIdentity(g: Grid, dx: int, dy: int)
    requires !AnyMoves(g, dx, dy)
    ensures Step(g, dx, dy) == g
    ensures Gain(g, dx, dy) == 0
  {
    var next := Step(g, dx, dy);
    forall x | 0 <= x < N ensures next[x] == g[x] {
      forall y | 0 <= y < N ensures next[x][y] == g[x][y] {
        assert !Moves(g, dx, dy, x, y);
      }
    }
    forall x | 0 <= x < N ensures RowSum(Gains(g, dx, dy), x, 0, N) == 0 {
      RowZero(Gains(g, dx, dy), x, 0, N);
    }
    GridZero(Gains(g, dx, dy), 0, N, N);
  }

  /** A moving tile always changes the board somewhere ahead of it: follow
      the moving tiles to the first cell that does not move. */
  lemma {:induction false} MovingTileChangesBoard(g: Grid, dx: int, dy: int, x: int, y: int)
    requires IsUnit(dx, dy) && InBounds(x, y) && Moves(g, dx, dy, x, y)
    ensures exists a, b :: InBounds(a, b) && Step(g, dx, dy)[a][b] != g[a][b]
    decreases WallDistance(dx, dy, x, y)
  {
    var tx, ty := x + dx, y + dy;
    if Moves(g, dx, dy, tx, ty) {
      MovingTileChangesBoard(g, dx, dy, tx, ty);
    } else {
      assert tx - dx == x && ty - dy == y;
      assert Step(g, dx, dy)[tx][ty] != g[tx][ty];
    }
  }

  /** The step leaves the board as it was exactly when nothing can move. */
  lemma StepFixedIffStuck(g: Grid, dx: int, dy: int)
    requires IsUnit(dx, dy)
    ensures Step(g, dx, dy) == g <==> !AnyMoves(g, dx, dy)
  {
    if AnyMoves(g, dx, dy) {
      var x, y :| InBounds(x, y) && Moves(g, dx, dy, x, y);
      MovingTileChangesBoard(g, dx, dy, x, y);
    } else {
      StuckStepIsIdentity(g, dx, dy);
    }
  }

  /** A board that agrees with NextCell everywhere is the step's result. */
  lemma StepFromCells(g: Grid, dx: int, dy: int, h: Grid)
    requires forall x, y :: InBounds(x, y) ==> NextCell(g, dx, dy, x, y) == h[x][y]
    ensures Step(g, dx, dy) == h
  {
    var r := Step(g, dx, dy);
    forall x | 0 <= x < N ensures r[x] == h[x] {
      assert forall y :: 0 <= y < N ==> r[x][y] == h[x][y];
    }
  }

  /** A step with at most one merge, at (i, j), gains what that merge doubles. */
  lemma GainFromOne(g: Grid, dx: int, dy: int, i: int, j: int)
    requires InBounds(i, j)
    requires forall x, y :: InBounds(x, y) && (x != i || y != j) ==> !Merges(g, dx, dy, x, y)
    ensures Gain(g, dx, dy) == GainAt(g, dx, dy, i, j)
  {
    var z: (int, int) -> int := (x, y) => 0;
    forall x | 0 <= x < N ensures RowSum(z, x, 0, N) == 0 {
      RowZero(z, x, 0, N);
    }
    GridZero(z, 0, N, N);
    GridUpdate(z, Gains(g, dx, dy), i, j, 0, N, N);
  }

  /** Lane y = 0 holding 2, 2, 4 from the left wall. */
  const Chain: Grid := [[2, 0, 0, 0], [2, 0, 0, 0], [4, 0, 0, 0], [0, 0, 0, 0]]

  /** Lane y = 0 after one step to the left. */
  const ChainOnce: Grid := [[4, 0, 0, 0], [4, 0, 0, 0], [0, 0, 0, 0], [0, 0, 0, 0]]

  /** Lane y = 0 after two steps to the left. */
  const ChainTwice: Grid := [[8, 0, 0, 0], [0, 0, 0, 0], [0, 0, 0, 0], [0, 0, 0, 0]]

  /** The first step to the left merges the two 2s and moves the 4 up behind. */
  lemma ChainFirstStep()
    ensures Step(Chain, -1, 0) == ChainOnce && Gain(Chain, -1, 0) == 4
  {
    assert !CanMove(Chain, -1, 0, 0, 0) && CanMove(Chain, -1, 0, 1, 0);
    assert CanMove(Chain, -1, 0, 2, 0);
    forall x, y | InBounds(x, y) ensures NextCell(Chain, -1, 0, x, y) == ChainOnce[x][y] {
      if y != 0 || x == 3 {
        assert Chain[x][y] == 0 && (x == 3 || Chain[x + 1][y] == 0);
      }
    }
    StepFromCells(Chain, -1, 0, ChainOnce);
    GainFromOne(Chain, -1, 0, 1, 0);
  }

  /** The second step to the left merges the two 4s. */
  lemma ChainSecondStep()
    ensures Step(ChainOnce, -1, 0) == ChainTwice && Gain(ChainOnce, -1, 0) == 8
  {
    assert !CanMove(ChainOnce, -1, 0, 0, 0) && CanMove(ChainOnce, -1, 0, 1, 0);
    forall x, y | InBounds(x, y) ensures NextCell(ChainOnce, -1, 0, x, y) == ChainTwice[x][y] {
      if y != 0 || x >= 2 {
        assert ChainOnce[x][y] == 0 && (x == 3 || ChainOnce[x + 1][y] == 0);
      }
    }
    StepFromCells(ChainOnce, -1, 0, ChainTwice);
    GainFromOne(ChainOnce, -1, 0, 1, 0);
  }

  /** Merges chain across the steps of one key press: moving left, lane
      2, 2, 4 becomes 4, 4 and then a single 8, and the key press scores 4 + 8. */
  lemma ChainedMerges()
    ensures Step(Step(Chain, -1, 0), -1, 0) == ChainTwice
    ensures Gain(Chain, -1, 0) + Gain(Step(Chain, -1, 0), -1, 0) == 12
  {
    ChainFirstStep();
    ChainSecondStep();
  }

  // ------------------------------------------------------------- the scan

  /** (a, b) comes before (x, y) in the x-then-y scan order. */
  predicate Scanned(a: int, b: int, x: int, y: int) {
    a < x || (a == x && b < y)
  }

  /** newGrid[a][b] once the scan has handled every cell before (x, y). */
  ghost function Partial(g: Grid, dx: int, dy: int, x: int, y: int, a: int, b: int): int
    requires InBounds(a, b)
  {
    var sa, sb := a - dx, b - dy;
    if InBounds(sa, sb) && Scanned(sa, sb, x, y) && Moves(g, dx, dy, sa, sb) then
      (if Merges(g, dx, dy, sa, sb) then g[sa][sb] * 2 else g[sa][sb])
    else if Scanned(a, b, x, y) && !Moves(g, dx, dy, a, b) then g[a][b]
    else 0
  }

  /** Handling a moving tile at (x, y) writes only its destination. */
  lemma ScanMovingTile(g: Grid, dx: int, dy: int, x: int, y: int, a: int, b: int)
    requires InBounds(x, y) && InBounds(a, b) && Moves(g, dx, dy, x, y)
    ensures Partial(g, dx, dy, x, y + 1, a, b) ==
      if a == x + dx && b == y + dy then
        (if Merges(g, dx, dy, x, y) then g[x][y] * 2 else g[x][y])
      else Partial(g, dx, dy, x, y, a, b)
  {
  }

  /** Handling a tile at (x, y) that stays writes only (x, y), and only
      when nothing has arrived there yet. */
  lemma ScanStayingTile(g: Grid, dx: int, dy: int, x: int, y: int, a: int, b: int)
    requires InBounds(x, y) && InBounds(a, b) && !Moves(g, dx, dy, x, y)
    ensures Partial(g, dx, dy, x, y + 1, a, b) ==
      if a == x && b == y && Partial(g, dx, dy, x, y, x, y) == 0 then g[x][y]
      else Partial(g, dx, dy, x, y, a, b)
  {
  }

  /** The end of one column of the scan is the start of the next. */
  lemma ScanNextColumn(g: Grid, dx: int, dy: int, x: int, a: int, b: int)
    requires InBounds(a, b)
    ensures Partial(g, dx, dy, x, N, a, b) == Partial(g, dx, dy, x + 1, 0, a, b)
  {
  }

  /** Once every cell is handled, newGrid is the step's board. */
  lemma ScanComplete(g: Grid, dx: int, dy: int, a: int, b: int)
    requires InBounds(a, b)
    ensures Partial(g, dx, dy, N, 0, a, b) == NextCell(g, dx, dy, a, b)
  {
  }

  /** Some tile scanned before (x, y) moves. */
  ghost predicate MovedBefore(g: Grid, dx: int, dy: int, x: int, y: int) {
    exists a, b :: InBounds(a, b) && Scanned(a, b, x, y) && Moves(g, dx, dy, a, b)
  }

  lemma ScanMoved(g: Grid, dx: int, dy: int, x: int, y: int)
    requires InBounds(x, y)
    ensures MovedBefore(g, dx, dy, x, y + 1) <==> MovedBefore(g, dx, dy, x, y) || Moves(g, dx, dy, x, y)
  {
    if MovedBefore(g, dx, dy, x, y + 1) && !Moves(g, dx, dy, x, y) {
      var a, b :| InBounds(a, b) && Scanned(a, b, x, y + 1) && Moves(g, dx, dy, a, b);
      assert Scanned(a, b, x, y);
    }
  }

  lemma ScanMovedNextColumn(g: Grid, dx: int, dy: int, x: int)
    ensures MovedBefore(g, dx, dy, x, N) <==> MovedBefore(g, dx, dy, x + 1, 0)
  {
    if MovedBefore(g, dx, dy, x + 1, 0) {
      var a, b :| InBounds(a, b) && Scanned(a, b, x + 1, 0) && Moves(g, dx, dy, a, b);
      assert Scanned(a, b, x, N);
    }
  }

  lemma ScanMovedComplete(g: Grid, dx: int, dy: int)
    ensures MovedBefore(g, dx, dy, N, 0) <==> AnyMoves(g, dx, dy)
  {
    if AnyMoves(g, dx, dy) {
      var a, b :| InBounds(a, b) && Moves(g, dx, dy, a, b);
      assert Scanned(a, b, N, 0);
    }
  }

  /** The merge gain of the cells scanned so far grows by the gain at (x, y). */
  lemma ScanGain(g: Grid, dx: int, dy: int, x: int, y: int)
    requires InBounds(x, y)
    ensures RowSum(Gains(g, dx, dy), x, 0, y + 1) == RowSum(Gains(g, dx, dy), x, 0, y) + GainAt(g, dx, dy, x, y)
  {
  }

  lemma ScanGainNextColumn(g: Grid, dx: int, dy: int, x: int)
    requires 0 <= x
    ensures GridSum(Gains(g, dx, dy), 0, x + 1, N) ==
      GridSum(Gains(g, dx, dy), 0, x, N) + RowSum(Gains(g, dx, dy), x, 0, N)
  {
  }

  /** The body of the scan for one cell (x, y): a moving tile is written one
      cell further (doubled when it merges, its doubled value added to the
      score); a tile that stays is copied unless something already arrived. */
  method ScanCell(g: Grid, dx: int, dy: int, x: int, y: int, next: Grid, gained: int, didMove: bool)
    returns (next': Grid, gained': int, didMove': bool)
    requires IsUnit(dx, dy) && InBounds(x, y)
    requires forall a, b :: InBounds(a, b) ==> next[a][b] == Partial(g, dx, dy, x, y, a, b)
    ensures forall a, b :: InBounds(a, b) ==> next'[a][b] == Partial(g, dx, dy, x, y + 1, a, b)
    ensures gained' == gained + GainAt(g, dx, dy, x, y)
    ensures didMove' <==> didMove || Moves(g, dx, dy, x, y)
  {
    next', gained', didMove' := next, gained, didMove;
    if CanMove(g, dx, dy, x, y) && g[x][y] > 0 {
      assert Moves(g, dx, dy, x, y);
      didMove' := true;
      var tx, ty := x + dx, y + dy;
      if g[tx][ty] == g[x][y] && !CanMove(g, dx, dy, tx, ty) {
        gained' := gained + g[x][y] * 2;
        next' := SetCell(next, tx, ty, g[x][y] * 2);
      } else {
        next' := SetCell(next, tx, ty, g[x][y]);
      }
      forall a, b | InBounds(a, b) ensures next'[a][b] == Partial(g, dx, dy, x, y + 1, a, b) {
        ScanMovingTile(g, dx, dy, x, y, a, b);
      }
    } else {
      if g[x][y] != 0 && next[x][y] == 0 {
        next' := SetCell(next, x, y, g[x][y]);
      }
      forall a, b | InBounds(a, b) ensures next'[a][b] == Partial(g, dx, dy, x, y + 1, a, b) {
        ScanStayingTile(g, dx, dy, x, y, a, b);
      }
    }
  }

  /** The grid step of update(): scans the cells x-then-y into a fresh grid,
      and reports the merge gain and whether any tile moved. */
  method MoveStep(g: Grid, dx: int, dy: int) returns (next: Grid, gained: int, didMove: bool)
    requires IsUnit(dx, dy)
    ensures next == Step(g, dx, dy)
    ensures gained == Gain(g, dx, dy)
    ensures didMove <==> AnyMoves(g, dx, dy)
  {
    next := Empty;
    gained := 0;
    didMove := false;
    for x := 0 to N
      invariant forall a, b :: InBounds(a, b) ==> next[a][b] == Partial(g, dx, dy, x, 0, a, b)
      invariant gained == GridSum(Gains(g, dx, dy), 0, x, N)
      invariant didMove <==> MovedBefore(g, dx, dy, x, 0)
    {
      for y := 0 to N
        invariant forall a, b :: InBounds(a, b) ==> next[a][b] == Partial(g, dx, dy, x, y, a, b)
        invariant gained == GridSum(Gains(g, dx, dy), 0, x, N) + RowSum(Gains(g, dx, dy), x, 0, y)
        invariant didMove <==> MovedBefore(g, dx, dy, x, y)
      {
        ScanGain(g, dx, dy, x, y);
        ScanMoved(g, dx, dy, x, y);
        next, gained, didMove := ScanCell(g, dx, dy, x, y, next, gained, didMove);
      }
      forall a, b | InBounds(a, b) ensures next[a][b] == Partial(g, dx, dy, x + 1, 0, a, b) {
        ScanNextColumn(g, dx, dy, x, a, b);
      }
      ScanGainNextColumn(g, dx, dy, x);
      ScanMovedNextColumn(g, dx, dy, x);
    }
    ScanMovedComplete(g, dx, dy);
    forall a | 0 <= a < N ensures next[a] == Step(g, dx, dy)[a] {
      forall b | 0 <= b < N ensures next[a][b] == Step(g, dx, dy)[a][b] {
        ScanComplete(g, dx, dy, a, b);
      }
    }
  }
}
