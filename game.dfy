/** The game's module state (grid, animOffset, score) and the operations on
    it: startGame's first tile, addTile, handleKeyDown and update. Each
    Math.random() result is a caller-supplied real in [0, 1). */
module Game {
  import opened Sums
  import opened Board
  import opened Slide
  import opened Animation

  datatype Option<T> = None | Some(value: T)

  // ------------------------------------------------------------ random draws

  /** The two Math.random() results one attempt of addTile consumes. */
  datatype Draw = Draw(rx: real, ry: real)

  predicate DrawOk(d: Draw) {
    0.0 <= d.rx < 1.0 && 0.0 <= d.ry < 1.0
  }

  predicate DrawsOk(draws: seq<Draw>) {
    forall i :: 0 <= i < |draws| ==> DrawOk(draws[i])
  }

  /** Math.floor(r * grid.length) for r in [0, 1): a coordinate on the board. */
  function CellIndex(r: real): (i: int)
    requires 0.0 <= r < 1.0
    ensures 0 <= i < N
    ensures i as real <= r * N as real < i as real + 1.0
  {
    (r * N as real).Floor
  }

  /** The cell one attempt of addTile looks at. */
  function Lands(d: Draw): (p: Pos)
    requires DrawOk(d)
    ensures InBounds(p.x, p.y)
  {
    Pos(CellIndex(d.rx), CellIndex(d.ry))
  }

  /** The attempt finds an empty cell, which ends addTile's loop. */
  predicate Hits(g: Grid, d: Draw)
    requires DrawOk(d)
  {
    g[Lands(d).x][Lands(d).y] == 0
  }

  ghost predicate HitsEmpty(g: Grid, draws: seq<Draw>)
    requires DrawsOk(draws)
  {
    exists i :: 0 <= i < |draws| && Hits(g, draws[i])
  }

  /** A draw that misses does not change whether a later one hits. */
  lemma HitsEmptyTail(g: Grid, draws: seq<Draw>)
    requires DrawsOk(draws) && |draws| > 0 && !Hits(g, draws[0])
    ensures HitsEmpty(g, draws[1..]) <==> HitsEmpty(g, draws)
  {
    if HitsEmpty(g, draws) {
      var i :| 0 <= i < |draws| && Hits(g, draws[i]);
      assert draws[1..][i - 1] == draws[i];
    }
    if HitsEmpty(g, draws[1..]) {
      var i :| 0 <= i < |draws[1..]| && Hits(g, draws[1..][i]);
      assert draws[i + 1] == draws[1..][i];
    }
  }

  /** The attempt at which addTile's loop stops: the first one that hits. */
  function FirstHit(g: Grid, draws: seq<Draw>): (i: nat)
    requires DrawsOk(draws) && HitsEmpty(g, draws)
    ensures i < |draws| && Hits(g, draws[i])
    ensures forall j :: 0 <= j < i ==> !Hits(g, draws[j])
    decreases |draws|
  {
    if Hits(g, draws[0]) then 0
    else
      HitsEmptyTail(g, draws);
      var k := FirstHit(g, draws[1..]);
      assert forall j :: 1 <= j <= k ==> draws[j] == draws[1..][j - 1];
      1 + k
  }

  /** addTile as written: it draws until a draw lands on an empty cell and
      puts a 2 there; None means the loop is still running after all of
      the given draws. */
  function Place(g: Grid, draws: seq<Draw>): (r: Option<Grid>)
    requires DrawsOk(draws)
    ensures r.Some? <==> HitsEmpty(g, draws)
    ensures r.Some? ==>
      var p := Lands(draws[FirstHit(g, draws)]);
      r.value == SetCell(g, p.x, p.y, 2)
    decreases |draws|
  {
    if |draws| == 0 then None
    else if Hits(g, draws[0]) then Some(SetCell(g, Lands(draws[0]).x, Lands(draws[0]).y, 2))
    else
      HitsEmptyTail(g, draws);
      Place(g, draws[1..])
  }

  /** addTile changes exactly one cell, from empty to 2. */
  lemma PlaceChangesOneCell(g: Grid, draws: seq<Draw>)
    requires DrawsOk(draws) && HitsEmpty(g, draws)
    ensures var r := Place(g, draws).value;
      exists x, y :: InBounds(x, y) && g[x][y] == 0 && r[x][y] == 2 &&
        forall a, b :: InBounds(a, b) && (a != x || b != y) ==> r[a][b] == g[a][b]
  {
    var p := Lands(draws[FirstHit(g, draws)]);
    assert InBounds(p.x, p.y) && g[p.x][p.y] == 0;
  }

  /** As written, addTile never returns on a full board, whatever the draws. */
  lemma FullBoardNeverPlaces(g: Grid, draws: seq<Draw>)
    requires DrawsOk(draws) && Full(g)
    ensures Place(g, draws) == None
  {
  }

  /** Some draw lands on (x, y). */
  ghost predicate Reaches(draws: seq<Draw>, x: int, y: int)
    requires DrawsOk(draws)
  {
    exists i :: 0 <= i < |draws| && Lands(draws[i]) == Pos(x, y)
  }

  /** The random source eventually lands on every cell. */
  ghost predicate Covers(draws: seq<Draw>) {
    DrawsOk(draws) &&
    forall x, y {:trigger Reaches(draws, x, y)} :: InBounds(x, y) ==> Reaches(draws, x, y)
  }

  lemma CoversSuffices(g: Grid, draws: seq<Draw>)
    requires Covers(draws)
    ensures Full(g) || HitsEmpty(g, draws)
  {
    if !Full(g) {
      var x, y :| InBounds(x, y) && g[x][y] == 0;
      assert Reaches(draws, x, y);
      var i :| 0 <= i < |draws| && Lands(draws[i]) == Pos(x, y);
      assert Hits(g, draws[i]);
    }
  }

  /** addTile corrected: a full board is left as it is. */
  function Spawn(g: Grid, draws: seq<Draw>): (r: Grid)
    requires DrawsOk(draws) && (Full(g) || HitsEmpty(g, draws))
    ensures Full(g) ==> r == g
  {
    if Full(g) then g else Place(g, draws).value
  }

  lemma PlaceKeepsTiles(g: Grid, draws: seq<Draw>)
    requires DrawsOk(draws) && HitsEmpty(g, draws) && AllTiles(g)
    ensures AllTiles(Place(g, draws).value)
  {
    assert IsPowerOfTwo(2 / 2);
    assert IsTile(2);
  }

  lemma SpawnKeepsTiles(g: Grid, draws: seq<Draw>)
    requires DrawsOk(draws) && (Full(g) || HitsEmpty(g, draws)) && AllTiles(g)
    ensures AllTiles(Spawn(g, draws))
  {
    if !Full(g) {
      PlaceKeepsTiles(g, draws);
    }
  }

  /** A tile added to a board that is not full raises the cell total by 2. */
  lemma SpawnAddsTwo(g: Grid, draws: seq<Draw>)
    requires DrawsOk(draws) && (Full(g) || HitsEmpty(g, draws))
    ensures Total(Spawn(g, draws)) == Total(g) + (if Full(g) then 0 else 2)
  {
    if !Full(g) {
      var p := Lands(draws[FirstHit(g, draws)]);
      var r := Spawn(g, draws);
      GridUpdate(Cells(g), Cells(r), p.x, p.y, 0, N, N);
    }
  }

  // ---------------------------------------------------------------- state

  /** grid, animOffset.x, animOffset.y, score. */
  datatype State = State(grid: Grid, offX: int, offY: int, score: int)

  /** The invariant the operations keep: every cell a tile, the offset at
      rest or sliding in one direction, the score not negative. */
  ghost predicate Valid(s: State) {
    AllTiles(s.grid) && OffsetValid(s.offX, s.offY) && s.score >= 0
  }

  /** The key codes handleKeyDown reacts to: W, S, D and A. */
  function KeyDirection(keyCode: int): (r: Option<(int, int)>)
    ensures r.Some? ==> IsUnit(r.value.0, r.value.1)
  {
    if keyCode == 87 then Some((0, -1))
    else if keyCode == 83 then Some((0, 1))
    else if keyCode == 68 then Some((1, 0))
    else if keyCode == 65 then Some((-1, 0))
    else None
  }

  /** handleKeyDown: while a slide is animating every key is ignored. */
  function KeyDown(s: State, keyCode: int): (r: State) {
    if Abs(s.offX) > 0 || Abs(s.offY) > 0 then s
    else match KeyDirection(keyCode)
      case None => s
      case Some(d) => s.(offX := d.0, offY := d.1)
  }

  lemma KeyDownWhileAnimating(s: State, keyCode: int)
    requires s.offX != 0 || s.offY != 0
    ensures KeyDown(s, keyCode) == s
  {
  }

  /** At rest, W, S, D and A start a slide up, down, right and left, and
      every other key does nothing; grid and score never change. */
  lemma KeyTable(s: State, keyCode: int)
    requires s.offX == 0 && s.offY == 0
    ensures var r := KeyDown(s, keyCode);
      r.grid == s.grid && r.score == s.score &&
      (keyCode == 87 ==> r.offX == 0 && r.offY == -1) &&
      (keyCode == 83 ==> r.offX == 0 && r.offY == 1) &&
      (keyCode == 68 ==> r.offX == 1 && r.offY == 0) &&
      (keyCode == 65 ==> r.offX == -1 && r.offY == 0) &&
      (keyCode !in {87, 83, 68, 65} ==> r == s)
  {
  }

  lemma KeyDownKeepsValid(s: State, keyCode: int)
    requires Valid(s)
    ensures Valid(KeyDown(s, keyCode))
  {
  }

  /** One call of update(), with the draws addTile would consume. */
  ghost function Updated(s: State, draws: seq<Draw>): (r: State)
    requires Covers(draws)
  {
    var ox, oy := Advance(s.offX), Advance(s.offY);
    if !Exceeds(ox, oy) then s.(offX := ox, offY := oy)
    else
      var mx, my := Sign(ox), Sign(oy);
      var g := Step(s.grid, mx, my);
      var score := s.score + Gain(s.grid, mx, my);
      if AnyMoves(s.grid, mx, my) then State(g, mx, my, score)
      else
        CoversSuffices(g, draws);
        State(Spawn(g, draws), 0, 0, score)
  }

  /** A frame that does not step only advances the offset. */
  lemma SlidingFrame(s: State, draws: seq<Draw>)
    requires Covers(draws) && !Exceeds(Advance(s.offX), Advance(s.offY))
    ensures Updated(s, draws) == s.(offX := Advance(s.offX), offY := Advance(s.offY))
  {
  }

  /** A frame that steps with something moving keeps sliding by one unit. */
  lemma MovingFrame(s: State, draws: seq<Draw>)
    requires Covers(draws) && Exceeds(Advance(s.offX), Advance(s.offY))
    requires AnyMoves(s.grid, Sign(Advance(s.offX)), Sign(Advance(s.offY)))
    ensures var mx, my := Sign(Advance(s.offX)), Sign(Advance(s.offY));
      Updated(s, draws) == State(Step(s.grid, mx, my), mx, my, s.score + Gain(s.grid, mx, my))
  {
  }

  /** The outcome of a frame that steps, given the scan's three results. */
  lemma SteppingFrame(s: State, draws: seq<Draw>, moveX: int, moveY: int, next: Grid, gained: int, didMove: bool)
    requires Covers(draws) && Exceeds(Advance(s.offX), Advance(s.offY))
    requires moveX == Sign(Advance(s.offX)) && moveY == Sign(Advance(s.offY))
    requires next == Step(s.grid, moveX, moveY) && gained == Gain(s.grid, moveX, moveY)
    requires didMove <==> AnyMoves(s.grid, moveX, moveY)
    ensures didMove ==> Updated(s, draws) == State(next, moveX, moveY, s.score + gained)
    ensures !didMove ==>
      (Full(next) || HitsEmpty(next, draws)) &&
      Updated(s, draws) == State(Spawn(next, draws), 0, 0, s.score + gained)
  {
    if didMove {
      MovingFrame(s, draws);
    } else {
      StuckUpdate(s, draws);
      StuckStepIsIdentity(s.grid, moveX, moveY);
    }
  }

  /** update keeps the invariant. */
  lemma UpdateKeepsValid(s: State, draws: seq<Draw>)
    requires Valid(s) && Covers(draws)
    ensures Valid(Updated(s, draws))
  {
    var ox, oy := Advance(s.offX), Advance(s.offY);
    if !Exceeds(ox, oy) {
      SlidingFrame(s, draws);
      AdvanceKeepsValid(s.offX, s.offY);
    } else {
      var mx, my := Sign(ox), Sign(oy);
      ExceedingIsUnit(s.offX, s.offY);
      if AnyMoves(s.grid, mx, my) {
        MovingFrame(s, draws);
        UnitIsValid(mx, my);
        StepKeepsTiles(s.grid, mx, my);
        TilesAreNonnegative(s.grid);
        GainIsNonnegative(s.grid, mx, my);
      } else {
        StuckUpdate(s, draws);
        SpawnKeepsTiles(s.grid, draws);
      }
    }
  }

  /** The score never falls, and rises by exactly the merge gain of the step. */
  lemma UpdateScore(s: State, draws: seq<Draw>)
    requires Valid(s) && Covers(draws)
    ensures var r := Updated(s, draws);
      var ox, oy := Advance(s.offX), Advance(s.offY);
      r.score >= s.score &&
      r.score - s.score == (if Exceeds(ox, oy) then Gain(s.grid, Sign(ox), Sign(oy)) else 0)
  {
    TilesAreNonnegative(s.grid);
    GainIsNonnegative(s.grid, Sign(Advance(s.offX)), Sign(Advance(s.offY)));
  }

  /** A step where nothing moves leaves grid and score alone, stops the
      slide, and adds a tile if there is room. */
  lemma StuckUpdate(s: State, draws: seq<Draw>)
    requires Covers(draws)
    requires Exceeds(Advance(s.offX), Advance(s.offY))
    requires !AnyMoves(s.grid, Sign(Advance(s.offX)), Sign(Advance(s.offY)))
    ensures var r := Updated(s, draws);
      (Full(s.grid) || HitsEmpty(s.grid, draws)) && r == State(Spawn(s.grid, draws), 0, 0, s.score)
  {
    CoversSuffices(s.grid, draws);
    StuckStepIsIdentity(s.grid, Sign(Advance(s.offX)), Sign(Advance(s.offY)));
  }

  /** Cell values are conserved by a step; only the tile added on a stepping
      frame that moved nothing, on a board that is not full, adds to them. */
  lemma UpdateTotal(s: State, draws: seq<Draw>)
    requires Valid(s) && Covers(draws)
    ensures var r := Updated(s, draws);
      var ox, oy := Advance(s.offX), Advance(s.offY);
      Total(r.grid) == Total(s.grid) +
        (if Exceeds(ox, oy) && !AnyMoves(s.grid, Sign(ox), Sign(oy)) && !Full(s.grid) then 2 else 0)
  {
    var ox, oy := Advance(s.offX), Advance(s.offY);
    if Exceeds(ox, oy) {
      var mx, my := Sign(ox), Sign(oy);
      ExceedingIsUnit(s.offX, s.offY);
      if AnyMoves(s.grid, mx, my) {
        TilesAreNonnegative(s.grid);
        StepConservesTotal(s.grid, mx, my);
      } else {
        StuckStepIsIdentity(s.grid, mx, my);
        CoversSuffices(s.grid, draws);
        SpawnAddsTwo(s.grid, draws);
      }
    }
  }

  /** k calls of update() in a row. */
  ghost function Run(s: State, draws: seq<Draw>, k: nat): (r: State)
    requires Covers(draws)
  {
    if k == 0 then s else Updated(Run(s, draws, k - 1), draws)
  }

  /** A key press at rest sets the offset to the key's unit direction. */
  lemma KeyPressed(s: State, keyCode: int)
    requires s.offX == 0 && s.offY == 0 && KeyDirection(keyCode).Some?
    ensures var d := KeyDirection(keyCode).value;
      IsUnit(d.0, d.1) && KeyDown(s, keyCode) == s.(offX := d.0, offY := d.1)
  {
  }

  /** Frame k (1 <= k <= 11) after a key press in direction (dx, dy) only slides. */
  lemma SlideOne(u: State, draws: seq<Draw>, dx: int, dy: int, k: nat)
    requires Covers(draws) && IsUnit(dx, dy) && 1 <= k <= 11
    requires u.offX == Grow(dx, k - 1) && u.offY == Grow(dy, k - 1)
    ensures Updated(u, draws) == u.(offX := Grow(dx, k), offY := Grow(dy, k))
  {
    GrowZero(k);
    if dx == 0 {
      TwelveFrames(dy, k);
    } else {
      TwelveFrames(dx, k);
    }
    SlidingFrame(u, draws);
  }

  /** After a key press the next eleven frames only slide the offset. */
  lemma {:induction false} SlideFrames(t: State, draws: seq<Draw>, dx: int, dy: int, k: nat)
    requires Covers(draws) && IsUnit(dx, dy) && t.offX == dx && t.offY == dy
    requires k <= 11
    ensures Run(t, draws, k) == t.(offX := Grow(dx, k), offY := Grow(dy, k))
  {
    if k > 0 {
      SlideFrames(t, draws, dx, dy, k - 1);
      SlideOne(Run(t, draws, k - 1), draws, dx, dy, k);
    }
  }

  /** Eleven frames after a key press in direction (dx, dy), the next frame steps
      in that direction. */
  lemma TwelfthFrameSteps(dx: int, dy: int)
    requires IsUnit(dx, dy)
    ensures var ox, oy := Advance(Grow(dx, 11)), Advance(Grow(dy, 11));
      Exceeds(ox, oy) && Sign(ox) == dx && Sign(oy) == dy
  {
    GrowZero(12);
    if dx == 0 {
      GrowUnit(dy, 12);
      TwelveFrames(dy, 12);
    } else {
      GrowUnit(dx, 12);
      TwelveFrames(dx, 12);
    }
    assert Advance(Grow(dx, 11)) == Grow(dx, 12) && Advance(Grow(dy, 11)) == Grow(dy, 12);
  }

  /** The outcome of a frame that steps in direction (dx, dy). */
  lemma SteppingFrameOutcome(t: State, draws: seq<Draw>, dx: int, dy: int)
    requires Covers(draws) && Exceeds(Advance(t.offX), Advance(t.offY))
    requires Sign(Advance(t.offX)) == dx && Sign(Advance(t.offY)) == dy
    ensures (Full(t.grid) || HitsEmpty(t.grid, draws)) &&
      Updated(t, draws) == if AnyMoves(t.grid, dx, dy)
           then State(Step(t.grid, dx, dy), dx, dy, t.score + Gain(t.grid, dx, dy))
           else State(Spawn(t.grid, draws), 0, 0, t.score)
  {
    CoversSuffices(t.grid, draws);
    if AnyMoves(t.grid, dx, dy) {
      MovingFrame(t, draws);
    } else {
      StuckUpdate(t, draws);
    }
  }

  /** The twelfth frame after a key press steps the grid in the key's direction. */
  lemma StepOnTwelfthFrame(s: State, draws: seq<Draw>, keyCode: int)
    requires Covers(draws) && s.offX == 0 && s.offY == 0 && KeyDirection(keyCode).Some?
    ensures var d := KeyDirection(keyCode).value;
      var r := Run(KeyDown(s, keyCode), draws, 12);
      (Full(s.grid) || HitsEmpty(s.grid, draws)) &&
      r == if AnyMoves(s.grid, d.0, d.1)
           then State(Step(s.grid, d.0, d.1), d.0, d.1, s.score + Gain(s.grid, d.0, d.1))
           else State(Spawn(s.grid, draws), 0, 0, s.score)
  {
    var d := KeyDirection(keyCode).value;
    KeyPressed(s, keyCode);
    var t0 := KeyDown(s, keyCode);
    SlideFrames(t0, draws, d.0, d.1, 11);
    var t := s.(offX := Grow(d.0, 11), offY := Grow(d.1, 11));
    assert Run(t0, draws, 12) == Updated(t, draws);
    TwelfthFrameSteps(d.0, d.1);
    SteppingFrameOutcome(t, draws, d.0, d.1);
  }

  // ---------------------------------------------------------- the findings

  /** A full board on which no two neighbours are equal. */
  const Checkerboard: Grid := [[2, 4, 2, 4], [4, 2, 4, 2], [2, 4, 2, 4], [4, 2, 4, 2]]

  lemma CheckerboardIsStuck(dx: int, dy: int)
    requires IsUnit(dx, dy)
    ensures Full(Checkerboard) && !AnyMoves(Checkerboard, dx, dy)
  {
    forall x, y | InBounds(x, y) ensures !CanMove(Checkerboard, dx, dy, x, y) {
      FullWithoutPairsCannotMove(Checkerboard, dx, dy, x, y);
    }
  }

  /** A key press at rest on a full board that cannot move in the key's
      direction, whatever the score: addTile as written finds no empty cell,
      and the corrected twelfth frame leaves the game as it was. */
  lemma StuckKeyPress(s: State, draws: seq<Draw>, keyCode: int)
    requires Covers(draws) && Full(s.grid) && s.offX == 0 && s.offY == 0
    requires KeyDirection(keyCode).Some?
    requires !AnyMoves(s.grid, KeyDirection(keyCode).value.0, KeyDirection(keyCode).value.1)
    ensures Place(s.grid, draws) == None
    ensures Run(KeyDown(s, keyCode), draws, 12) == s
  {
    FullBoardNeverPlaces(s.grid, draws);
    StepOnTwelfthFrame(s, draws, keyCode);
  }

  /** As written, pressing D on the checkerboard makes the twelfth frame call
      addTile on a full board, whose loop then never ends; with the
      correction the same frame leaves the game as it is. Any game that
      reaches the checkerboard has merged into its eight 4s, so it has a
      score of at least 32; the lemma holds for every score. */
  lemma FullBoardKeyPress(draws: seq<Draw>, score: int)
    requires Covers(draws)
    ensures var s := State(Checkerboard, 0, 0, score);
      var d := KeyDirection(68).value;
      Full(Checkerboard) && !AnyMoves(Checkerboard, d.0, d.1) &&
      Place(Checkerboard, draws) == None &&
      Run(KeyDown(s, 68), draws, 12) == s
  {
    CheckerboardIsStuck(1, 0);
    StuckKeyPress(State(Checkerboard, 0, 0, score), draws, 68);
  }

  // -------------------------------------------------------------- the game

  class Game {
    var grid: Grid
    var offX: int
    var offY: int
    var score: int

    function Snapshot(): State
      reads this
    {
      State(grid, offX, offY, score)
    }

    /** startGame: the empty board with its first tile. */
    constructor Start(draws: seq<Draw>)
      requires DrawsOk(draws) && HitsEmpty(Empty, draws)
      ensures Snapshot() == State(Place(Empty, draws).value, 0, 0, 0)
      ensures Valid(Snapshot())
    {
      grid := Empty;
      offX, offY := 0, 0;
      score := 0;
      new;
      EmptyHasOnlyTiles();
      AddTile(draws);
    }

    /** addTile as written: keeps drawing until a draw lands on an empty
        cell, so it returns only when some draw does. */
    method AddTile(draws: seq<Draw>)
      requires DrawsOk(draws) && HitsEmpty(grid, draws)
      modifies this`grid
      ensures grid == Place(old(grid), draws).value
      ensures old(AllTiles(grid)) ==> AllTiles(grid)
    {
      ghost var last := FirstHit(grid, draws);
      var i := 0;
      var x, y := CellIndex(draws[0].rx), CellIndex(draws[0].ry);
      while grid[x][y] != 0
        invariant 0 <= i <= last
        invariant Pos(x, y) == Lands(draws[i])
        decreases last - i
      {
        i := i + 1;
        x, y := CellIndex(draws[i].rx), CellIndex(draws[i].ry);
      }
      grid := SetCell(grid, x, y, 2);
      if old(AllTiles(grid)) {
        PlaceKeepsTiles(old(grid), draws);
      }
    }

    /** addTile corrected: does nothing on a full board and reports whether
        it placed a tile. */
    method TryAddTile(draws: seq<Draw>) returns (placed: bool)
      requires DrawsOk(draws) && (Full(grid) || HitsEmpty(grid, draws))
      modifies this`grid
      ensures grid == Spawn(old(grid), draws)
      ensures placed <==> !Full(old(grid))
      ensures old(AllTiles(grid)) ==> AllTiles(grid)
    {
      if Full(grid) {
        placed := false;
      } else {
        AddTile(draws);
        placed := true;
      }
    }

    method HandleKeyDown(keyCode: int)
      modifies this`offX, this`offY
      ensures Snapshot() == KeyDown(old(Snapshot()), keyCode)
      ensures old(Valid(Snapshot())) ==> Valid(Snapshot())
    {
      if Valid(Snapshot()) {
        KeyDownKeepsValid(Snapshot(), keyCode);
      }
      if Abs(offX) > 0 || Abs(offY) > 0 {
        return;
      }
      if keyCode == 87 {
        offX, offY := 0, -1;
      } else if keyCode == 83 {
        offX, offY := 0, 1;
      } else if keyCode == 68 {
        offX, offY := 1, 0;
      } else if keyCode == 65 {
        offX, offY := -1, 0;
      }
    }

    /** Writes a whole game state, one that keeps the invariant, back into
        the fields. */
    method Commit(g: Grid, ox: int, oy: int, sc: int)
      requires Valid(State(g, ox, oy, sc))
      modifies this
      ensures Snapshot() == State(g, ox, oy, sc)
    {
      grid, offX, offY, score := g, ox, oy, sc;
    }

    /** One frame: slide the offset, and once it passes a cell pitch step
        the grid, add the merge gain to the score, and either keep sliding
        (something moved) or stop and add a tile. */
    method Update(draws: seq<Draw>)
      requires Valid(Snapshot()) && Covers(draws)
      modifies this
      ensures Snapshot() == Updated(old(Snapshot()), draws)
      ensures Valid(Snapshot())
    {
      ghost var s := State(grid, offX, offY, score);
      var g, sc := grid, score;
      var ox, oy := Advance(offX), Advance(offY);
      if Abs(ox) > Pitch || Abs(oy) > Pitch {
        var moveX, moveY := Sign(ox), Sign(oy);
        ExceedingIsUnit(s.offX, s.offY);
        var next, gained, didMove := MoveStep(g, moveX, moveY);
        SteppingFrame(s, draws, moveX, moveY, next, gained, didMove);
        if didMove {
          UpdateKeepsValid(s, draws);
          Commit(next, moveX, moveY, sc + gained);
          assert Snapshot() == Updated(s, draws);
        } else {
          StuckStepIsIdentity(g, moveX, moveY);
          Commit(next, 0, 0, sc + gained);
          var _ := TryAddTile(draws);
          assert Snapshot() == Updated(s, draws);
        }
      } else {
        offX, offY := ox, oy;
        SlidingFrame(s, draws);
        assert Snapshot() == Updated(s, draws);
      }
      UpdateKeepsValid(s, draws);
    }
  }
}
