/** The 2048 board: a 4x4 grid of cell values indexed grid[x][y] with x the
    horizontal coordinate, 0 for an empty cell, and the canMove predicate
    that decides whether the tile at (x, y) can step one cell in the
    direction (dx, dy) given by the signs of the animation offset. */
module Board {

  /** grid.length: the board is N cells wide and N cells high. */
  const N: int := 4

  type Grid = g: seq<seq<int>> | |g| == N && forall x :: 0 <= x < N ==> |g[x]| == N
    witness [[0, 0, 0, 0], [0, 0, 0, 0], [0, 0, 0, 0], [0, 0, 0, 0]]

  /** The board the game starts from. */
  const Empty: Grid := [[0, 0, 0, 0], [0, 0, 0, 0], [0, 0, 0, 0], [0, 0, 0, 0]]

  /** A board coordinate, as produced by a random draw. */
  datatype Pos = Pos(x: int, y: int)

  predicate InBounds(x: int, y: int) {
    0 <= x < N && 0 <= y < N
  }

  /** The board with cell (x, y) set to v. */
  function SetCell(g: Grid, x: int, y: int, v: int): (r: Grid)
    requires InBounds(x, y)
    ensures r[x][y] == v
    ensures forall a, b :: InBounds(a, b) && (a != x || b != y) ==> r[a][b] == g[a][b]
  {
    g[x := g[x][y := v]]
  }

  /** No cell is empty. */
  predicate Full(g: Grid) {
    forall x, y | 0 <= x < N && 0 <= y < N :: g[x][y] != 0
  }

  // ---------------------------------------------------------------- tiles

  predicate IsPowerOfTwo(v: int)
    decreases v
  {
    v == 1 || (v >= 2 && v % 2 == 0 && IsPowerOfTwo(v / 2))
  }

  /** A legal cell value: empty, or a power of two no smaller than 2. */
  predicate IsTile(v: int) {
    v == 0 || (v >= 2 && IsPowerOfTwo(v))
  }

  ghost predicate AllTiles(g: Grid) {
    forall x, y {:trigger IsTile(g[x][y])} :: InBounds(x, y) ==> IsTile(g[x][y])
  }

  ghost predicate AllNonnegative(g: Grid) {
    forall x, y :: InBounds(x, y) ==> g[x][y] >= 0
  }

  lemma DoubleTile(v: int)
    requires IsTile(v) && v > 0
    ensures IsTile(2 * v) && 2 * v > 0
  {
    assert (2 * v) / 2 == v;
  }

  lemma EmptyHasOnlyTiles()
    ensures AllTiles(Empty) && !Full(Empty)
  {
    assert Empty[0][0] == 0;
  }

  lemma TilesAreNonnegative(g: Grid)
    requires AllTiles(g)
    ensures AllNonnegative(g)
  {
    forall x, y | InBounds(x, y) ensures g[x][y] >= 0 {
      assert IsTile(g[x][y]);
    }
  }

  // --------------------------------------------------------------- canMove

  /** A direction a tile is pushed in: exactly one component is +1 or -1. */
  predicate IsUnit(dx: int, dy: int) {
    (dx == 0 && (dy == 1 || dy == -1)) || (dy == 0 && (dx == 1 || dx == -1))
  }

  /** How many cells (x, y) can still travel in direction (dx, dy) before
      it reaches the wall; every recursive call of CanMove lowers it. */
  function WallDistance(dx: int, dy: int, x: int, y: int): (n: nat)
    requires InBounds(x, y)
  {
    (if dx > 0 then N - 1 - x else if dx < 0 then x else 0) +
    (if dy > 0 then N - 1 - y else if dy < 0 then y else 0)
  }

  /** canMove(x, y): the destination must be on the board, and a destination
      that holds a different non-zero value must itself be able to move on.
      An empty source cell is not excluded here; callers check that. */
  function CanMove(g: Grid, dx: int, dy: int, x: int, y: int): (r: bool)
    requires InBounds(x, y)
    ensures r ==> InBounds(x + dx, y + dy)
    ensures dx == 0 && dy == 0 ==> r
    decreases WallDistance(dx, dy, x, y)
  {
    var tx, ty := x + dx, y + dy;
    if !InBounds(tx, ty) then false
    else if g[tx][ty] != 0 && g[tx][ty] != g[x][y] && !CanMove(g, dx, dy, tx, ty) then false
    else true
  }

  /** The number of canMove invocations one call of CanMove makes, itself
      included: at most one per cell between (x, y) and the wall. */
  function Calls(g: Grid, dx: int, dy: int, x: int, y: int): (n: nat)
    requires InBounds(x, y) && IsUnit(dx, dy)
    ensures 1 <= n <= WallDistance(dx, dy, x, y) + 1 <= N
    decreases WallDistance(dx, dy, x, y)
  {
    var tx, ty := x + dx, y + dy;
    if !InBounds(tx, ty) then 1
    else if g[tx][ty] != 0 && g[tx][ty] != g[x][y] then 1 + Calls(g, dx, dy, tx, ty)
    else 1
  }

  /** (a, b) lies strictly ahead of (x, y) in its lane, in direction (dx, dy). */
  predicate Ahead(dx: int, dy: int, x: int, y: int, a: int, b: int) {
    (dx == 1 && b == y && a > x) || (dx == -1 && b == y && a < x) ||
    (dy == 1 && a == x && b > y) || (dy == -1 && a == x && b < y)
  }

  /** Cell (a, b) is empty or equal to the cell just behind it. */
  predicate Opening(g: Grid, dx: int, dy: int, a: int, b: int)
    requires InBounds(a, b) && InBounds(a - dx, b - dy)
  {
    g[a][b] == 0 || g[a][b] == g[a - dx][b - dy]
  }

  /** Somewhere ahead of (x, y) in its lane there is a gap (the tile itself
      counting as the cell behind the first one). */
  ghost predicate HasRoom(g: Grid, dx: int, dy: int, x: int, y: int)
    requires InBounds(x, y) && IsUnit(dx, dy)
  {
    exists a, b :: InBounds(a, b) && Ahead(dx, dy, x, y, a, b) && Opening(g, dx, dy, a, b)
  }

  /** canMove, read without recursion: a tile can step exactly when there is
      room ahead of it in its lane. */
  lemma {:induction false} CanMoveIffRoom(g: Grid, dx: int, dy: int, x: int, y: int)
    requires InBounds(x, y) && IsUnit(dx, dy)
    ensures CanMove(g, dx, dy, x, y) <==> HasRoom(g, dx, dy, x, y)
    decreases WallDistance(dx, dy, x, y)
  {
    var tx, ty := x + dx, y + dy;
    if !InBounds(tx, ty) {
      assert !HasRoom(g, dx, dy, x, y);
    } else {
      CanMoveIffRoom(g, dx, dy, tx, ty);
      if g[tx][ty] == 0 || g[tx][ty] == g[x][y] {
        assert Ahead(dx, dy, x, y, tx, ty);
      } else if HasRoom(g, dx, dy, tx, ty) {
        var a, b :| InBounds(a, b) && Ahead(dx, dy, tx, ty, a, b) && Opening(g, dx, dy, a, b);
        assert Ahead(dx, dy, x, y, a, b);
      } else {
        forall a, b | InBounds(a, b) && Ahead(dx, dy, x, y, a, b)
          ensures !Opening(g, dx, dy, a, b)
        {
          if a != tx || b != ty {
            assert Ahead(dx, dy, tx, ty, a, b);
          }
        }
      }
    }
  }

  /** A full board with no two equal neighbours along the lanes of (dx, dy)
      lets no tile step in that direction. */
  lemma FullWithoutPairsCannotMove(g: Grid, dx: int, dy: int, x: int, y: int)
    requires IsUnit(dx, dy) && InBounds(x, y) && Full(g)
    requires forall a, b :: InBounds(a, b) && InBounds(a - dx, b - dy) ==> g[a][b] != g[a - dx][b - dy]
    ensures !CanMove(g, dx, dy, x, y)
  {
    CanMoveIffRoom(g, dx, dy, x, y);
  }
}
