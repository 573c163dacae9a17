/** The slide animation: a key press sets the offset to a unit vector, every
    frame pushes the non-zero component ANIM_SPEED pixels further from the
    origin, and the grid steps once the offset exceeds one cell pitch
    (SQUARE_SIZE + GAP pixels). */
module Animation {
  import opened Board

  const SquareSize: int := 80
  const Gap: int := 10
  const AnimSpeed: int := 8

  /** The distance between the corners of two neighbouring cells. */
  const Pitch: int := SquareSize + Gap

  /** Math.abs on an integer. */
  function Abs(v: int): (r: int)
    ensures r >= 0 && (r == v || r == -v)
  {
    if v < 0 then -v else v
  }

  /** The one-cell direction read off an offset component (moveX, moveY). */
  function Sign(v: int): (r: int)
    ensures -1 <= r <= 1
    ensures r == 1 <==> v > 0
    ensures r == -1 <==> v < 0
  {
    if v > 0 then 1 else if v < 0 then -1 else 0
  }

  /** One frame of animation on one component: away from zero by AnimSpeed. */
  function Advance(v: int): (r: int)
    ensures v == 0 ==> r == 0
    ensures v != 0 ==> Sign(r) == Sign(v) && Abs(r) == Abs(v) + AnimSpeed
  {
    if v < 0 then v - AnimSpeed else if v > 0 then v + AnimSpeed else v
  }

  /** The offset has travelled more than one cell pitch: the grid steps. */
  predicate Exceeds(ox: int, oy: int) {
    Abs(ox) > Pitch || Abs(oy) > Pitch
  }

  /** A component after k frames without a grid step. */
  function Grow(v: int, k: nat): (r: int) {
    if k == 0 then v else Advance(Grow(v, k - 1))
  }

  /** A key press's unit component moves AnimSpeed pixels per frame and keeps
      its direction. */
  lemma {:induction false} GrowUnit(u: int, k: nat)
    requires u == 1 || u == -1
    ensures Abs(Grow(u, k)) == 1 + 8 * k
    ensures Sign(Grow(u, k)) == u
  {
    if k > 0 {
      GrowUnit(u, k - 1);
    }
  }

  /** The component that is zero stays zero. */
  lemma {:induction false} GrowZero(k: nat)
    ensures Grow(0, k) == 0
  {
    if k > 0 {
      GrowZero(k - 1);
    }
  }

  /** The unit component passes the cell pitch exactly from the twelfth frame on. */
  lemma TwelveFrames(u: int, k: nat)
    requires u == 1 || u == -1
    ensures Abs(Grow(u, k)) > Pitch <==> k >= 12
  {
    GrowUnit(u, k);
  }

  /** One offset component between frames: at rest, or 1 + 8 * k pixels
      out (8 being AnimSpeed) for some k, at most one cell pitch. */
  predicate ComponentValid(v: int) {
    v == 0 || (Abs(v) % 8 == 1 && Abs(v) <= Pitch)
  }

  /** The offset between frames: at most one component is moving. */
  predicate OffsetValid(ox: int, oy: int) {
    (ox == 0 || oy == 0) && ComponentValid(ox) && ComponentValid(oy)
  }

  /** A key press's offset, and the offset after a step that moved something. */
  lemma UnitIsValid(dx: int, dy: int)
    requires IsUnit(dx, dy)
    ensures OffsetValid(dx, dy)
  {
  }

  /** A frame that does not step keeps the offset valid. */
  lemma AdvanceKeepsValid(ox: int, oy: int)
    requires OffsetValid(ox, oy) && !Exceeds(Advance(ox), Advance(oy))
    ensures OffsetValid(Advance(ox), Advance(oy))
  {
  }

  /** A frame that steps moves in exactly one unit direction. */
  lemma ExceedingIsUnit(ox: int, oy: int)
    requires OffsetValid(ox, oy) && Exceeds(Advance(ox), Advance(oy))
    ensures IsUnit(Sign(Advance(ox)), Sign(Advance(oy)))
  {
  }
}
