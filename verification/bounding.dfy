/** Bounding extraction and normalisation for axis-aligned boxes
    (`georithm::detail::left/right/top/bottom` and `makeBoundingRect`, together
    with the public `georithm::` functions, which forward to them unchanged).

    A box is stored as a corner `position` and a signed `span` to the opposite
    corner; either span component may be negative, so the box has no fixed
    orientation. The four extractions are where that sign is normalised away:
    x grows to the right and y grows downwards, so `top` is the smaller y. */
module Bounding {
  import opened Vectors

  /** A vector of dimension two. */
  type Vector2 = v: Vector | |v| == 2 witness [0, 0]

  /** `AABB_t<int>`: a corner and the signed span to the opposite corner. */
  datatype Aabb = Aabb(position: Vector2, span: Vector2)

  /** What the geometric traits of a box supply and this model leaves
      undefined: the null predicate `isNull` and the vertex count. Both only
      ever appear in preconditions. */
  datatype Traits = Traits(isNull: Aabb -> bool, vertexCount: Aabb -> nat)

  /** `std::min`, which returns its first argument on a tie. */
  function Min(a: int, b: int): (m: int)
    ensures m <= a && m <= b
    ensures m == a || m == b
  {
    if b < a then b else a
  }

  /** `std::max`, which returns its first argument on a tie. */
  function Max(a: int, b: int): (m: int)
    ensures m >= a && m >= b
    ensures m == a || m == b
  {
    if a < b then b else a
  }

  /** The x coordinate of the corner opposite `position`. */
  function FarX(box: Aabb): (x: int) {
    X(box.position) + X(box.span)
  }

  /** The y coordinate of the corner opposite `position`. */
  function FarY(box: Aabb): (y: int) {
    Y(box.position) + Y(box.span)
  }

  // ---------------------------------------------------------------------------
  // Extraction
  // ---------------------------------------------------------------------------

  /** `left`: the smaller x of the two corners. */
  function Left(traits: Traits, box: Aabb): (l: int)
    requires !traits.isNull(box)
    ensures l <= X(box.position) && l <= FarX(box)
    ensures l == X(box.position) || l == FarX(box)
  {
    Min(X(box.position), X(box.position) + X(box.span))
  }

  /** `right`: the larger x of the two corners. */
  function Right(traits: Traits, box: Aabb): (r: int)
    requires !traits.isNull(box)
    ensures r >= X(box.position) && r >= FarX(box)
    ensures r == X(box.position) || r == FarX(box)
  {
    Max(X(box.position), X(box.position) + X(box.span))
  }

  /** `top`: the smaller y of the two corners. */
  function Top(traits: Traits, box: Aabb): (t: int)
    requires !traits.isNull(box)
    ensures t <= Y(box.position) && t <= FarY(box)
    ensures t == Y(box.position) || t == FarY(box)
  {
    Min(Y(box.position), Y(box.position) + Y(box.span))
  }

  /** `bottom`: the larger y of the two corners. */
  function Bottom(traits: Traits, box: Aabb): (b: int)
    requires !traits.isNull(box)
    ensures b >= Y(box.position) && b >= FarY(box)
    ensures b == Y(box.position) || b == FarY(box)
  {
    Max(Y(box.position), Y(box.position) + Y(box.span))
  }

  // ---------------------------------------------------------------------------
  // Normalisation
  // ---------------------------------------------------------------------------

  /** `makeBoundingRect` on a box: the same box with its corner moved to
      `(left, top)`, so that the span to the opposite corner `(right, bottom)`
      is non-negative in both axes. The difference of the two corners is the
      binary `-`, a copy of the left operand followed by `-=`. */
  function MakeBoundingRect(traits: Traits, box: Aabb): (r: Aabb)
    requires !traits.isNull(box) && 2 <= traits.vertexCount(box)
    ensures X(r.span) >= 0 && Y(r.span) >= 0
    ensures r.position == Make2(Left(traits, box), Top(traits, box))
    ensures r.span == Make2(Right(traits, box) - Left(traits, box), Bottom(traits, box) - Top(traits, box))
    ensures AddAssign(r.position, r.span) == Make2(Right(traits, box), Bottom(traits, box))
  {
    var position := Make2(Left(traits, box), Top(traits, box));
    Aabb(position, SubAssign(Make2(Right(traits, box), Bottom(traits, box)), position))
  }

  // ---------------------------------------------------------------------------
  // Laws
  // ---------------------------------------------------------------------------

  /** The extents are ordered: `left <= right` and `top <= bottom`. */
  lemma ExtentsOrdered(traits: Traits, box: Aabb)
    requires !traits.isNull(box)
    ensures Left(traits, box) <= Right(traits, box)
    ensures Top(traits, box) <= Bottom(traits, box)
  {
  }

  /** `{left, right}` are exactly the two corners' x coordinates and
      `{top, bottom}` exactly their y coordinates. */
  lemma ExtentsAreCorners(traits: Traits, box: Aabb)
    requires !traits.isNull(box)
    ensures {Left(traits, box), Right(traits, box)} == {X(box.position), FarX(box)}
    ensures {Top(traits, box), Bottom(traits, box)} == {Y(box.position), FarY(box)}
  {
  }

  /** The same box described from its opposite corner: `position + span` with
      the span negated. */
  function Flip(box: Aabb): (f: Aabb)
    ensures FarX(f) == X(box.position) && FarY(f) == Y(box.position)
    ensures X(f.position) == FarX(box) && Y(f.position) == FarY(box)
  {
    Aabb(AddAssign(box.position, box.span), ScalarTimes(-1, box.span))
  }

  /** Flipping a box's orientation leaves all four extents unchanged. */
  lemma FlipKeepsExtents(traits: Traits, box: Aabb)
    requires !traits.isNull(box) && !traits.isNull(Flip(box))
    ensures Left(traits, Flip(box)) == Left(traits, box)
    ensures Right(traits, Flip(box)) == Right(traits, box)
    ensures Top(traits, Flip(box)) == Top(traits, box)
    ensures Bottom(traits, Flip(box)) == Bottom(traits, box)
  {
  }

  /** A box and its flip normalise to the same rectangle. */
  lemma FlipKeepsBoundingRect(traits: Traits, box: Aabb)
    requires !traits.isNull(box) && 2 <= traits.vertexCount(box)
    requires !traits.isNull(Flip(box)) && 2 <= traits.vertexCount(Flip(box))
    ensures MakeBoundingRect(traits, Flip(box)) == MakeBoundingRect(traits, box)
  {
    FlipKeepsExtents(traits, box);
  }

  /** Normalising keeps the four extents, whenever its result is itself a
      box the extractions accept. */
  lemma MakeBoundingRectKeepsExtents(traits: Traits, box: Aabb)
    requires !traits.isNull(box) && 2 <= traits.vertexCount(box)
    requires !traits.isNull(MakeBoundingRect(traits, box))
    ensures Left(traits, MakeBoundingRect(traits, box)) == Left(traits, box)
    ensures Right(traits, MakeBoundingRect(traits, box)) == Right(traits, box)
    ensures Top(traits, MakeBoundingRect(traits, box)) == Top(traits, box)
    ensures Bottom(traits, MakeBoundingRect(traits, box)) == Bottom(traits, box)
  {
  }

  /** A box whose span is already non-negative in both axes comes back unchanged. */
  lemma NormalBoxUnchanged(traits: Traits, box: Aabb)
    requires !traits.isNull(box) && 2 <= traits.vertexCount(box)
    requires X(box.span) >= 0 && Y(box.span) >= 0
    ensures MakeBoundingRect(traits, box) == box
  {
  }

  /** `makeBoundingRect` is idempotent, whenever its result is itself a legal
      argument. */
  lemma MakeBoundingRectIdempotent(traits: Traits, box: Aabb)
    requires !traits.isNull(box) && 2 <= traits.vertexCount(box)
    requires !traits.isNull(MakeBoundingRect(traits, box))
    requires 2 <= traits.vertexCount(MakeBoundingRect(traits, box))
    ensures MakeBoundingRect(traits, MakeBoundingRect(traits, box)) == MakeBoundingRect(traits, box)
  {
    NormalBoxUnchanged(traits, MakeBoundingRect(traits, box));
  }

  /** `v` lies between `a` and `b`, in whichever order those two come. */
  predicate Between(v: int, a: int, b: int) {
    (a <= v <= b) || (b <= v <= a)
  }

  /** The point `(x, y)` lies in the box, on its border included. */
  predicate Covers(box: Aabb, x: int, y: int) {
    Between(x, X(box.position), FarX(box)) && Between(y, Y(box.position), FarY(box))
  }

  /** A point lies in a box exactly when it lies within its four extents. */
  lemma CoversWithinExtents(traits: Traits, box: Aabb, x: int, y: int)
    requires !traits.isNull(box)
    ensures Covers(box, x, y) <==>
      Left(traits, box) <= x <= Right(traits, box) && Top(traits, box) <= y <= Bottom(traits, box)
  {
  }

  /** Normalising changes only how the box is described: the result covers
      exactly the points the input covers. */
  lemma MakeBoundingRectKeepsPoints(traits: Traits, box: Aabb, x: int, y: int)
    requires !traits.isNull(box) && 2 <= traits.vertexCount(box)
    ensures Covers(MakeBoundingRect(traits, box), x, y) <==> Covers(box, x, y)
  {
  }

  // ---------------------------------------------------------------------------
  // Worked examples
  // ---------------------------------------------------------------------------

  /** Position (2, 2) and span (3, -5) give left 2, right 5, top -3, bottom 2. */
  lemma ExtentsExample(traits: Traits)
    requires !traits.isNull(Aabb([2, 2], [3, -5]))
    ensures Left(traits, Aabb([2, 2], [3, -5])) == 2
    ensures Right(traits, Aabb([2, 2], [3, -5])) == 5
    ensures Top(traits, Aabb([2, 2], [3, -5])) == -3
    ensures Bottom(traits, Aabb([2, 2], [3, -5])) == 2
  {
  }

  /** Position (0, 0) and span (-4, 6) normalise to position (-4, 0) and span (4, 6). */
  lemma MakeBoundingRectExample(traits: Traits)
    requires !traits.isNull(Aabb([0, 0], [-4, 6])) && 2 <= traits.vertexCount(Aabb([0, 0], [-4, 6]))
    ensures MakeBoundingRect(traits, Aabb([0, 0], [-4, 6])) == Aabb([-4, 0], [4, 6])
  {
  }
}
