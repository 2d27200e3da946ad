/** The contract of the exact orientation predicate of the geometric kernel.
    The adaptive floating-point evaluation is not modelled: its promise is to
    return the true sign of the orientation determinant, and that sign is
    what is computed here over the reals. */
module Kernel {

  datatype Point = Point(x: real, y: real)

  datatype Side = OnNegativeSide | OnOrientedBoundary | OnPositiveSide

  /** Twice the signed area of triangle (a, b, c): positive when c lies to
      the left of the directed line a -> b. */
  function Orient2d(a: Point, b: Point, c: Point): real
  {
    (b.x - a.x) * (c.y - a.y) - (b.y - a.y) * (c.x - a.x)
  }

  /** The three-way sign of the orientation determinant. */
  function OrientedSide(a: Point, b: Point, test: Point): (s: Side)
    ensures s == OnPositiveSide <==> Orient2d(a, b, test) > 0.0
    ensures s == OnNegativeSide <==> Orient2d(a, b, test) < 0.0
    ensures s == OnOrientedBoundary <==> Orient2d(a, b, test) == 0.0
  {
    var r := Orient2d(a, b, test);
    if r > 0.0 then OnPositiveSide
    else if r < 0.0 then OnNegativeSide
    else OnOrientedBoundary
  }

  function Opposite(s: Side): Side
  {
    match s
    case OnNegativeSide => OnPositiveSide
    case OnOrientedBoundary => OnOrientedBoundary
    case OnPositiveSide => OnNegativeSide
  }

  /** Rotating the three arguments does not change the determinant. */
  lemma Orient2dCyclic(a: Point, b: Point, c: Point)
    ensures Orient2d(a, b, c) == Orient2d(b, c, a) == Orient2d(c, a, b)
  {
  }

  /** Swapping the two points of the line negates the determinant. */
  lemma Orient2dSwap(a: Point, b: Point, c: Point)
    ensures Orient2d(b, a, c) == -Orient2d(a, b, c)
  {
  }

  /** Swapping the last two points negates the orientation. */
  lemma Orient2dSwapLast(a: Point, b: Point, c: Point)
    ensures Orient2d(a, c, b) == -Orient2d(a, b, c)
  {
  }

  /** A degenerate triangle (a repeated point) has zero orientation. */
  lemma Orient2dRepeated(a: Point, b: Point)
    ensures Orient2d(a, b, a) == 0.0 && Orient2d(a, b, b) == 0.0 && Orient2d(a, a, b) == 0.0
  {
  }

  /** Swapping the two points of the line swaps the side of every test point. */
  lemma OrientedSideAntisymmetric(a: Point, b: Point, test: Point)
    ensures OrientedSide(b, a, test) == Opposite(OrientedSide(a, b, test))
  {
    Orient2dSwap(a, b, test);
  }

  /** The side is invariant under cyclic rotation of the three points. */
  lemma OrientedSideCyclic(a: Point, b: Point, c: Point)
    ensures OrientedSide(a, b, c) == OrientedSide(b, c, a) == OrientedSide(c, a, b)
  {
    Orient2dCyclic(a, b, c);
  }
}
