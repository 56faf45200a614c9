/**
 * Integer pixel geometry shared by the parking tracker and its web server:
 * points, axis-aligned boxes, the Euclidean threshold tests and the even-odd
 * point-in-polygon test.
 */
module Geometry {

  datatype Point = Point(x: int, y: int)

  /** A bounding box as OpenCV gives it: top-left corner, width and height. */
  datatype Box = Box(x: int, y: int, w: int, h: int)

  function Min(a: int, b: int): int { if a <= b then a else b }
  function Max(a: int, b: int): int { if a <= b then b else a }

  /** The square of the Euclidean distance between two points. */
  function DistSq(p: Point, q: Point): (d: int)
    ensures d >= 0
  {
    (p.x - q.x) * (p.x - q.x) + (p.y - q.y) * (p.y - q.y)
  }

  /** `calculate_distance(p, q) < limit`, stated on squared integers. */
  predicate Within(p: Point, q: Point, limit: nat)
  {
    DistSq(p, q) < limit * limit
  }

  /**
   * The squared test decides the same as the square-root test: for any
   * non-negative d with d * d equal to the squared distance, d < limit exactly
   * when the squared distance is below limit * limit.
   */
  lemma WithinIsEuclidean(p: Point, q: Point, limit: nat, d: real)
    requires d >= 0.0 && d * d == DistSq(p, q) as real
    ensures d < limit as real <==> Within(p, q, limit)
  {
    var k := limit as real;
    SquaresOrdered(d, k);
    assert (limit * limit) as real == k * k;
  }

  /** For non-negative reals, squaring preserves strict order both ways. */
  lemma SquaresOrdered(a: real, b: real)
    requires a >= 0.0 && b >= 0.0
    ensures a < b <==> a * a < b * b
  {
    assert b * b - a * a == (b - a) * (b + a);
    if a < b {
      ProductPositive(b - a, b + a);
    } else {
      ProductNonPositive(b - a, b + a);
    }
  }

  lemma ProductPositive(x: real, y: real)
    requires x > 0.0 && y > 0.0
    ensures x * y > 0.0
  {
  }

  lemma ProductNonPositive(x: real, y: real)
    requires x <= 0.0 && y >= 0.0
    ensures x * y <= 0.0
  {
  }

  /** The closed containment test of `check_spot_occupancy`. */
  predicate InBox(p: Point, b: Box)
  {
    b.x <= p.x <= b.x + b.w && b.y <= p.y <= b.y + b.h
  }

  /** The x coordinate where the horizontal line through y meets edge p1-p2. */
  function XInters(y: int, p1: Point, p2: Point): real
    requires p1.y != p2.y
  {
    ((y - p1.y) * (p2.x - p1.x)) as real / (p2.y - p1.y) as real + p1.x as real
  }

  /**
   * Whether edge p1-p2 flips the parity in the crossing test. The y-guards
   * exclude every horizontal edge, so XInters is only ever asked for when it
   * is defined.
   */
  predicate Toggles(pt: Point, p1: Point, p2: Point)
  {
    && pt.y > Min(p1.y, p2.y)
    && pt.y <= Max(p1.y, p2.y)
    && pt.x <= Max(p1.x, p2.x)
    && (p1.x == p2.x || pt.x as real <= XInters(pt.y, p1, p2))
  }

  /** Edge k of a polygon runs from vertex k to vertex k + 1, wrapping at the end. */
  function EdgeEnd(poly: seq<Point>, k: nat): Point
    requires k < |poly|
  {
    poly[(k + 1) % |poly|]
  }

  /** The number of edges among the first k that flip the parity. */
  function Crossings(pt: Point, poly: seq<Point>, k: nat): (c: nat)
    requires k <= |poly|
    ensures c <= k
  {
    if k == 0 then 0
    else Crossings(pt, poly, k - 1) + (if Toggles(pt, poly[k - 1], EdgeEnd(poly, k - 1)) then 1 else 0)
  }

  /** Whether an odd number of the first k edges flip the parity. */
  predicate OddCrossings(pt: Point, poly: seq<Point>, k: nat)
    requires k <= |poly|
  {
    if k == 0 then false
    else OddCrossings(pt, poly, k - 1) != Toggles(pt, poly[k - 1], EdgeEnd(poly, k - 1))
  }

  /** Inside by the even-odd rule. */
  predicate Inside(pt: Point, poly: seq<Point>)
    requires |poly| > 0
  {
    OddCrossings(pt, poly, |poly|)
  }

  /** The parity flag is the parity of the crossing count. */
  lemma {:induction false} OddCrossingsIsParity(pt: Point, poly: seq<Point>, k: nat)
    requires k <= |poly|
    ensures OddCrossings(pt, poly, k) <==> Crossings(pt, poly, k) % 2 == 1
  {
    if k > 0 {
      OddCrossingsIsParity(pt, poly, k - 1);
      var c := Crossings(pt, poly, k - 1);
      if Toggles(pt, poly[k - 1], EdgeEnd(poly, k - 1)) {
        assert Crossings(pt, poly, k) == c + 1;
        SuccessorParity(c);
      } else {
        assert Crossings(pt, poly, k) == c;
      }
    }
  }

  lemma SuccessorParity(c: nat)
    ensures (c + 1) % 2 == 1 <==> c % 2 != 1
  {
  }

  /**
   * `point_in_polygon`: walks the edges once, carrying the previous vertex,
   * and flips `inside` for each edge that the crossing test accepts.
   * `xinters` is assigned only for non-horizontal edges; that it is always
   * assigned where it is read is checked by Dafny's definite-assignment rules.
   */
  method PointInPolygon(pt: Point, poly: seq<Point>) returns (inside: bool)
    requires |poly| > 0
    ensures inside == Inside(pt, poly)
  {
    var n := |poly|;
    inside := false;
    var p1 := poly[0];
    var i := 1;
    while i <= n
      invariant 1 <= i <= n + 1
      invariant p1 == poly[(i - 1) % n]
      invariant inside == OddCrossings(pt, poly, i - 1)
    {
      WrapIndex(i, n);
      var p2 := poly[i % n];
      assert p2 == EdgeEnd(poly, i - 1);
      ghost var flips := Toggles(pt, p1, p2);
      ghost var wasInside := inside;
      var xinters: real;
      if pt.y > Min(p1.y, p2.y) {
        if pt.y <= Max(p1.y, p2.y) {
          if pt.x <= Max(p1.x, p2.x) {
            if p1.y != p2.y {
              xinters := XInters(pt.y, p1, p2);
            }
            if p1.x == p2.x || pt.x as real <= xinters {
              inside := !inside;
            }
          }
        }
      }
      assert inside == (wasInside != flips);
      p1 := p2;
      i := i + 1;
    }
  }

  lemma WrapIndex(i: int, n: int)
    requires 1 <= i <= n
    ensures (i - 1) % n == i - 1
    ensures i % n == if i < n then i else 0
  {
  }

  /** A point whose y is at most every vertex's y, or greater than every vertex's y, is never inside. */
  lemma {:induction false} OutsideVerticalRange(pt: Point, poly: seq<Point>, k: nat)
    requires k <= |poly|
    requires (forall v :: v in poly ==> pt.y <= v.y) || (forall v :: v in poly ==> pt.y > v.y)
    ensures Crossings(pt, poly, k) == 0
  {
    if k > 0 {
      OutsideVerticalRange(pt, poly, k - 1);
      assert poly[k - 1] in poly && EdgeEnd(poly, k - 1) in poly;
    }
  }

  /** A point to the right of every vertex is never inside. */
  lemma {:induction false} OutsideRightOfAll(pt: Point, poly: seq<Point>, k: nat)
    requires k <= |poly|
    requires forall v :: v in poly ==> pt.x > v.x
    ensures Crossings(pt, poly, k) == 0
  {
    if k > 0 {
      OutsideRightOfAll(pt, poly, k - 1);
      assert poly[k - 1] in poly && EdgeEnd(poly, k - 1) in poly;
    }
  }
}
