/** Planar geometry of the region-of-interest tools: points, circles, the
    crossing-parity point-in-polygon test, the point-in-circle test and the
    shoelace area. Coordinates are exact reals; every comparison the source
    makes on a square root is made here on squares. */
module Geometry {

  /** A position in image coordinates (pixels). */
  datatype Point = Point(x: real, y: real)

  /** A drawn circle: its centre and its radius. */
  datatype Circle = Circle(center: Point, radius: real)

  function Min(a: real, b: real): real { if a <= b then a else b }

  function Max(a: real, b: real): real { if a >= b then a else b }

  function Abs(a: real): real { if a >= 0.0 then a else -a }

  /** Squared Euclidean distance between two points. */
  function SqDist(p: Point, q: Point): (d: real)
    ensures d >= 0.0
  {
    (p.x - q.x) * (p.x - q.x) + (p.y - q.y) * (p.y - q.y)
  }

  lemma MultiplyMonotone(c: real, x: real, y: real)
    requires c >= 0.0 && x <= y
    ensures c * x <= c * y
  {
  }

  lemma PositiveProduct(x: real, y: real)
    requires x > 0.0 && y > 0.0
    ensures x * y > 0.0
  {
  }

  /** For non-negative a and b, comparing a and b is comparing their squares. */
  lemma SquareMonotone(a: real, b: real)
    requires a >= 0.0 && b >= 0.0
    ensures a <= b <==> a * a <= b * b
  {
    if a <= b {
      MultiplyMonotone(a, a, b);
      MultiplyMonotone(b, a, b);
    } else {
      PositiveProduct(a - b, a + b);
      assert (a - b) * (a + b) == a * a - b * b;
    }
  }

  // ---------------------------------------------------------------------------
  // Crossing-parity (ray casting) point-in-polygon test

  /** Abscissa where the horizontal line at height y meets the line through a
      and b; only defined for an edge that is not horizontal. */
  function XIntersect(y: real, a: Point, b: Point): real
    requires a.y != b.y
  {
    (y - a.y) * (b.x - a.x) / (b.y - a.y) + a.x
  }

  /** The edge from a to b toggles the parity for point p: p lies strictly above
      the lower end, at or below the upper end, not to the right of the edge's
      rightmost end, and (for a slanted edge) at or left of where the edge
      meets p's horizontal line. */
  predicate Crosses(p: Point, a: Point, b: Point)
  {
    p.y > Min(a.y, b.y) && p.y <= Max(a.y, b.y) && p.x <= Max(a.x, b.x) &&
    (a.x == b.x || p.x <= XIntersect(p.y, a, b))
  }

  /** A horizontal edge never passes the two height tests, so the division in
      XIntersect is only ever evaluated for slanted edges. */
  lemma HorizontalEdgeNeverCrosses(p: Point, a: Point, b: Point)
    requires a.y == b.y
    ensures !Crosses(p, a, b)
  {
  }

  /** The loop of the test runs over i = 0 .. n and looks at the edge from
      vertex StartIndex(n, i) to vertex EndIndex(n, i): first the degenerate
      edge from vertex 0 to itself, then each side, ending with the closing side
      from the last vertex back to vertex 0. */
  function StartIndex(n: nat, i: nat): (k: nat)
    requires 0 < n && i <= n
    ensures k < n
  {
    if i == 0 then 0 else i - 1
  }

  function EndIndex(n: nat, i: nat): (k: nat)
    requires 0 < n && i <= n
    ensures k < n
  {
    if i < n then i else 0
  }

  /** Over the loop's range, the source's `i % n` is EndIndex. */
  lemma EndIndexIsRemainder(n: nat, i: nat)
    requires 0 < n && i <= n
    ensures i % n == EndIndex(n, i)
  {
    if i == n {
      assert i == 1 * n + 0;
    }
  }

  /** Number of the first k loop steps whose edge toggles the parity. */
  function CrossCount(p: Point, polygon: seq<Point>, k: nat): nat
    requires 0 < |polygon| && k <= |polygon| + 1
  {
    if k == 0 then 0
    else
      var n := |polygon|;
      CrossCount(p, polygon, k - 1) +
      (if Crosses(p, polygon[StartIndex(n, k - 1)], polygon[EndIndex(n, k - 1)]) then 1 else 0)
  }

  /** The crossing-parity verdict: an odd number of toggling edges. */
  predicate InsidePolygon(p: Point, polygon: seq<Point>)
    requires 0 < |polygon|
  {
    CrossCount(p, polygon, |polygon| + 1) % 2 == 1
  }

  /** One loop step: the edge from the rolled-along previous vertex to vertex
      i % n is the edge CrossCount adds at step i, and the previous vertex of
      the next step is that vertex. */
  lemma CrossCountStep(p: Point, polygon: seq<Point>, i: nat)
    requires 0 < |polygon| && i <= |polygon|
    ensures CrossCount(p, polygon, i + 1) == CrossCount(p, polygon, i) +
      (if Crosses(p, polygon[StartIndex(|polygon|, i)], polygon[i % |polygon|]) then 1 else 0)
    ensures i < |polygon| ==> StartIndex(|polygon|, i + 1) == i % |polygon|
  {
    EndIndexIsRemainder(|polygon|, i);
  }

  /** The body of the source's loop for one edge: the height tests, the
      rightmost-end test, then the crossing abscissa, which is only computed
      for a slanted edge (a horizontal one never gets that far). */
  method EdgeToggles(p: Point, p1: Point, p2: Point) returns (toggles: bool)
    ensures toggles == Crosses(p, p1, p2)
  {
    toggles := false;
    if p.y > Min(p1.y, p2.y) {
      if p.y <= Max(p1.y, p2.y) {
        if p.x <= Max(p1.x, p2.x) {
          var xinters := 0.0;
          if p1.y != p2.y {
            xinters := XIntersect(p.y, p1, p2);
          }
          toggles := p1.x == p2.x || p.x <= xinters;
        }
      }
    }
  }

  /** The source's loop: toggle `inside` for every crossing edge while rolling
      the previous vertex along. The polygon must have a first vertex (the source
      reads it before the loop). */
  method PointInPolygon(p: Point, polygon: seq<Point>) returns (inside: bool)
    requires 0 < |polygon|
    ensures inside == InsidePolygon(p, polygon)
  {
    var n := |polygon|;
    inside := false;
    var p1 := polygon[0];
    for i := 0 to n + 1
      invariant inside == (CrossCount(p, polygon, i) % 2 == 1)
      invariant i <= n ==> p1 == polygon[StartIndex(n, i)]
    {
      var p2 := polygon[i % n];
      CrossCountStep(p, polygon, i);
      ghost var c := CrossCount(p, polygon, i);
      assert (c + 1) % 2 == 1 <==> c % 2 != 1;
      var toggles := EdgeToggles(p, p1, p2);
      if toggles {
        inside := !inside;
      }
      p1 := p2;
    }
  }

  /** No toggling edge among the first k steps means a count of zero. */
  lemma {:induction false} NoCrossingsCountZero(p: Point, polygon: seq<Point>, k: nat)
    requires 0 < |polygon| && k <= |polygon| + 1
    requires forall i :: 0 <= i < k ==>
      !Crosses(p, polygon[StartIndex(|polygon|, i)], polygon[EndIndex(|polygon|, i)])
    ensures CrossCount(p, polygon, k) == 0
  {
    if k > 0 {
      NoCrossingsCountZero(p, polygon, k - 1);
    }
  }

  /** A point at or below the lowest vertex height is outside. */
  lemma OutsideWhenNotAboveAnyVertex(p: Point, polygon: seq<Point>)
    requires 0 < |polygon|
    requires forall v :: 0 <= v < |polygon| ==> p.y <= polygon[v].y
    ensures !InsidePolygon(p, polygon)
  {
    var n := |polygon|;
    forall i | 0 <= i < n + 1
      ensures !Crosses(p, polygon[StartIndex(n, i)], polygon[EndIndex(n, i)])
    {
      var a, b := polygon[StartIndex(n, i)], polygon[EndIndex(n, i)];
      assert p.y <= a.y && p.y <= b.y;
    }
    NoCrossingsCountZero(p, polygon, n + 1);
  }

  /** A point strictly above the highest vertex height is outside. */
  lemma OutsideWhenAboveEveryVertex(p: Point, polygon: seq<Point>)
    requires 0 < |polygon|
    requires forall v :: 0 <= v < |polygon| ==> p.y > polygon[v].y
    ensures !InsidePolygon(p, polygon)
  {
    var n := |polygon|;
    forall i | 0 <= i < n + 1
      ensures !Crosses(p, polygon[StartIndex(n, i)], polygon[EndIndex(n, i)])
    {
      var a, b := polygon[StartIndex(n, i)], polygon[EndIndex(n, i)];
      assert p.y > a.y && p.y > b.y;
    }
    NoCrossingsCountZero(p, polygon, n + 1);
  }

  /** A point strictly right of every vertex is outside. */
  lemma OutsideWhenRightOfEveryVertex(p: Point, polygon: seq<Point>)
    requires 0 < |polygon|
    requires forall v :: 0 <= v < |polygon| ==> p.x > polygon[v].x
    ensures !InsidePolygon(p, polygon)
  {
    var n := |polygon|;
    forall i | 0 <= i < n + 1
      ensures !Crosses(p, polygon[StartIndex(n, i)], polygon[EndIndex(n, i)])
    {
      var a, b := polygon[StartIndex(n, i)], polygon[EndIndex(n, i)];
      assert p.x > a.x && p.x > b.x;
    }
    NoCrossingsCountZero(p, polygon, n + 1);
  }

  /** The axis-aligned square with corners (0,0) and (1,1), listed counter-clockwise. */
  function UnitSquare(): seq<Point>
  {
    [Point(0.0, 0.0), Point(1.0, 0.0), Point(1.0, 1.0), Point(0.0, 1.0)]
  }

  /** The half-open rule on a square: its centre is inside, a point on its lower
      side is outside, a point on its upper side is inside. */
  lemma UnitSquareBoundaries()
    ensures InsidePolygon(Point(0.5, 0.5), UnitSquare())
    ensures !InsidePolygon(Point(0.5, 0.0), UnitSquare())
    ensures InsidePolygon(Point(0.5, 1.0), UnitSquare())
  {
    var sq := UnitSquare();
    assert CrossCount(Point(0.5, 0.5), sq, 5) == 1 by {
      assert Crosses(Point(0.5, 0.5), sq[1], sq[2]);
      assert !Crosses(Point(0.5, 0.5), sq[3], sq[0]);
    }
    assert CrossCount(Point(0.5, 0.0), sq, 5) == 0;
    assert CrossCount(Point(0.5, 1.0), sq, 5) == 1 by {
      assert Crosses(Point(0.5, 1.0), sq[1], sq[2]);
    }
  }

  // ---------------------------------------------------------------------------
  // Point in circle

  /** The distance test `distance <= radius`, with the boundary counted as
      inside, written on squares: a negative radius contains nothing. */
  predicate InCircle(p: Point, c: Circle): (inside: bool)
    ensures c.radius < 0.0 ==> !inside
    ensures c.radius >= 0.0 && p == c.center ==> inside
  {
    c.radius >= 0.0 && SqDist(p, c.center) <= c.radius * c.radius
  }

  /** InCircle is exactly the source's test on the Euclidean distance d. */
  lemma InCircleIsDistanceTest(p: Point, c: Circle, d: real)
    requires d >= 0.0 && d * d == SqDist(p, c.center)
    ensures InCircle(p, c) <==> d <= c.radius
  {
    if c.radius >= 0.0 {
      SquareMonotone(d, c.radius);
    }
  }

  // ---------------------------------------------------------------------------
  // Shoelace area

  /** Index of the vertex before vertex i, cyclically (what rolling the
      coordinate column by one position pairs vertex i with). */
  function Prev(n: nat, i: nat): (k: nat)
    requires i < n
    ensures k < n
  {
    if i == 0 then n - 1 else i - 1
  }

  /** Term i of the shoelace sum: x_i * y_(i-1) - y_i * x_(i-1). */
  function ShoelaceTerm(polygon: seq<Point>, i: nat): real
    requires i < |polygon|
  {
    var q := polygon[Prev(|polygon|, i)];
    polygon[i].x * q.y - polygon[i].y * q.x
  }

  function ShoelaceSum(polygon: seq<Point>, k: nat): real
    requires k <= |polygon|
  {
    if k == 0 then 0.0 else ShoelaceSum(polygon, k - 1) + ShoelaceTerm(polygon, k - 1)
  }

  /** Half the absolute shoelace sum. The source slices the coordinate columns
      of the vertex array, which fails for a polygon with no vertices. */
  function PolygonArea(polygon: seq<Point>): (area: real)
    requires |polygon| > 0
    ensures area >= 0.0
  {
    0.5 * Abs(ShoelaceSum(polygon, |polygon|))
  }

  /** One or two vertices enclose no area. */
  lemma DegenerateArea(polygon: seq<Point>)
    requires 0 < |polygon| < 3
    ensures PolygonArea(polygon) == 0.0
  {
    if |polygon| == 2 {
      var a, b := polygon[0], polygon[1];
      assert ShoelaceSum(polygon, 1) == a.x * b.y - a.y * b.x;
      assert ShoelaceSum(polygon, 2) == (a.x * b.y - a.y * b.x) + (b.x * a.y - b.y * a.x);
    } else if |polygon| == 1 {
      assert ShoelaceSum(polygon, 1) == polygon[0].x * polygon[0].y - polygon[0].y * polygon[0].x;
    }
  }

  lemma AbsProduct(a: real, b: real)
    ensures Abs(a * b) == Abs(a) * Abs(b)
  {
  }

  /** An axis-aligned rectangle, listed corner by corner, has area
      width times height, whichever way round its corners are given. */
  lemma RectangleArea(x0: real, y0: real, x1: real, y1: real)
    ensures PolygonArea([Point(x0, y0), Point(x1, y0), Point(x1, y1), Point(x0, y1)])
         == Abs(x1 - x0) * Abs(y1 - y0)
  {
    var r := [Point(x0, y0), Point(x1, y0), Point(x1, y1), Point(x0, y1)];
    assert ShoelaceSum(r, 1) == x0 * y1 - y0 * x0;
    assert ShoelaceSum(r, 2) == ShoelaceSum(r, 1) + (x1 * y0 - y0 * x0);
    assert ShoelaceSum(r, 3) == ShoelaceSum(r, 2) + (x1 * y0 - y1 * x1);
    assert ShoelaceSum(r, 4) == ShoelaceSum(r, 3) + (x0 * y1 - y1 * x1);
    assert ShoelaceSum(r, 4) ==
      (x0 * y1 - y0 * x0) + (x1 * y0 - y0 * x0) + (x1 * y0 - y1 * x1) + (x0 * y1 - y1 * x1);
    assert ShoelaceSum(r, 4) == -2.0 * ((x1 - x0) * (y1 - y0));
    AbsProduct(-2.0, (x1 - x0) * (y1 - y0));
    AbsProduct(x1 - x0, y1 - y0);
  }

  /** Moving every vertex by (dx, dy). */
  function Translate(polygon: seq<Point>, dx: real, dy: real): (t: seq<Point>)
    ensures |t| == |polygon|
  {
    seq(|polygon|, i requires 0 <= i < |polygon| => Point(polygon[i].x + dx, polygon[i].y + dy))
  }

  /** The partial sums of a translated polygon differ from the original ones by
      a telescoping remainder that depends only on vertex k-1 and the last vertex. */
  lemma {:induction false} TranslatedShoelaceSum(polygon: seq<Point>, dx: real, dy: real, k: nat)
    requires 1 <= k <= |polygon|
    ensures ShoelaceSum(Translate(polygon, dx, dy), k) ==
            ShoelaceSum(polygon, k)
            + dy * (polygon[k - 1].x - polygon[|polygon| - 1].x)
            - dx * (polygon[k - 1].y - polygon[|polygon| - 1].y)
  {
    var t := Translate(polygon, dx, dy);
    var n := |polygon|;
    var i := k - 1;
    var a, q := polygon[i], polygon[Prev(n, i)];
    assert ShoelaceTerm(t, i) ==
      (a.x + dx) * (q.y + dy) - (a.y + dy) * (q.x + dx);
    assert ShoelaceTerm(t, i) ==
      ShoelaceTerm(polygon, i) + dy * (a.x - q.x) - dx * (a.y - q.y);
    if k > 1 {
      TranslatedShoelaceSum(polygon, dx, dy, k - 1);
    }
  }

  /** The area does not depend on where the polygon is drawn. */
  lemma AreaTranslationInvariant(polygon: seq<Point>, dx: real, dy: real)
    requires |polygon| > 0
    ensures PolygonArea(Translate(polygon, dx, dy)) == PolygonArea(polygon)
  {
    TranslatedShoelaceSum(polygon, dx, dy, |polygon|);
  }
}
