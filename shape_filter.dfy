/** The "inside any drawn shape" test and the loop that keeps only the
    velocity samples lying inside some polygon or circle. */
module ShapeFilter {
  import opened Optional
  import opened Geometry

  /** Scanning the polygons in order: `Some(true)` at the first polygon that
      contains p, `Some(false)` when none does, and `None` when the scan meets a
      polygon with no vertex first (reading its first vertex fails, and the
      sample being tested is skipped). */
  function PolygonScan(p: Point, polygons: seq<seq<Point>>): Option<bool>
  {
    if polygons == [] then Some(false)
    else if |polygons[0]| == 0 then None
    else if InsidePolygon(p, polygons[0]) then Some(true)
    else PolygonScan(p, polygons[1..])
  }

  predicate InSomeCircle(p: Point, circles: seq<Circle>)
  {
    exists i :: 0 <= i < |circles| && InCircle(p, circles[i])
  }

  /** Polygons first, circles only when no polygon contains the point. */
  function InsideAnyShape(p: Point, polygons: seq<seq<Point>>, circles: seq<Circle>): Option<bool>
  {
    match PolygonScan(p, polygons)
    case None => None
    case Some(inPolygon) => Some(inPolygon || InSomeCircle(p, circles))
  }

  predicate AllPolygonsNonEmpty(polygons: seq<seq<Point>>)
  {
    forall i :: 0 <= i < |polygons| ==> |polygons[i]| > 0
  }

  /** The scan fails only on an empty polygon; when every polygon has a vertex
      it reports whether some polygon contains the point. */
  lemma {:induction false} PolygonScanMeaning(p: Point, polygons: seq<seq<Point>>)
    ensures PolygonScan(p, polygons) == None ==> !AllPolygonsNonEmpty(polygons)
    ensures AllPolygonsNonEmpty(polygons) ==>
      PolygonScan(p, polygons) ==
      Some(exists i :: 0 <= i < |polygons| && |polygons[i]| > 0 && InsidePolygon(p, polygons[i]))
  {
    if polygons != [] && |polygons[0]| > 0 && !InsidePolygon(p, polygons[0]) {
      var rest := polygons[1..];
      PolygonScanMeaning(p, rest);
      if AllPolygonsNonEmpty(polygons) {
        assert AllPolygonsNonEmpty(rest);
        if exists i :: 0 <= i < |polygons| && |polygons[i]| > 0 && InsidePolygon(p, polygons[i]) {
          var i :| 0 <= i < |polygons| && |polygons[i]| > 0 && InsidePolygon(p, polygons[i]);
          assert rest[i - 1] == polygons[i];
        }
        if exists i :: 0 <= i < |rest| && |rest[i]| > 0 && InsidePolygon(p, rest[i]) {
          var i :| 0 <= i < |rest| && |rest[i]| > 0 && InsidePolygon(p, rest[i]);
          assert polygons[i + 1] == rest[i];
        }
      }
    }
  }

  /** With every polygon holding a vertex, the test is true iff some polygon or
      some circle contains the point. */
  lemma InsideAnyShapeMeaning(p: Point, polygons: seq<seq<Point>>, circles: seq<Circle>)
    requires AllPolygonsNonEmpty(polygons)
    ensures InsideAnyShape(p, polygons, circles) ==
      Some((exists i :: 0 <= i < |polygons| && |polygons[i]| > 0 && InsidePolygon(p, polygons[i]))
           || InSomeCircle(p, circles))
  {
    PolygonScanMeaning(p, polygons);
  }

  /** The source's nested loops with early exit. */
  method CheckInsideAnyShape(p: Point, polygons: seq<seq<Point>>, circles: seq<Circle>)
    returns (r: Option<bool>)
    ensures r == InsideAnyShape(p, polygons, circles)
  {
    var inside := false;
    var k := 0;
    while k < |polygons|
      invariant 0 <= k <= |polygons|
      invariant PolygonScan(p, polygons) == PolygonScan(p, polygons[k..])
      invariant !inside
    {
      assert polygons[k..][1..] == polygons[k + 1..];
      if |polygons[k]| == 0 {
        return None;
      }
      var hit := PointInPolygon(p, polygons[k]);
      if hit {
        inside := true;
        break;
      }
      k := k + 1;
    }
    if !inside {
      var j := 0;
      while j < |circles|
        invariant 0 <= j <= |circles|
        invariant !inside
        invariant forall m :: 0 <= m < j ==> !InCircle(p, circles[m])
      {
        if InCircle(p, circles[j]) {
          inside := true;
          break;
        }
        j := j + 1;
      }
    }
    r := Some(inside);
  }

  /** One kept velocity vector: position and displacement. */
  datatype FlowVector = FlowVector(x: real, y: real, vx: real, vy: real)

  /** Sample j is kept when its position has two components, the shape test
      succeeds and says inside, and a velocity with two components exists at
      the same index. */
  predicate Kept(positions: seq<seq<real>>, velocities: seq<seq<real>>, j: nat,
                 polygons: seq<seq<Point>>, circles: seq<Circle>)
    requires j < |positions|
  {
    |positions[j]| >= 2 &&
    InsideAnyShape(Point(positions[j][0], positions[j][1]), polygons, circles) == Some(true) &&
    j < |velocities| && |velocities[j]| >= 2
  }

  function VectorAt(positions: seq<seq<real>>, velocities: seq<seq<real>>, j: nat): FlowVector
    requires j < |positions| && |positions[j]| >= 2
    requires j < |velocities| && |velocities[j]| >= 2
  {
    FlowVector(positions[j][0], positions[j][1], velocities[j][0], velocities[j][1])
  }

  /** The vectors of the kept samples among the first k, in sample order. */
  function Filtered(positions: seq<seq<real>>, velocities: seq<seq<real>>,
                    polygons: seq<seq<Point>>, circles: seq<Circle>, k: nat): (r: seq<FlowVector>)
    requires k <= |positions|
    ensures |r| <= k
  {
    if k == 0 then []
    else
      Filtered(positions, velocities, polygons, circles, k - 1) +
      (if Kept(positions, velocities, k - 1, polygons, circles)
       then [VectorAt(positions, velocities, k - 1)] else [])
  }

  /** Indices of the kept samples among the first k, in increasing order. */
  function KeptIndices(positions: seq<seq<real>>, velocities: seq<seq<real>>,
                       polygons: seq<seq<Point>>, circles: seq<Circle>, k: nat): seq<nat>
    requires k <= |positions|
  {
    if k == 0 then []
    else
      KeptIndices(positions, velocities, polygons, circles, k - 1) +
      (if Kept(positions, velocities, k - 1, polygons, circles) then [k - 1] else [])
  }

  /** The filter output is the subsequence of the input picked out by the kept
      indices: they increase (order is preserved), each one is kept, each kept
      sample appears, and output i is the vector of sample KeptIndices[i]. */
  lemma {:induction false} FilteredIsKeptSubsequence(
    positions: seq<seq<real>>, velocities: seq<seq<real>>,
    polygons: seq<seq<Point>>, circles: seq<Circle>, k: nat)
    requires k <= |positions|
    ensures var idx := KeptIndices(positions, velocities, polygons, circles, k);
            var out := Filtered(positions, velocities, polygons, circles, k);
            && |idx| == |out|
            && (forall i :: 0 <= i < |idx| ==>
                  idx[i] < k && Kept(positions, velocities, idx[i], polygons, circles) &&
                  out[i] == VectorAt(positions, velocities, idx[i]))
            && (forall i, i' :: 0 <= i < i' < |idx| ==> idx[i] < idx[i'])
            && (forall j :: 0 <= j < k && Kept(positions, velocities, j, polygons, circles) ==> j in idx)
  {
    if k > 0 {
      FilteredIsKeptSubsequence(positions, velocities, polygons, circles, k - 1);
    }
  }

  /** The source's filtering loop: four parallel accumulators and a counter. */
  method FilterVectors(positions: seq<seq<real>>, velocities: seq<seq<real>>,
                       polygons: seq<seq<Point>>, circles: seq<Circle>)
    returns (xs: seq<real>, ys: seq<real>, vxs: seq<real>, vys: seq<real>,
             pointsInside: nat, totalPoints: nat)
    ensures totalPoints == |positions|
    ensures |xs| == |ys| == |vxs| == |vys| == pointsInside <= totalPoints
    ensures pointsInside == |Filtered(positions, velocities, polygons, circles, |positions|)|
    ensures forall i :: 0 <= i < pointsInside ==>
      FlowVector(xs[i], ys[i], vxs[i], vys[i]) ==
      Filtered(positions, velocities, polygons, circles, |positions|)[i]
  {
    xs, ys, vxs, vys := [], [], [], [];
    totalPoints := |positions|;
    pointsInside := 0;
    for j := 0 to |positions|
      invariant |xs| == |ys| == |vxs| == |vys| == pointsInside
      invariant pointsInside == |Filtered(positions, velocities, polygons, circles, j)|
      invariant forall i :: 0 <= i < pointsInside ==>
        FlowVector(xs[i], ys[i], vxs[i], vys[i]) ==
        Filtered(positions, velocities, polygons, circles, j)[i]
    {
      if |positions[j]| < 2 {
        continue;
      }
      var x, y := positions[j][0], positions[j][1];
      var inside := CheckInsideAnyShape(Point(x, y), polygons, circles);
      if inside != Some(true) {
        continue;
      }
      if j >= |velocities| || |velocities[j]| < 2 {
        continue;
      }
      var vx, vy := velocities[j][0], velocities[j][1];
      xs, ys, vxs, vys := xs + [x], ys + [y], vxs + [vx], vys + [vy];
      pointsInside := pointsInside + 1;
    }
  }
}
