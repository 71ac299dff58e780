/** Small numeric rules of the analyzer: how many frame pairs to process, how
    large a highlight circle is drawn, how many fastest regions are shown and
    which colour a velocity arrow gets. */
module Metrics {
  import opened Optional
  import opened Statistics

  /** Frame pairs to process: the count given on the command line when there is
      one; otherwise every pair from the start frame to the last frame, and at
      least one pair. */
  function FramePairCount(totalFrames: Option<int>, videoFrames: int, startFrame: int): (n: int)
    ensures totalFrames.Some? ==> n == totalFrames.value
    ensures totalFrames.None? ==> n >= 1
    ensures totalFrames.None? && startFrame + 1 < videoFrames ==> startFrame + n == videoFrames - 1
    ensures totalFrames.None? && startFrame + 1 >= videoFrames ==> n == 1
  {
    if totalFrames.Some? then totalFrames.value
    else
      var auto := videoFrames - startFrame - 1;
      if auto < 1 then 1 else auto
  }

  const MinHighlightRadius: real := 20.0
  const MaxHighlightRadius: real := 80.0
  const DefaultHighlightRadius: real := 30.0
  const NeighbourRange: real := 100.0

  /** Keep a highlight radius visible but bounded: at least 20, at most 80. */
  function ClampRadius(r: real): (c: real)
    ensures MinHighlightRadius <= c <= MaxHighlightRadius
    ensures MinHighlightRadius <= r <= MaxHighlightRadius ==> c == r
    ensures r < MinHighlightRadius ==> c == MinHighlightRadius
    ensures r > MaxHighlightRadius ==> c == MaxHighlightRadius
  {
    var atLeast := if r >= MinHighlightRadius then r else MinHighlightRadius;
    if atLeast <= MaxHighlightRadius then atLeast else MaxHighlightRadius
  }

  /** The distances to other fast points that count as neighbours: strictly
      between 0 and 100 pixels, in their original order. */
  function Neighbours(distances: seq<real>): (ns: seq<real>)
    ensures forall i :: 0 <= i < |ns| ==> 0.0 < ns[i] < NeighbourRange
    ensures forall i :: 0 <= i < |distances| && 0.0 < distances[i] < NeighbourRange ==> distances[i] in ns
    ensures forall i :: 0 <= i < |ns| ==> ns[i] in distances
    ensures |ns| <= |distances|
  {
    if distances == [] then []
    else
      (if 0.0 < distances[0] < NeighbourRange then [distances[0]] else []) + Neighbours(distances[1..])
  }

  /** Every neighbouring distance is kept as many times as it occurs, so the
      mean taken over the neighbours weighs repeated distances as the source
      does. */
  lemma {:induction false} NeighboursCounts(distances: seq<real>)
    ensures forall v ::
      multiset(Neighbours(distances))[v] ==
      (if 0.0 < v < NeighbourRange then multiset(distances)[v] else 0)
  {
    if distances != [] {
      NeighboursCounts(distances[1..]);
      assert distances == [distances[0]] + distances[1..];
    }
  }

  /** The radius of a highlight circle around one fast point: the mean distance
      to its neighbouring fast points (30 when it has none), clamped to [20, 80]. */
  function HighlightRadius(distances: seq<real>): (r: real)
    ensures MinHighlightRadius <= r <= MaxHighlightRadius
    ensures (forall i :: 0 <= i < |distances| ==> !(0.0 < distances[i] < NeighbourRange))
            ==> r == DefaultHighlightRadius
    ensures Neighbours(distances) != [] ==> r == ClampRadius(Mean(Neighbours(distances)))
  {
    var ns := Neighbours(distances);
    var raw := if ns == [] then DefaultHighlightRadius else Mean(ns);
    ClampRadius(raw)
  }

  /** When the neighbours' mean already lies in [20, 80] it is used unchanged. */
  lemma HighlightRadiusKeepsMean(distances: seq<real>)
    requires Neighbours(distances) != []
    requires MinHighlightRadius <= Mean(Neighbours(distances)) <= MaxHighlightRadius
    ensures HighlightRadius(distances) == Mean(Neighbours(distances))
  {
  }

  /** A point whose neighbours are all within 20 pixels still gets the
      smallest visible circle, 20. */
  lemma HighlightRadiusCloseNeighbours(distances: seq<real>)
    requires exists i :: 0 <= i < |distances| && 0.0 < distances[i] <= MinHighlightRadius
    requires forall i :: 0 <= i < |distances| && 0.0 < distances[i] < NeighbourRange ==>
      distances[i] <= MinHighlightRadius
    ensures HighlightRadius(distances) == MinHighlightRadius
  {
    var ns := Neighbours(distances);
    var i :| 0 <= i < |distances| && 0.0 < distances[i] <= MinHighlightRadius;
    assert distances[i] in ns;
    forall k | 0 <= k < |ns| ensures 0.0 <= ns[k] <= MinHighlightRadius {
      var j :| 0 <= j < |distances| && distances[j] == ns[k];
    }
    MeanBetween(ns, 0.0, MinHighlightRadius);
  }

  /** A point whose neighbours are all at least 80 pixels away gets the
      largest circle, 80. */
  lemma HighlightRadiusFarNeighbours(distances: seq<real>)
    requires exists i :: 0 <= i < |distances| && MaxHighlightRadius <= distances[i] < NeighbourRange
    requires forall i :: 0 <= i < |distances| && 0.0 < distances[i] < NeighbourRange ==>
      MaxHighlightRadius <= distances[i]
    ensures HighlightRadius(distances) == MaxHighlightRadius
  {
    var ns := Neighbours(distances);
    var i :| 0 <= i < |distances| && MaxHighlightRadius <= distances[i] < NeighbourRange;
    assert distances[i] in ns;
    forall k | 0 <= k < |ns| ensures MaxHighlightRadius <= ns[k] <= NeighbourRange {
      var j :| 0 <= j < |distances| && distances[j] == ns[k];
    }
    MeanBetween(ns, MaxHighlightRadius, NeighbourRange);
  }

  const TopRegions: nat := 5

  /** How many fastest regions are highlighted: five, or all fast points when
      there are fewer. */
  function TopCount(fastPoints: nat): (k: nat)
    ensures k <= TopRegions && k <= fastPoints
    ensures k == TopRegions || k == fastPoints
  {
    if TopRegions <= fastPoints then TopRegions else fastPoints
  }

  /** Arrow colours of the exported video, in the blue-green-red channel order
      the frame uses. */
  datatype ArrowColour = Green | Yellow | Red

  datatype Bgr = Bgr(b: int, g: int, r: int)

  /** Full-intensity channels only: blue is never used, green marks the slow
      and medium arrows, red the medium and fast ones (yellow is both). */
  function ChannelValues(c: ArrowColour): (bgr: Bgr)
    ensures bgr.b == 0
    ensures bgr.g == 255 <==> c != Red
    ensures bgr.r == 255 <==> c != Green
    ensures bgr.g in {0, 255} && bgr.r in {0, 255}
  {
    match c
    case Green => Bgr(0, 255, 0)
    case Yellow => Bgr(0, 255, 255)
    case Red => Bgr(0, 0, 255)
  }

  /** Slow (below 10), medium (below 20) and fast speeds. */
  function SpeedColour(magnitude: real): (c: ArrowColour)
    ensures c == Green <==> magnitude < 10.0
    ensures c == Yellow <==> 10.0 <= magnitude < 20.0
    ensures c == Red <==> magnitude >= 20.0
  {
    if magnitude < 10.0 then Green
    else if magnitude < 20.0 then Yellow
    else Red
  }

  function Severity(c: ArrowColour): nat
  {
    match c
    case Green => 0
    case Yellow => 1
    case Red => 2
  }

  /** A faster arrow never gets a milder colour. */
  lemma SpeedColourMonotone(m1: real, m2: real)
    requires m1 <= m2
    ensures Severity(SpeedColour(m1)) <= Severity(SpeedColour(m2))
  {
  }
}
