/** The shape-editing state of the flood-area analyzer: a draw mode, a polygon
    being drawn, a pending circle centre and the two stacks of finished
    shapes, changed by mouse clicks and releases, the mode selector, "Clear
    Last", and converted to and from the saved shapes record. */
module PolygonAnalyzer {
  import opened Optional
  import opened Geometry

  datatype DrawMode = PolygonMode | CircleMode

  /** A mouse event: whether it happened over the drawing axes, which button
      (1 left, 3 right) and where. */
  datatype MouseEvent = MouseEvent(inAxes: bool, button: int, pos: Point)

  const LeftButton := 1
  const RightButton := 3
  const MinPolygonVertices := 3
  /** A circle is kept only when its radius exceeds 5 pixels. */
  const MinCircleRadius: real := 5.0

  /** The editing state as a value. */
  datatype EditorState = EditorState(
    mode: DrawMode,
    currentPolygon: seq<Point>,
    circleCenter: Option<Point>,
    polygons: seq<seq<Point>>,
    circles: seq<Circle>)

  function InitialState(): EditorState
  {
    EditorState(PolygonMode, [], None, [], [])
  }

  /** Selecting a mode drops the partial polygon and the pending centre. */
  function SetModeStep(s: EditorState, mode: DrawMode): EditorState
  {
    s.(mode := mode, currentPolygon := [], circleCenter := None)
  }

  /** A button press. */
  function ClickStep(s: EditorState, ev: MouseEvent): EditorState
  {
    if !ev.inAxes then s
    else if s.mode == PolygonMode then
      if ev.button == LeftButton then
        s.(currentPolygon := s.currentPolygon + [ev.pos])
      else if ev.button == RightButton && |s.currentPolygon| >= MinPolygonVertices then
        s.(polygons := s.polygons + [s.currentPolygon], currentPolygon := [])
      else s
    else if ev.button == LeftButton then
      s.(circleCenter := Some(ev.pos))
    else s
  }

  /** `radius` is the distance from the pending centre to the release point
      (the square root is taken by the caller). */
  predicate ReleaseRadiusOk(s: EditorState, ev: MouseEvent, radius: real)
  {
    ev.inAxes && s.mode == CircleMode && s.circleCenter.Some? ==>
      radius >= 0.0 && radius * radius == SqDist(ev.pos, s.circleCenter.value)
  }

  /** A button release: in circle mode with a pending centre, commit a circle
      when it is large enough, and forget the centre in any case. */
  function ReleaseStep(s: EditorState, ev: MouseEvent, radius: real): EditorState
    requires ReleaseRadiusOk(s, ev, radius)
  {
    if !ev.inAxes then s
    else if s.mode == CircleMode && s.circleCenter.Some? then
      var committed :=
        if radius > MinCircleRadius then s.circles + [Circle(s.circleCenter.value, radius)]
        else s.circles;
      s.(circles := committed, circleCenter := None)
    else s
  }

  /** "Clear Last": circles are removed before polygons. */
  function ClearLastStep(s: EditorState): EditorState
  {
    if |s.circles| > 0 then s.(circles := s.circles[..|s.circles| - 1])
    else if |s.polygons| > 0 then s.(polygons := s.polygons[..|s.polygons| - 1])
    else s
  }

  // ---------------------------------------------------------------------------
  // The saved shapes record

  /** A circle as saved: centre as a coordinate list and the radius. */
  datatype CircleRecord = CircleRecord(center: seq<real>, radius: real)

  /** The saved record; a missing key is `None`. */
  datatype ShapesRecord = ShapesRecord(
    videoPath: string,
    polygons: Option<seq<seq<seq<real>>>>,
    circles: Option<seq<CircleRecord>>)

  function EncodePoint(p: Point): seq<real>
  {
    [p.x, p.y]
  }

  function DecodePoint(c: seq<real>): Point
    requires |c| == 2
  {
    Point(c[0], c[1])
  }

  function EncodePolygon(polygon: seq<Point>): seq<seq<real>>
  {
    seq(|polygon|, i requires 0 <= i < |polygon| => EncodePoint(polygon[i]))
  }

  predicate IsPolygonRecord(rows: seq<seq<real>>)
  {
    forall i :: 0 <= i < |rows| ==> |rows[i]| == 2
  }

  function DecodePolygon(rows: seq<seq<real>>): seq<Point>
    requires IsPolygonRecord(rows)
  {
    seq(|rows|, i requires 0 <= i < |rows| && IsPolygonRecord(rows) => DecodePoint(rows[i]))
  }

  function EncodePolygons(polygons: seq<seq<Point>>): seq<seq<seq<real>>>
  {
    seq(|polygons|, i requires 0 <= i < |polygons| => EncodePolygon(polygons[i]))
  }

  predicate ArePolygonRecords(polys: seq<seq<seq<real>>>)
  {
    forall i :: 0 <= i < |polys| ==> IsPolygonRecord(polys[i])
  }

  function DecodePolygons(polys: seq<seq<seq<real>>>): seq<seq<Point>>
    requires ArePolygonRecords(polys)
  {
    seq(|polys|, i requires 0 <= i < |polys| && ArePolygonRecords(polys) => DecodePolygon(polys[i]))
  }

  function EncodeCircles(circles: seq<Circle>): seq<CircleRecord>
  {
    seq(|circles|, i requires 0 <= i < |circles| =>
      CircleRecord(EncodePoint(circles[i].center), circles[i].radius))
  }

  predicate AreCircleRecords(cs: seq<CircleRecord>)
  {
    forall i :: 0 <= i < |cs| ==> |cs[i].center| == 2
  }

  function DecodeCircles(cs: seq<CircleRecord>): seq<Circle>
    requires AreCircleRecords(cs)
  {
    seq(|cs|, i requires 0 <= i < |cs| && AreCircleRecords(cs) =>
      Circle(DecodePoint(cs[i].center), cs[i].radius))
  }

  /** Every coordinate list in the record has exactly two entries (what the
      containment tests unpack). */
  predicate WellFormedRecord(rec: ShapesRecord)
  {
    (rec.polygons.Some? ==> ArePolygonRecords(rec.polygons.value)) &&
    (rec.circles.Some? ==> AreCircleRecords(rec.circles.value))
  }

  /** Saving: no record at all when there is no shape. */
  function SaveRecord(s: EditorState, videoPath: string): (r: Option<ShapesRecord>)
    ensures r.None? <==> s.polygons == [] && s.circles == []
    ensures r.Some? ==> WellFormedRecord(r.value) && r.value.videoPath == videoPath
    ensures r.Some? ==> r.value.polygons.Some? && r.value.circles.Some?
  {
    if s.polygons == [] && s.circles == [] then None
    else Some(ShapesRecord(videoPath, Some(EncodePolygons(s.polygons)), Some(EncodeCircles(s.circles))))
  }

  /** Loading replaces both stacks with what the record holds; a missing key
      gives an empty stack, and a missing file changes nothing. */
  function LoadStep(s: EditorState, file: Option<ShapesRecord>): EditorState
    requires file.Some? ==> WellFormedRecord(file.value)
  {
    if file.None? then s
    else
      var rec := file.value;
      s.(polygons := if rec.polygons.Some? then DecodePolygons(rec.polygons.value) else [],
         circles := if rec.circles.Some? then DecodeCircles(rec.circles.value) else [])
  }

  // ---------------------------------------------------------------------------
  // Properties of the transitions

  /** Clicks outside the axes change nothing, in either mode. */
  lemma ClickOutsideAxesIgnored(s: EditorState, ev: MouseEvent)
    requires !ev.inAxes
    ensures ClickStep(s, ev) == s
  {
  }

  /** In polygon mode a left click appends exactly the clicked point; a right
      click closes the polygon when it has at least three points and otherwise
      changes nothing. */
  lemma PolygonModeClicks(s: EditorState, ev: MouseEvent)
    requires ev.inAxes && s.mode == PolygonMode
    ensures ev.button == LeftButton ==>
      ClickStep(s, ev) == s.(currentPolygon := s.currentPolygon + [ev.pos])
    ensures ev.button == RightButton && |s.currentPolygon| >= MinPolygonVertices ==>
      ClickStep(s, ev) == s.(polygons := s.polygons + [s.currentPolygon], currentPolygon := [])
    ensures ev.button == RightButton && |s.currentPolygon| < MinPolygonVertices ==>
      ClickStep(s, ev) == s
  {
  }

  /** On release in circle mode with a centre, a circle is added exactly when
      the squared distance exceeds 25, and the centre is forgotten either way;
      nothing else changes. */
  lemma ReleaseCommitsLargeCircles(s: EditorState, ev: MouseEvent, radius: real)
    requires ev.inAxes && s.mode == CircleMode && s.circleCenter.Some?
    requires ReleaseRadiusOk(s, ev, radius)
    ensures SqDist(ev.pos, s.circleCenter.value) > 25.0 ==>
      ReleaseStep(s, ev, radius) ==
        s.(circles := s.circles + [Circle(s.circleCenter.value, radius)], circleCenter := None)
    ensures SqDist(ev.pos, s.circleCenter.value) <= 25.0 ==>
      ReleaseStep(s, ev, radius) == s.(circleCenter := None)
  {
    SquareMonotone(radius, MinCircleRadius);
  }

  /** Changing mode keeps both stacks and clears the drawing in progress. */
  lemma SetModeKeepsShapes(s: EditorState, mode: DrawMode)
    ensures var t := SetModeStep(s, mode);
      t.mode == mode && t.currentPolygon == [] && t.circleCenter == None &&
      t.polygons == s.polygons && t.circles == s.circles
  {
  }

  /** "Clear Last" removes exactly the last circle if there is one, else
      exactly the last polygon, else nothing; no other field changes. */
  lemma ClearLastRemovesOneShape(s: EditorState)
    ensures |s.circles| > 0 ==>
      var t := ClearLastStep(s);
      t.circles + [s.circles[|s.circles| - 1]] == s.circles && t == s.(circles := t.circles)
    ensures |s.circles| == 0 && |s.polygons| > 0 ==>
      var t := ClearLastStep(s);
      t.polygons + [s.polygons[|s.polygons| - 1]] == s.polygons && t == s.(polygons := t.polygons)
    ensures |s.circles| == 0 && |s.polygons| == 0 ==> ClearLastStep(s) == s
  {
  }

  /** Decoding what was encoded gives back the same polygons and circles, in
      order. */
  lemma {:induction false} DecodeEncodeShapes(polygons: seq<seq<Point>>, circles: seq<Circle>)
    ensures ArePolygonRecords(EncodePolygons(polygons))
    ensures DecodePolygons(EncodePolygons(polygons)) == polygons
    ensures AreCircleRecords(EncodeCircles(circles))
    ensures DecodeCircles(EncodeCircles(circles)) == circles
  {
    var enc := EncodePolygons(polygons);
    forall i | 0 <= i < |polygons|
      ensures IsPolygonRecord(enc[i]) && DecodePolygon(enc[i]) == polygons[i]
    {
      assert enc[i] == EncodePolygon(polygons[i]);
    }
    var dec := DecodePolygons(enc);
    assert |dec| == |polygons|;
    forall i | 0 <= i < |polygons| ensures dec[i] == polygons[i] {
    }
  }

  /** And a well-formed record that is decoded and encoded again is unchanged,
      so the record and the shape stacks correspond one to one. */
  lemma {:induction false} EncodeDecodeShapes(polys: seq<seq<seq<real>>>, cs: seq<CircleRecord>)
    requires ArePolygonRecords(polys) && AreCircleRecords(cs)
    ensures EncodePolygons(DecodePolygons(polys)) == polys
    ensures EncodeCircles(DecodeCircles(cs)) == cs
  {
    var dec := DecodePolygons(polys);
    forall i | 0 <= i < |polys| ensures EncodePolygon(dec[i]) == polys[i] {
      assert dec[i] == DecodePolygon(polys[i]);
      forall j | 0 <= j < |polys[i]| ensures EncodePoint(dec[i][j]) == polys[i][j] {
        assert |polys[i][j]| == 2;
      }
    }
    var dc := DecodeCircles(cs);
    forall i | 0 <= i < |cs| ensures EncodeCircles(dc)[i] == cs[i] {
      assert |cs[i].center| == 2;
    }
  }

  /** Loading the record that saving built restores the same polygon and circle
      stacks in order, replacing whatever was loaded before. */
  lemma SaveThenLoadRestores(s: EditorState, other: EditorState, videoPath: string)
    requires SaveRecord(s, videoPath).Some?
    ensures var t := LoadStep(other, SaveRecord(s, videoPath));
      t.polygons == s.polygons && t.circles == s.circles &&
      t.mode == other.mode && t.currentPolygon == other.currentPolygon &&
      t.circleCenter == other.circleCenter
  {
    DecodeEncodeShapes(s.polygons, s.circles);
  }

  /** The shapes the mouse can create: polygons of at least three vertices and
      circles of radius above 5. */
  predicate DrawableShapes(s: EditorState)
  {
    (forall i :: 0 <= i < |s.polygons| ==> |s.polygons[i]| >= MinPolygonVertices) &&
    (forall i :: 0 <= i < |s.circles| ==> s.circles[i].radius > MinCircleRadius)
  }

  /** Clicks, releases, mode changes and "Clear Last" keep every stored shape
      drawable, so the containment tests never meet an empty polygon. */
  lemma EditingKeepsShapesDrawable(s: EditorState, ev: MouseEvent, radius: real, mode: DrawMode)
    requires DrawableShapes(s)
    requires ReleaseRadiusOk(s, ev, radius)
    ensures DrawableShapes(ClickStep(s, ev))
    ensures DrawableShapes(ReleaseStep(s, ev, radius))
    ensures DrawableShapes(SetModeStep(s, mode))
    ensures DrawableShapes(ClearLastStep(s))
  {
  }

  // ---------------------------------------------------------------------------
  // The analyzer object

  class FloodPolygonAnalyzer {
    const videoPath: string
    var drawMode: DrawMode
    var currentPolygon: seq<Point>
    var circleCenter: Option<Point>
    var polygons: seq<seq<Point>>
    var circles: seq<Circle>

    /** The fields as one value. */
    function State(): EditorState
      reads this
    {
      EditorState(drawMode, currentPolygon, circleCenter, polygons, circles)
    }

    constructor (videoPath: string)
      ensures this.videoPath == videoPath
      ensures State() == InitialState()
    {
      this.videoPath := videoPath;
      drawMode := PolygonMode;
      currentPolygon := [];
      circleCenter := None;
      polygons := [];
      circles := [];
    }

    method SetDrawMode(mode: DrawMode)
      modifies this
      ensures State() == SetModeStep(old(State()), mode)
    {
      drawMode := mode;
      currentPolygon := [];
      circleCenter := None;
    }

    method OnClick(ev: MouseEvent)
      modifies this
      ensures State() == ClickStep(old(State()), ev)
    {
      if !ev.inAxes {
        return;
      }
      if drawMode == PolygonMode {
        if ev.button == LeftButton {
          currentPolygon := currentPolygon + [ev.pos];
        } else if ev.button == RightButton {
          if |currentPolygon| >= MinPolygonVertices {
            polygons := polygons + [currentPolygon];
            currentPolygon := [];
          }
        }
      } else if drawMode == CircleMode {
        if ev.button == LeftButton {
          circleCenter := Some(ev.pos);
        }
      }
    }

    /** `radius` is the Euclidean distance from the pending centre to the
        release point. */
    method OnRelease(ev: MouseEvent, radius: real)
      requires ReleaseRadiusOk(State(), ev, radius)
      modifies this
      ensures State() == ReleaseStep(old(State()), ev, radius)
    {
      if !ev.inAxes {
        return;
      }
      if drawMode == CircleMode && circleCenter.Some? {
        if radius > MinCircleRadius {
          circles := circles + [Circle(circleCenter.value, radius)];
        }
        circleCenter := None;
      }
    }

    method ClearLastShape()
      modifies this
      ensures State() == ClearLastStep(old(State()))
    {
      if |circles| > 0 {
        circles := circles[..|circles| - 1];
      } else if |polygons| > 0 {
        polygons := polygons[..|polygons| - 1];
      }
    }

    /** The record written by "Save"; nothing is written without shapes. */
    function SaveShapes(): (r: Option<ShapesRecord>)
      reads this
      ensures r.None? <==> polygons == [] && circles == []
      ensures r.Some? ==> WellFormedRecord(r.value) && r.value.videoPath == videoPath
      ensures r.Some? ==> r.value.polygons.Some? && r.value.circles.Some? &&
                          DecodePolygons(r.value.polygons.value) == polygons &&
                          DecodeCircles(r.value.circles.value) == circles
    {
      DecodeEncodeShapes(polygons, circles);
      SaveRecord(State(), videoPath)
    }

    /** "Load": `file` is the record read from disk, `None` when there is no file. */
    method LoadShapes(file: Option<ShapesRecord>)
      requires file.Some? ==> WellFormedRecord(file.value)
      modifies this
      ensures State() == LoadStep(old(State()), file)
    {
      if file.None? {
        return;
      }
      var data := file.value;
      polygons := [];
      circles := [];
      if data.polygons.Some? {
        var polys := data.polygons.value;
        for i := 0 to |polys|
          invariant polygons == DecodePolygons(polys)[..i]
          modifies this`polygons
        {
          polygons := polygons + [DecodePolygon(polys[i])];
        }
      }
      if data.circles.Some? {
        var cs := data.circles.value;
        for i := 0 to |cs|
          invariant circles == DecodeCircles(cs)[..i]
          modifies this`circles
        {
          circles := circles + [Circle(DecodePoint(cs[i].center), cs[i].radius)];
        }
      }
    }
  }
}
