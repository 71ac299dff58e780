/** The region-of-interest mask tool of the speed GUI: a byte mask the size of
    the frame, a list of clicked vertices, the Enter/ESC rule of the polygon
    drawing loop and the rectangle fill. */
module MaskDrawing {
  import opened Optional

  /** Mouse event code of a left-button press. */
  const LeftButtonDown := 1
  const EnterKey := 13
  const EscKey := 27
  const Opaque := 255
  const Cleared := 0

  /** The rectangle returned by the interactive selection: corner, width and
      height in pixels. */
  datatype Roi = Roi(x: nat, y: nat, w: nat, h: nat)

  /** Row i, column j lies in the rectangle (before clipping to the frame). */
  predicate InRect(roi: Roi, i: int, j: int)
  {
    roi.y <= i < roi.y + roi.h && roi.x <= j < roi.x + roi.w
  }

  /** What one key poll does to the drawing loop. */
  datatype KeyAction = KeepDrawing | Finish | Cancel

  /** A polled key code keeps only its low byte; Enter finishes only once more
      than two points are placed, ESC always cancels. */
  function KeyActionFor(raw: int, pointCount: nat): (a: KeyAction)
    ensures a == Finish <==> raw % 256 == EnterKey && pointCount > 2
    ensures a == Cancel <==> raw % 256 == EscKey
  {
    var key := raw % 256;
    if key == EnterKey then (if pointCount > 2 then Finish else KeepDrawing)
    else if key == EscKey then Cancel
    else KeepDrawing
  }

  /** Inputs the drawing loop sees, in order: mouse callbacks and key polls. */
  datatype UiEvent = Mouse(kind: int, x: int, y: int) | KeyPoll(raw: int)

  /** The point list after one mouse callback. */
  function AfterMouse(points: seq<(int, int)>, kind: int, x: int, y: int): seq<(int, int)>
  {
    if kind == LeftButtonDown then points + [(x, y)] else points
  }

  /** Replaying inputs from a given point list: the action that ended the loop
      (KeepDrawing when the inputs ran out first) and the final point list. */
  function Replay(events: seq<UiEvent>, points: seq<(int, int)>): (KeyAction, seq<(int, int)>)
  {
    if events == [] then (KeepDrawing, points)
    else
      match events[0]
      case Mouse(kind, x, y) => Replay(events[1..], AfterMouse(points, kind, x, y))
      case KeyPoll(raw) =>
        var a := KeyActionFor(raw, |points|);
        if a == KeepDrawing then Replay(events[1..], points) else (a, points)
  }

  /** The loop only finishes with a polygon of at least three vertices, and the
      clicks made while drawing are appended after the earlier ones. */
  lemma {:induction false} ReplayFinishHasPolygon(events: seq<UiEvent>, points: seq<(int, int)>)
    ensures Replay(events, points).0 == Finish ==> |Replay(events, points).1| > 2
    ensures |points| <= |Replay(events, points).1|
    ensures Replay(events, points).1[..|points|] == points
  {
    if events != [] {
      match events[0]
      case Mouse(kind, x, y) =>
        var next := AfterMouse(points, kind, x, y);
        ReplayFinishHasPolygon(events[1..], next);
        assert next[..|points|] == points;
      case KeyPoll(raw) =>
        ReplayFinishHasPolygon(events[1..], points);
    }
  }

  class MaskDrawer {
    const height: nat
    const width: nat
    var mask: array2<int>
    var points: seq<(int, int)>
    var currentRoi: Option<seq<int>>

    ghost predicate Valid()
      reads this
    {
      mask.Length0 == height && mask.Length1 == width
    }

    /** A fresh drawer over a frame of height x width pixels: the whole frame
        is selected, no point is placed and no rectangle chosen. */
    constructor (height: nat, width: nat)
      ensures Valid() && fresh(mask)
      ensures this.height == height && this.width == width
      ensures forall i, j :: 0 <= i < height && 0 <= j < width ==> mask[i, j] == Opaque
      ensures points == [] && currentRoi == None
    {
      this.height := height;
      this.width := width;
      mask := new int[height, width]((i, j) => Opaque);
      points := [];
      currentRoi := None;
    }

    /** A left-button press adds its position; every other event is ignored. */
    method MouseCallback(kind: int, x: int, y: int)
      modifies this`points
      ensures points == AfterMouse(old(points), kind, x, y)
    {
      if kind == LeftButtonDown {
        points := points + [(x, y)];
      }
    }

    /** The polygon drawing loop over the inputs it receives. Enter with more
        than two points ends it with a freshly cleared mask (the polygon fill
        itself is not part of this model), ESC ends it with the whole frame
        selected again; when the inputs run out the loop has not ended. */
    method DrawPolygon(events: seq<UiEvent>) returns (outcome: KeyAction, result: array2<int>)
      requires Valid()
      modifies this
      ensures Valid() && result == mask
      ensures (outcome, points) == Replay(events, old(points))
      ensures outcome == Finish ==>
        fresh(mask) && forall i, j :: 0 <= i < height && 0 <= j < width ==> mask[i, j] == Cleared
      ensures outcome == Cancel ==>
        fresh(mask) && forall i, j :: 0 <= i < height && 0 <= j < width ==> mask[i, j] == Opaque
      ensures outcome == KeepDrawing ==> mask == old(mask)
      ensures currentRoi == old(currentRoi)
    {
      outcome := KeepDrawing;
      var k := 0;
      while k < |events| && outcome == KeepDrawing
        invariant 0 <= k <= |events|
        invariant Valid() && currentRoi == old(currentRoi)
        invariant outcome == KeepDrawing ==>
          Replay(events, old(points)) == Replay(events[k..], points) && mask == old(mask)
        invariant outcome != KeepDrawing ==> Replay(events, old(points)) == (outcome, points)
        invariant outcome == Finish ==>
          fresh(mask) && forall i, j :: 0 <= i < height && 0 <= j < width ==> mask[i, j] == Cleared
        invariant outcome == Cancel ==>
          fresh(mask) && forall i, j :: 0 <= i < height && 0 <= j < width ==> mask[i, j] == Opaque
        decreases |events| - k
      {
        assert events[k..][1..] == events[k + 1..];
        match events[k] {
          case Mouse(kind, x, y) =>
            MouseCallback(kind, x, y);
          case KeyPoll(raw) =>
            var key := raw % 256;
            if key == EnterKey {
              if |points| > 2 {
                mask := new int[height, width]((i, j) => Cleared);
                outcome := Finish;
              }
            } else if key == EscKey {
              mask := new int[height, width]((i, j) => Opaque);
              outcome := Cancel;
            }
        }
        k := k + 1;
      }
      result := mask;
    }

    /** Applying the selected rectangle: when it has area, the mask becomes a
        fresh one that is 255 exactly on the rectangle's cells inside the frame
        and 0 elsewhere; an empty selection leaves mask and rectangle as they
        were. */
    method DrawRectangle(roi: Roi) returns (roiOut: Option<seq<int>>, result: array2<int>)
      requires Valid()
      modifies this
      ensures Valid() && roiOut == currentRoi && result == mask
      ensures points == old(points)
      ensures roi.w > 0 && roi.h > 0 ==>
        fresh(mask) && currentRoi == Some([roi.x, roi.y, roi.w, roi.h]) &&
        forall i, j :: 0 <= i < height && 0 <= j < width ==>
          mask[i, j] == (if InRect(roi, i, j) then Opaque else Cleared)
      ensures !(roi.w > 0 && roi.h > 0) ==> mask == old(mask) && currentRoi == old(currentRoi)
    {
      if roi.w > 0 && roi.h > 0 {
        currentRoi := Some([roi.x, roi.y, roi.w, roi.h]);
        var m := new int[height, width]((i, j) => Cleared);
        // rows y .. y+h and columns x .. x+w, clipped to the frame
        var rowEnd := if roi.y + roi.h < height then roi.y + roi.h else height;
        var colEnd := if roi.x + roi.w < width then roi.x + roi.w else width;
        var i := roi.y;
        while i < rowEnd
          invariant roi.y <= i
          modifies m
          invariant i <= rowEnd || i == roi.y
          invariant forall r, c :: 0 <= r < height && 0 <= c < width ==>
            m[r, c] == (if r < i && InRect(roi, r, c) then Opaque else Cleared)
        {
          var j := roi.x;
          while j < colEnd
            invariant roi.x <= j
            modifies m
            invariant j <= colEnd || j == roi.x
            invariant forall r, c :: 0 <= r < height && 0 <= c < width ==>
              m[r, c] == (if (r < i || (r == i && c < j)) && InRect(roi, r, c) then Opaque else Cleared)
          {
            m[i, j] := Opaque;
            j := j + 1;
          }
          i := i + 1;
        }
        mask := m;
      }
      roiOut, result := currentRoi, mask;
    }
  }
}
