/** The per-time-step speed records of the speed GUI and the choice of the
    video frame shown for a time step. */
module SpeedStatistics {
  import opened Optional
  import opened Statistics

  /** Results of a processing run: for each time step the speed of every grid
      cell (`None` where the speed is not a number), the grid's region mask,
      and the list of frame indices of the processed pairs. */
  datatype FlowResults = FlowResults(
    speedGrids: seq<seq<Option<real>>>,
    gridMask: seq<bool>,
    vec: seq<int>)

  datatype SpeedRecord = SpeedRecord(frameIndex: nat, avgSpeed: real, maxSpeed: real, stdSpeed: real)

  /** The cells of one step selected by the mask; a cell outside the mask is
      dropped, which here reads as `None`. */
  function MaskedSpeeds(speeds: seq<Option<real>>, gridMask: seq<bool>): (m: seq<Option<real>>)
    requires |speeds| == |gridMask|
  {
    seq(|speeds|, j requires 0 <= j < |speeds| => if gridMask[j] then speeds[j] else None)
  }

  /** The speeds of one step that are inside the mask and are numbers, in grid
      order. */
  function ValidSpeeds(speeds: seq<Option<real>>, gridMask: seq<bool>): (v: seq<real>)
    requires |speeds| == |gridMask|
    ensures |v| <= |speeds|
    ensures forall j :: 0 <= j < |speeds| && gridMask[j] && speeds[j].Some? ==> speeds[j].value in v
  {
    if speeds == [] then []
    else
      (if gridMask[0] && speeds[0].Some? then [speeds[0].value] else []) +
      ValidSpeeds(speeds[1..], gridMask[1..])
  }

  /** Each valid speed occurs as often as it does among the masked cells, so the
      mean and the deviation weigh repeated speeds as the source does. */
  lemma {:induction false} ValidSpeedsCounts(speeds: seq<Option<real>>, gridMask: seq<bool>)
    requires |speeds| == |gridMask|
    ensures forall x ::
      multiset(ValidSpeeds(speeds, gridMask))[x] ==
      multiset(MaskedSpeeds(speeds, gridMask))[Some(x)]
  {
    if speeds != [] {
      ValidSpeedsCounts(speeds[1..], gridMask[1..]);
      assert MaskedSpeeds(speeds, gridMask) ==
        [if gridMask[0] then speeds[0] else None] + MaskedSpeeds(speeds[1..], gridMask[1..]);
    }
  }

  /** The record of step i: mean, maximum and standard deviation of the valid
      speeds, or all zero when there are none. */
  function StepRecord(i: nat, valid: seq<real>, sd: real): (r: SpeedRecord)
    ensures r.frameIndex == i
    ensures valid == [] ==> r.avgSpeed == 0.0 && r.maxSpeed == 0.0 && r.stdSpeed == 0.0
    ensures valid != [] ==>
      r.avgSpeed == Mean(valid) &&
      r.maxSpeed in valid && (forall k :: 0 <= k < |valid| ==> valid[k] <= r.maxSpeed) &&
      r.avgSpeed <= r.maxSpeed && r.stdSpeed == sd
  {
    if |valid| > 0 then
      var mx := MaxOf(valid);
      MeanBetween(valid, MinOf(valid), mx);
      SpeedRecord(i, Mean(valid), mx, sd)
    else SpeedRecord(i, 0.0, 0.0, 0.0)
  }

  /** The average of a step lies between its slowest and fastest valid speed. */
  lemma AverageWithinRange(valid: seq<real>, sd: real)
    requires valid != []
    ensures MinOf(valid) <= StepRecord(0, valid, sd).avgSpeed <= StepRecord(0, valid, sd).maxSpeed
  {
    MeanBetween(valid, MinOf(valid), MaxOf(valid));
  }

  /** Every step's grid matches the mask, and the supplied deviations are the
      population standard deviations of the valid speeds. */
  ghost predicate DeviationsMatch(results: FlowResults, deviations: seq<real>)
  {
    |deviations| == |results.speedGrids| &&
    forall i :: 0 <= i < |results.speedGrids| ==>
      |results.speedGrids[i]| == |results.gridMask| &&
      (ValidSpeeds(results.speedGrids[i], results.gridMask) != [] ==>
         IsStdDev(ValidSpeeds(results.speedGrids[i], results.gridMask), deviations[i]))
  }

  /** The frame shown for time step `index`: the first frame of pair `index`,
      or frame 0 when the frame list is too short. */
  function DisplayFrameIndex(vec: seq<int>, index: nat): (f: int)
    ensures 2 * index < |vec| ==> f == vec[2 * index]
    ensures 2 * index >= |vec| ==> f == 0
    ensures f == 0 || f in vec
  {
    if 2 * index < |vec| then vec[2 * index] else 0
  }

  class FloodSpeedGui {
    var processingResults: Option<FlowResults>
    var speedData: seq<SpeedRecord>

    constructor ()
      ensures processingResults == None && speedData == []
    {
      processingResults := None;
      speedData := [];
    }

    /** Rebuild the speed time series: one record per time step, in step order.
        `deviations` holds each step's standard deviation of valid speeds (the
        square root is computed outside this model). */
    method CalculateSpeedStatistics(deviations: seq<real>)
      requires processingResults.Some? ==> DeviationsMatch(processingResults.value, deviations)
      modifies this`speedData
      ensures processingResults.None? ==> speedData == old(speedData)
      ensures processingResults.Some? ==>
        var res := processingResults.value;
        |speedData| == |res.speedGrids| &&
        (forall i :: 0 <= i < |speedData| ==> speedData[i].frameIndex == i) &&
        forall i :: 0 <= i < |speedData| ==>
          speedData[i] == StepRecord(i, ValidSpeeds(res.speedGrids[i], res.gridMask), deviations[i])
    {
      if processingResults.None? {
        return;
      }
      var res := processingResults.value;
      speedData := [];
      for i := 0 to |res.speedGrids|
        invariant |speedData| == i
        invariant forall k :: 0 <= k < i ==>
          speedData[k] == StepRecord(k, ValidSpeeds(res.speedGrids[k], res.gridMask), deviations[k])
      {
        var valid := ValidSpeeds(res.speedGrids[i], res.gridMask);
        var avg, mx, sd := 0.0, 0.0, 0.0;
        if |valid| > 0 {
          avg := Mean(valid);
          mx := MaxOf(valid);
          sd := deviations[i];
        }
        speedData := speedData + [SpeedRecord(i, avg, mx, sd)];
      }
    }

    /** A finished processing run: store its results and rebuild the series. */
    method OnProcessingComplete(results: FlowResults, deviations: seq<real>)
      requires DeviationsMatch(results, deviations)
      modifies this
      ensures processingResults == Some(results)
      ensures |speedData| == |results.speedGrids|
      ensures forall i :: 0 <= i < |speedData| ==>
        speedData[i] == StepRecord(i, ValidSpeeds(results.speedGrids[i], results.gridMask), deviations[i])
    {
      processingResults := Some(results);
      CalculateSpeedStatistics(deviations);
    }

    /** The frame to read for the field view of step `index`; `None` when there
        are no results or the step does not exist. */
    function FrameForStep(index: nat): (f: Option<int>)
      reads this
      ensures f.Some? <==> processingResults.Some? && index < |processingResults.value.speedGrids|
      ensures f.Some? ==> f.value == DisplayFrameIndex(processingResults.value.vec, index)
    {
      if processingResults.None? || index >= |processingResults.value.speedGrids| then None
      else Some(DisplayFrameIndex(processingResults.value.vec, index))
    }
  }
}
