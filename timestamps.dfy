/** Timestamp extraction from a decoded XVIZ frame
    (server_examples/xviz-serve-data.js, getTimestampV1 and getTimestamp).
    A frame is either of the legacy (v1) layout, with `start_time`,
    `vehicle_pose` and `state_updates`, or of the current layout; only the
    fields the extraction reads are kept. */
module Timestamps {

  import opened Options

  /** The JavaScript values a timestamp field can hold: absent, null or a
      number. Timestamps are kept as integers; no arithmetic is done on them. */
  datatype Value = Undefined | Null | Num(n: int)

  /** JavaScript truthiness of such a value: only a nonzero number is truthy. */
  predicate Truthy(v: Value) {
    v.Num? && v.n != 0
  }

  /** Number.isFinite: true of numbers only (integers here are all finite). */
  predicate IsFinite(v: Value) {
    v.Num?
  }

  /** A `vehicle_pose` object; as an object it is truthy whenever present. */
  datatype Pose = Pose(time: Value)

  /** The fields of a decoded frame that getTimestampV1 destructures. A
      missing or null `vehicle_pose` or `state_updates` is None. */
  datatype XvizData = XvizData(
    startTime: Value,
    vehiclePose: Option<Pose>,
    stateUpdates: Option<seq<int>>)

  /** state_updates.reduce((t, u) => Math.max(t, u.timestamp), 0). */
  function MaxFold(seed: int, stamps: seq<int>): (r: int)
    decreases |stamps|
  {
    if stamps == [] then seed
    else MaxFold(if stamps[0] > seed then stamps[0] else seed, stamps[1..])
  }

  /** The fold is the maximum of the seed and all timestamps: it bounds each of
      them and is attained by one of them. */
  lemma {:induction false} MaxFoldIsMaximum(seed: int, stamps: seq<int>)
    ensures seed <= MaxFold(seed, stamps)
    ensures forall k :: 0 <= k < |stamps| ==> stamps[k] <= MaxFold(seed, stamps)
    ensures MaxFold(seed, stamps) == seed || MaxFold(seed, stamps) in stamps
    decreases |stamps|
  {
    if stamps != [] {
      var next := if stamps[0] > seed then stamps[0] else seed;
      MaxFoldIsMaximum(next, stamps[1..]);
      forall k | 0 <= k < |stamps|
        ensures stamps[k] <= MaxFold(seed, stamps)
      {
        if k > 0 {
          assert stamps[k] == stamps[1..][k - 1];
        }
      }
      if MaxFold(seed, stamps) != seed && MaxFold(seed, stamps) != next {
        assert MaxFold(seed, stamps) in stamps[1..];
      }
    }
  }

  /** getTimestampV1: null when neither `start_time` nor `vehicle_pose` is
      truthy; otherwise `start_time` if truthy, else `vehicle_pose.time`, else
      the fold over `state_updates`, else the unassigned `timestamp`
      (undefined). The branch order is kept as in the source. */
  function GetTimestampV1(data: XvizData): (r: Value) {
    if !Truthy(data.startTime) && data.vehiclePose.None? then
      Null
    else if Truthy(data.startTime) then
      data.startTime
    else if data.vehiclePose.Some? then
      data.vehiclePose.value.time
    else if data.stateUpdates.Some? then
      Num(MaxFold(0, data.stateUpdates.value))
    else
      Undefined
  }

  /** The early null return leaves one of `start_time` and `vehicle_pose`
      truthy, so the two last branches of getTimestampV1 are never taken: the
      result never depends on `state_updates`. */
  lemma V1Cases(data: XvizData)
    ensures GetTimestampV1(data) ==
      if !Truthy(data.startTime) && data.vehiclePose.None? then Null
      else if Truthy(data.startTime) then data.startTime
      else data.vehiclePose.value.time
    ensures forall updates: Option<seq<int>> ::
      GetTimestampV1(data.(stateUpdates := updates)) == GetTimestampV1(data)
  {
  }

  /** getTimestamp: the v1 result when it is truthy, otherwise whatever the
      current-layout extraction `v2` gives. The source calls a getTimestampV2
      it never defines; here it is a parameter. In terms of the frame's own
      fields: a truthy `start_time` wins, then a truthy `vehicle_pose.time`,
      and otherwise `v2` decides; `state_updates` never matters. */
  function GetTimestamp(data: XvizData, v2: XvizData -> Value): (r: Value)
    ensures r == if Truthy(data.startTime) then data.startTime
                 else if data.vehiclePose.Some? && Truthy(data.vehiclePose.value.time) then data.vehiclePose.value.time
                 else v2(data)
  {
    var result := GetTimestampV1(data);
    if !Truthy(result) then v2(data) else result
  }

  /** A frame of neither layout: no legacy field and a current-layout
      extraction that gives null, yields null. Conversely a null result means
      the legacy fields were falsy and v2 gave null. */
  lemma NullOnlyWhenBothShapesFail(data: XvizData, v2: XvizData -> Value)
    ensures GetTimestamp(data, v2) == Null <==>
      ((!Truthy(data.startTime) && (data.vehiclePose.None? || !Truthy(data.vehiclePose.value.time)))
       && v2(data) == Null)
  {
    V1Cases(data);
  }
}
