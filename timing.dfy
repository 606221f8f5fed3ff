/** The timing index of the playback server: one timestamp per frame, read
    from a precomputed index file or derived by decoding every frame
    (server_examples/xviz-serve-data.js, loadTimingIndex and loadFrameTimings). */
module Timing {

  import opened Options
  import opened Timestamps
  import opened Catalog

  /** The parsed index file `{startTime, endTime, timing}`; only `timing`, the
      list of (min, max) timestamp pairs, is read. A missing or falsy `timing`
      is None (an array, even an empty one, is truthy). */
  datatype TimingFile = TimingFile(timing: Option<seq<(int, int)>>)

  /** timing.map(x => x[1]): the second component of each pair. */
  function MaxOfEach(pairs: seq<(int, int)>): (r: seq<int>)
    ensures |r| == |pairs|
    ensures forall i :: 0 <= i < |pairs| ==> r[i] == pairs[i].1
    decreases |pairs|
  {
    if pairs == [] then [] else [pairs[0].1] + MaxOfEach(pairs[1..])
  }

  /** loadTimingIndex with the existence probe as a parameter: find the first
      name of frame TIMING_INDEX the probe accepts, parse that file (`parse`
      stands for reading it and JSON.parse; None is a null result) and return
      the max of each pair, or the empty sequence when there is no such file,
      no parsed object or no `timing` entry. */
  function LoadTimingIndexWith(probe: string -> bool, parse: FrameMeta -> Option<TimingFile>): seq<int> {
    var timingName := FindFirst(GetFrameName(TIMING_INDEX), probe);
    if timingName.Some? then
      var timingData := parse(FrameMeta(timingName.value));
      if timingData.Some? && timingData.value.timing.Some? then
        MaxOfEach(timingData.value.timing.value)
      else
        []
    else
      []
  }

  /** loadTimingIndex as intended: the file is looked up with the same
      existence test as the frame files. */
  function LoadTimingIndex(fileExists: string -> bool, parse: FrameMeta -> Option<TimingFile>): (r: seq<int>)
    ensures GetFrameMetadata(TIMING_INDEX, fileExists).None? ==> r == []
    ensures GetFrameMetadata(TIMING_INDEX, fileExists).Some? ==>
      var timingData := parse(GetFrameMetadata(TIMING_INDEX, fileExists).value);
      if timingData.Some? && timingData.value.timing.Some? then
        |r| == |timingData.value.timing.value|
        && forall i :: 0 <= i < |r| ==> r[i] == timingData.value.timing.value[i].1
      else
        r == []
  {
    LoadTimingIndexWith(fileExists, parse)
  }

  /** fs.exists as the source calls it, without a callback: it never returns
      true. Older Node versions return undefined, which is what is modelled;
      current ones throw a TypeError instead, so loadTimingIndex throws rather
      than returning the empty sequence, and no index is used either way. */
  function AsyncExistsProbe(name: string): bool {
    false
  }

  /** loadTimingIndex as written, probing with fs.exists. */
  function LoadTimingIndexAsWritten(parse: FrameMeta -> Option<TimingFile>): seq<int> {
    LoadTimingIndexWith(AsyncExistsProbe, parse)
  }

  /** As written, the precomputed index is never used, whatever the directory
      holds. */
  lemma AsWrittenIndexAlwaysEmpty(parse: FrameMeta -> Option<TimingFile>)
    ensures LoadTimingIndexAsWritten(parse) == []
  {
    var names := GetFrameName(TIMING_INDEX);
    assert !AsyncExistsProbe(names[0]) && !AsyncExistsProbe(names[1]);
  }

  /** A directory holding `0-frame.json` with one timing pair: the intended
      code returns that pair's maximum, the written code nothing. */
  lemma AsWrittenIndexExample()
    ensures var fileExists := (name: string) => name == "0-frame.json";
      var parse := (m: FrameMeta) => Some(TimingFile(Some([(5, 7)])));
      LoadTimingIndex(fileExists, parse) == [7] && LoadTimingIndexAsWritten(parse) == []
  {
    var fileExists := (name: string) => name == "0-frame.json";
    var parse := (m: FrameMeta) => Some(TimingFile(Some([(5, 7)])));
    assert DecimalString(0) == "0";
    assert GetFrameName(0)[0] == "0-frame.glb" && GetFrameName(0)[1] == "0-frame.json";
    assert !fileExists(GetFrameName(0)[0]) && fileExists(GetFrameName(0)[1]);
    AsWrittenIndexAlwaysEmpty(parse);
  }

  /** The timestamp carried forward after seeing `stamps`: that of the most
      recent finite one, or the initial 0 when there is none. */
  function LastFinite(stamps: seq<Value>): int
    decreases |stamps|
  {
    if stamps == [] then 0
    else if IsFinite(stamps[|stamps| - 1]) then stamps[|stamps| - 1].n
    else LastFinite(stamps[..|stamps| - 1])
  }

  /** LastFinite picks the most recent finite timestamp: when position j is
      finite and nothing after it is, the result is stamps[j]; when none is
      finite, it is 0. */
  lemma {:induction false} LastFiniteIsMostRecent(stamps: seq<Value>)
    ensures (forall k :: 0 <= k < |stamps| ==> !IsFinite(stamps[k])) ==> LastFinite(stamps) == 0
    ensures forall j :: (0 <= j < |stamps| && IsFinite(stamps[j])
      && (forall k :: j < k < |stamps| ==> !IsFinite(stamps[k]))
      ==> LastFinite(stamps) == stamps[j].n)
    decreases |stamps|
  {
    if stamps != [] {
      var init := stamps[..|stamps| - 1];
      LastFiniteIsMostRecent(init);
      assert forall k :: 0 <= k < |init| ==> init[k] == stamps[k];
    }
  }

  /** The timestamps getTimestamp extracts from the frames, in order;
      `decode` stands for reading a frame file and unpacking it to its JSON
      form, `v2` for the current-layout extraction. */
  function FrameStamps(frames: seq<FrameMeta>, decode: FrameMeta -> XvizData, v2: XvizData -> Value): (r: seq<Value>)
    ensures |r| == |frames|
    ensures forall i :: 0 <= i < |frames| ==> r[i] == GetTimestamp(decode(frames[i]), v2)
  {
    seq(|frames|, i requires 0 <= i < |frames| => GetTimestamp(decode(frames[i]), v2))
  }

  /** loadFrameTimings: map every frame to the last finite timestamp seen so
      far (Number.isFinite; the source misspells it Number.ifFinite). */
  method LoadFrameTimings(frames: seq<FrameMeta>, decode: FrameMeta -> XvizData, v2: XvizData -> Value)
    returns (timings: seq<int>)
    ensures |timings| == |frames|
    ensures forall i :: 0 <= i < |frames| ==> timings[i] == LastFinite(FrameStamps(frames, decode, v2)[..i + 1])
  {
    ghost var stamps := FrameStamps(frames, decode, v2);
    var lastTime := 0;
    timings := [];
    var i := 0;
    while i < |frames|
      invariant 0 <= i <= |frames|
      invariant |timings| == i
      invariant lastTime == LastFinite(stamps[..i])
      invariant forall k :: 0 <= k < i ==> timings[k] == LastFinite(stamps[..k + 1])
    {
      var ts := GetTimestamp(decode(frames[i]), v2);
      assert stamps[..i + 1][..i] == stamps[..i];
      if IsFinite(ts) {
        lastTime := ts.n;
      }
      timings := timings + [lastTime];
      i := i + 1;
    }
  }

  /** When every frame yields a finite timestamp nothing is carried forward:
      each entry is that frame's own timestamp. */
  lemma AllFiniteNoCarry(stamps: seq<Value>, i: nat)
    requires i < |stamps|
    requires forall k :: 0 <= k < |stamps| ==> IsFinite(stamps[k])
    ensures IsFinite(stamps[i]) && LastFinite(stamps[..i + 1]) == stamps[i].n
  {
    assert stamps[..i + 1][i] == stamps[i];
  }

  /** Carry-forward keeps the order of the finite timestamps: if those are
      non-decreasing and not below the initial 0, so are the timings. */
  lemma CarryForwardMonotone(stamps: seq<Value>, i: nat, j: nat)
    requires i <= j < |stamps|
    requires forall a, b :: (0 <= a < b < |stamps| && IsFinite(stamps[a]) && IsFinite(stamps[b])
      ==> stamps[a].n <= stamps[b].n)
    requires forall a :: 0 <= a < |stamps| && IsFinite(stamps[a]) ==> stamps[a].n >= 0
    ensures LastFinite(stamps[..i + 1]) <= LastFinite(stamps[..j + 1])
    decreases j - i
  {
    if i < j {
      CarryForwardMonotone(stamps, i, j - 1);
      var s := stamps[..j + 1];
      assert s[..|s| - 1] == stamps[..j];
      if IsFinite(stamps[j]) {
        CarriedIsSomeStamp(stamps[..j]);
        if LastFinite(stamps[..j]) != 0 {
          var a :| 0 <= a < j && IsFinite(stamps[a]) && LastFinite(stamps[..j]) == stamps[a].n;
        }
      }
    }
  }

  /** A carried value is 0 or the timestamp of some finite frame. */
  lemma {:induction false} CarriedIsSomeStamp(stamps: seq<Value>)
    ensures LastFinite(stamps) == 0 || exists a :: 0 <= a < |stamps| && IsFinite(stamps[a]) && LastFinite(stamps) == stamps[a].n
    decreases |stamps|
  {
    if stamps != [] && !IsFinite(stamps[|stamps| - 1]) {
      var init := stamps[..|stamps| - 1];
      CarriedIsSomeStamp(init);
      if LastFinite(init) != 0 {
        var a :| 0 <= a < |init| && IsFinite(init[a]) && LastFinite(init) == init[a].n;
        assert stamps[a] == init[a];
      }
    }
  }
}
