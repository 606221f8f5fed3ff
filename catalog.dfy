/** The frame catalog of the playback server
    (server_examples/xviz-serve-data.js, getFrameName, getFrameMetadata,
    setupFrameData and loadFrames). The data directory is abstracted into a
    predicate telling which file names exist in it after the archive, if any,
    has been unpacked. */
module Catalog {

  import opened Options

  const FRAME_DATA_SUFFIX: string := "-frame.glb"
  const FRAME_DATA_JSON_SUFFIX: string := "-frame.json"

  /** Frame 0 is the optional timing index, frames are numbered from 1. */
  const TIMING_INDEX: nat := 0
  const START_INDEX: nat := 1
  /** The last frame number loadFrames probes. */
  const LAST_INDEX: nat := 99999

  /** The `{path}` object getFrameMetadata returns for a frame file found in
      the data directory; the directory prefix is left out. */
  datatype FrameMeta = FrameMeta(path: string)

  function DigitChar(d: nat): (c: char)
    requires d < 10
  {
    "0123456789"[d]
  }

  function DigitValue(c: char): nat {
    if '0' <= c <= '9' then (c - '0') as nat else 0
  }

  /** The decimal spelling `${index}` of a frame number. */
  function DecimalString(n: nat): (s: string)
    ensures |s| >= 1
    decreases n
  {
    if n < 10 then [DigitChar(n)] else DecimalString(n / 10) + [DigitChar(n % 10)]
  }

  /** Reads a string of decimal digits back as a number. */
  function DecimalValue(s: string): nat
    decreases |s|
  {
    if s == [] then 0 else DecimalValue(s[..|s| - 1]) * 10 + DigitValue(s[|s| - 1])
  }

  /** The spelling of a frame number reads back as that number. */
  lemma {:induction false} DecimalRoundTrip(n: nat)
    ensures DecimalValue(DecimalString(n)) == n
    decreases n
  {
    var s := DecimalString(n);
    if n >= 10 {
      DecimalRoundTrip(n / 10);
      assert s[..|s| - 1] == DecimalString(n / 10);
      assert DigitValue(s[|s| - 1]) == n % 10;
    } else {
      assert DigitValue(s[0]) == n;
    }
  }

  /** getFrameName: the binary name first, then the JSON name. */
  function GetFrameName(index: nat): (names: seq<string>)
    ensures |names| == 2
    ensures names[0] == DecimalString(index) + FRAME_DATA_SUFFIX
    ensures names[1] == DecimalString(index) + FRAME_DATA_JSON_SUFFIX
  {
    [DecimalString(index) + FRAME_DATA_SUFFIX, DecimalString(index) + FRAME_DATA_JSON_SUFFIX]
  }

  lemma StripSuffix(a: string, b: string, suffix: string)
    requires a + suffix == b + suffix
    ensures a == b
  {
    assert |a| == |b|;
    assert a == (a + suffix)[..|a|];
    assert b == (b + suffix)[..|b|];
  }

  /** Different frame numbers never share a file name, so each file belongs to
      exactly one frame number. */
  lemma FrameNamesDistinct(i: nat, j: nat, k: nat, l: nat)
    requires i != j && k < 2 && l < 2
    ensures GetFrameName(i)[k] != GetFrameName(j)[l]
  {
    var ni, nj := GetFrameName(i), GetFrameName(j);
    if k != l {
      // The binary names end in 'b', the JSON names in 'n'.
      assert ni[k][|ni[k]| - 1] != nj[l][|nj[l]| - 1];
    } else if ni[k] == nj[l] {
      var suffix := if k == 0 then FRAME_DATA_SUFFIX else FRAME_DATA_JSON_SUFFIX;
      StripSuffix(DecimalString(i), DecimalString(j), suffix);
      DecimalRoundTrip(i);
      DecimalRoundTrip(j);
    }
  }

  /** Array.prototype.find over candidate names: the first one that exists. */
  function FindFirst(names: seq<string>, fileExists: string -> bool): (r: Option<string>)
    ensures r.None? <==> forall k :: 0 <= k < |names| ==> !fileExists(names[k])
    ensures r.Some? ==> exists k :: (0 <= k < |names| && names[k] == r.value
      && fileExists(names[k]) && forall m :: 0 <= m < k ==> !fileExists(names[m]))
    decreases |names|
  {
    if names == [] then None
    else if fileExists(names[0]) then Some(names[0])
    else
      var rest := FindFirst(names[1..], fileExists);
      assert forall k :: 1 <= k < |names| ==> names[k] == names[1..][k - 1];
      rest
  }

  /** getFrameMetadata: the path of frame `index`, the binary file preferred
      over the JSON one, or nothing when neither exists. (loadFrames calls it
      as getFrameMetaData, a name the source never declares; the declared
      function is the evident intent.) */
  function GetFrameMetadata(index: nat, fileExists: string -> bool): (r: Option<FrameMeta>)
    ensures r.None? <==> !fileExists(GetFrameName(index)[0]) && !fileExists(GetFrameName(index)[1])
    ensures fileExists(GetFrameName(index)[0]) ==> r == Some(FrameMeta(GetFrameName(index)[0]))
    ensures !fileExists(GetFrameName(index)[0]) && fileExists(GetFrameName(index)[1])
        ==> r == Some(FrameMeta(GetFrameName(index)[1]))
  {
    var name := FindFirst(GetFrameName(index), fileExists);
    if name.Some? then Some(FrameMeta(name.value)) else None
  }

  /** setupFrameData's test: some file of the first frame is present. When it
      is not, the source tries to unpack `frames.tar.gz`; that step is not
      part of this model, `fileExists` describes the directory after it. */
  predicate HasData(fileExists: string -> bool) {
    fileExists(GetFrameName(START_INDEX)[0]) || fileExists(GetFrameName(START_INDEX)[1])
  }

  /** The frame `offset` places after START_INDEX, if present. */
  function FrameAt(fileExists: string -> bool, offset: nat): Option<FrameMeta> {
    GetFrameMetadata(START_INDEX + offset, fileExists)
  }

  /** `run` is what loadFrames collects: the frames START_INDEX,
      START_INDEX + 1, ... in order, stopping before the first missing number
      or after LAST_INDEX. */
  ghost predicate IsMaximalRun(fileExists: string -> bool, run: seq<FrameMeta>) {
    && |run| <= LAST_INDEX - START_INDEX + 1
    && (forall j :: 0 <= j < |run| ==> FrameAt(fileExists, j) == Some(run[j]))
    && (|run| < LAST_INDEX - START_INDEX + 1 ==> FrameAt(fileExists, |run|).None?)
  }

  /** The run is determined by the directory: two maximal runs are equal. */
  lemma MaximalRunUnique(fileExists: string -> bool, a: seq<FrameMeta>, b: seq<FrameMeta>)
    requires IsMaximalRun(fileExists, a) && IsMaximalRun(fileExists, b)
    ensures a == b
  {
    forall j | 0 <= j < |a| ensures a[j] == b[j] {
      assert FrameAt(fileExists, j) == Some(a[j]);
    }
  }

  /** Without data for the first frame the run is empty. */
  lemma NoDataEmptyRun(fileExists: string -> bool, run: seq<FrameMeta>)
    requires !HasData(fileExists) && IsMaximalRun(fileExists, run)
    ensures run == []
  {
    assert FrameAt(fileExists, 0).None?;
  }

  /** The joined sequence `frames` of the source: `metadata` and the data
      frames after it. */
  function Collected(metadata: Option<FrameMeta>, frames: seq<FrameMeta>): seq<FrameMeta> {
    if metadata.None? then [] else [metadata.value] + frames
  }

  /** loadFrames: collect frames START_INDEX, START_INDEX + 1, ... while they
      exist, up to LAST_INDEX; the first becomes the metadata frame (`frames[0]`,
      undefined for an empty run) and the rest, `frames.slice(1)`, the data
      frames. */
  method LoadFrames(fileExists: string -> bool) returns (metadata: Option<FrameMeta>, frames: seq<FrameMeta>)
    ensures metadata.None? ==> frames == []
    ensures IsMaximalRun(fileExists, Collected(metadata, frames))
    ensures metadata.None? <==> GetFrameMetadata(START_INDEX, fileExists).None?
    ensures metadata.Some? ==> |frames| == |Collected(metadata, frames)| - 1
  {
    var collected: seq<FrameMeta> := [];
    var i := START_INDEX;
    while i <= LAST_INDEX
      invariant START_INDEX <= i <= LAST_INDEX + 1
      invariant |collected| == i - START_INDEX
      invariant forall j :: 0 <= j < |collected| ==> FrameAt(fileExists, j) == Some(collected[j])
      decreases LAST_INDEX + 1 - i
    {
      var meta := GetFrameMetadata(i, fileExists);
      if meta.Some? {
        collected := collected + [meta.value];
      } else {
        break;
      }
      i := i + 1;
    }
    if collected == [] {
      metadata, frames := None, [];
    } else {
      metadata, frames := Some(collected[0]), collected[1..];
      assert Collected(metadata, frames) == collected;
    }
  }
}
