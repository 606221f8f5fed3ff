/** Per-connection state of the playback server
    (server_examples/xviz-serve-data.js, connectionId and ConnectionContext).
    The WebSocket, the clock and the logger are not modelled: an envelope sent
    to the viewer is appended to a log, and setTimeout is modelled by
    appending the armed timer, with the request its callback will send, to a
    list of armed timers. */
module Connection {

  import opened Options
  import opened FrameIndex
  import opened Catalog

  /** The one envelope kind the core sends itself. */
  const CANCELLED: string := "cancelled"

  /** An envelope handed to sendEnveloped; the core only sends an empty
      payload, so the kind is all it carries. */
  datatype Envelope = Envelope(kind: string)

  /** The settings a connection reads: `send_interval` and `skip_images`. */
  datatype Settings = Settings(sendInterval: int, skipImages: bool)

  /** The frame data copied onto the connection with Object.assign. */
  datatype AllFrameData = AllFrameData(frames: seq<FrameMeta>)

  /** The global `_connectionCounter` with its accessor connectionId. */
  class ConnectionCounter {
    var next: int
    /** The identifiers handed out so far, in order. */
    ghost var issued: seq<int>

    ghost predicate Valid()
      reads this
    {
      && (forall i, j :: 0 <= i < j < |issued| ==> issued[i] < issued[j])
      && (forall i :: 0 <= i < |issued| ==> issued[i] < next)
    }

    /** `let _connectionCounter = 1`. */
    constructor ()
      ensures Valid() && next == 1 && issued == []
    {
      next := 1;
      issued := [];
    }

    /** connectionId(): hand out the current counter and increment it. Every
        identifier is larger than all earlier ones, so no two connections
        share one. */
    method ConnectionId() returns (id: int)
      requires Valid()
      modifies this
      ensures Valid()
      ensures id == old(next) && next == old(next) + 1
      ensures issued == old(issued) + [id]
      ensures forall i :: 0 <= i < |old(issued)| ==> old(issued)[i] < id
    {
      id := next;
      next := next + 1;
      issued := issued + [id];
    }
  }

  /** A frame request: the logical index to send next, the end of the range,
      and the handle of the timer armed for it (`sendInterval`), which
      sendNextFrame writes. */
  class FrameRequest {
    var index: nat
    var end: int
    var sendInterval: Option<nat>

    constructor (index: nat, end: int)
      ensures this.index == index && this.end == end && sendInterval == None
    {
      this.index := index;
      this.end := end;
      sendInterval := None;
    }
  }

  /** A timer armed with setTimeout: its handle, the request its callback
      passes to sendFrame, and its delay. */
  datatype Timer = Timer(handle: nat, request: FrameRequest, delay: int)

  class ConnectionContext {
    var metadata: Option<FrameMeta>
    var connectionId: int
    var frames: seq<FrameMeta>
    var settings: Settings
    var sendMetadata: bool
    /** The request that replaces the in-flight one at the next tick. */
    var replaceFrameRequest: Option<FrameRequest>
    var inflight: bool
    var transformId: string
    /** Envelopes sent to the viewer, oldest first. */
    var envelopes: seq<Envelope>
    /** Timers armed so far, oldest first; a timer's handle is its position. */
    var timers: seq<Timer>

    /** The pending replacement, as a set of objects for frames. */
    function Pending(): set<FrameRequest>
      reads this
    {
      if replaceFrameRequest.Some? then {replaceFrameRequest.value} else {}
    }

    /** The constructor takes a fresh identifier from the global counter and
        starts with no replacement pending, nothing in flight and the metadata
        not yet sent. (The source assigns the undeclared `setings`; the
        parameter `settings` is the evident intent.) */
    constructor (settings: Settings, metadata: Option<FrameMeta>, allFrameData: AllFrameData,
                 counter: ConnectionCounter)
      requires counter.Valid()
      modifies counter
      ensures counter.Valid()
      ensures connectionId == old(counter.next) && counter.next == old(counter.next) + 1
      ensures counter.issued == old(counter.issued) + [connectionId]
      ensures this.metadata == metadata && frames == allFrameData.frames && this.settings == settings
      ensures !sendMetadata && replaceFrameRequest.None? && !inflight && transformId == ""
      ensures envelopes == [] && timers == []
    {
      this.metadata := metadata;
      var id := counter.ConnectionId();
      connectionId := id;
      frames := allFrameData.frames;
      this.settings := settings;
      sendMetadata := false;
      replaceFrameRequest := None;
      inflight := false;
      transformId := "";
      envelopes := [];
      timers := [];
    }

    /** sendNextFrame(frameRequest): a pending replacement, if any, takes the
        place of the given request, the viewer is sent one 'cancelled'
        envelope and the pending slot is cleared; then a timer is armed that
        will send the chosen request after the send interval, and its handle
        is stored in that request. The source calls `this.log` and
        `this.sendEnveloped`, which ConnectionContext does not declare (as
        written the replacement branch throws a TypeError at the `log` call);
        the evident intent is modelled: logging does nothing and the envelope
        is appended to `envelopes`. */
    method SendNextFrame(frameRequest: FrameRequest)
      modifies this, frameRequest, Pending()
      ensures replaceFrameRequest.None?
      ensures var armed := if old(replaceFrameRequest).Some? then old(replaceFrameRequest).value else frameRequest;
        && timers == old(timers) + [Timer(|old(timers)|, armed, settings.sendInterval)]
        && armed.sendInterval == Some(|old(timers)|)
        && armed.index == old(armed.index) && armed.end == old(armed.end)
        && (frameRequest != armed ==> unchanged(frameRequest))
      ensures envelopes == old(envelopes) + (if old(replaceFrameRequest).Some? then [Envelope(CANCELLED)] else [])
      ensures metadata == old(metadata) && connectionId == old(connectionId) && frames == old(frames)
      ensures settings == old(settings) && sendMetadata == old(sendMetadata)
      ensures inflight == old(inflight) && transformId == old(transformId)
    {
      var request := frameRequest;
      if replaceFrameRequest.Some? {
        request := replaceFrameRequest.value;
        envelopes := envelopes + [Envelope(CANCELLED)];
        replaceFrameRequest := None;
      }
      var handle := |timers|;
      timers := timers + [Timer(handle, request, settings.sendInterval)];
      request.sendInterval := Some(handle);
    }

    /** The part of sendFrame that chooses the frame: the logical index of the
        request is resolved with getFrameIndex against the number of data
        frames, and `frames[frame_index]` is what is handed to the frame
        loader (None where JavaScript would read undefined). For a nonempty
        frame list the slot is always inside it, and before the end of the
        list it is the logical index itself. */
    method SendFrame(frameRequest: FrameRequest) returns (frameIndex: int, frame: Option<FrameMeta>)
      ensures frameIndex == GetFrameIndex(frameRequest.index, |frames|)
      ensures |frames| >= 1 ==> 0 <= frameIndex < |frames| && frame == Some(frames[frameIndex])
      ensures frameRequest.index < |frames| ==> frame == Some(frames[frameRequest.index])
      ensures |frames| > 1 && frameRequest.index >= |frames| ==>
        1 <= frameIndex < |frames| && frameIndex % (|frames| - 1) == frameRequest.index % (|frames| - 1)
      ensures |frames| == 0 ==> frame.None?
    {
      var ii := frameRequest.index;
      frameIndex := GetFrameIndex(ii, |frames|);
      ResolvedSlotInBounds(ii, |frames|);
      if |frames| > 1 && ii >= |frames| {
        LoopWrap(ii, |frames|);
      }
      if 0 <= frameIndex < |frames| {
        frame := Some(frames[frameIndex]);
      } else {
        frame := None;
      }
    }
  }

  /** A replacement set before the tick fires is the request that gets armed,
      with exactly one cancellation sent; the superseded request gets no timer
      and keeps its fields, and a second tick arms its own request without a
      further cancellation. */
  method ReplacementScenario(ctx: ConnectionContext, current: FrameRequest, replacement: FrameRequest)
    requires current != replacement
    requires ctx.replaceFrameRequest.None? && ctx.envelopes == [] && ctx.timers == []
    modifies ctx, current, replacement
    ensures ctx.envelopes == [Envelope(CANCELLED)]
    ensures |ctx.timers| == 2 && ctx.timers[0].request == replacement && ctx.timers[1].request == replacement
    ensures current.index == old(current.index) && current.sendInterval == old(current.sendInterval)
  {
    ctx.replaceFrameRequest := Some(replacement);
    ctx.SendNextFrame(current);
    assert ctx.envelopes == [Envelope(CANCELLED)];
    ctx.SendNextFrame(replacement);
  }
}
