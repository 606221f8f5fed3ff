# XVIZ playback scheduling, modelled in Dafny

This project models the playback-scheduling core of the XVIZ example data
server (`server_examples/xviz-serve-data.js`). The server streams a recorded
sequence of XVIZ frames to a viewer over a WebSocket. The modelled parts are:

- the frame catalog: `getFrameName`, `getFrameMetadata` and `loadFrames`
  (`catalog.dfy`). The file system is a predicate telling which file names
  exist in the data directory.
- the timestamp extraction `getTimestampV1` / `getTimestamp` over the legacy
  and current frame layouts (`timestamps.dfy`).
- the timing index: `loadTimingIndex` over a precomputed index file and
  `loadFrameTimings`, which carries the last finite timestamp forward
  (`timing.dfy`).
- the frame index resolver `getFrameIndex` with its loop wrap-around
  (`frame_index.dfy`).
- the per-connection state (`connection.dfy`). This covers the global
  connection counter, the `ConnectionContext` constructor, the
  replace-inflight-request protocol of `sendNextFrame` and the frame selection
  of `sendFrame`.

`options.dfy` holds the Option type used for JavaScript's `undefined`/`null`
results.

Foreign calls are parameters of the functions that make them:

- reading and unpacking a frame (`getFrameData`, `unpackFrame`) is `decode`;
- `JSON.parse` of the index file is `parse`;
- the undefined `getTimestampV2` is `v2`.

Timestamps are integers; the core does no arithmetic on them.

The source calls several names that it never declares. The model follows the
evident intent in each case, and says so in a comment at the place:

- `read_index` for `real_index` in `getFrameIndex`;
- `getFrameMetaData` for `getFrameMetadata` in `loadFrames`;
- `Number.ifFinite` for `Number.isFinite` in `loadFrameTimings`;
- `setings` for `settings` in the `ConnectionContext` constructor;
- `this.log` and `this.sendEnveloped` in `sendNextFrame`. `ConnectionContext`
  declares neither method, so as written the replacement branch throws a
  TypeError at the `log` call, before any envelope is sent. The model takes
  logging as doing nothing and a sent envelope as appended to a log.

The `read_index` case is also recorded under Findings, because as written it
breaks looped playback.

Facts about the code that the proofs make explicit:

- Looping with four frames gives slots `0,1,2,3,1,2,3,1` for logical indices
  `0..7` (`FrameIndex.LoopScenario`).
- The `state_updates` fold of `getTimestampV1` can never run: the early
  `null` return leaves `start_time` or `vehicle_pose` truthy
  (`Timestamps.V1Cases`).
- `loadTimingIndex` does not check the `timing` list: an empty list, or one
  whose length differs from the frame count, is returned as it is.
- Carrying timestamps forward does not by itself make the timings
  non-decreasing. They are non-decreasing when the finite timestamps are
  non-decreasing and not negative (`Timing.CarryForwardMonotone`).

## Model

| member | source | states |
|---|---|---|
| FrameIndex.SingleFrameStaysPut | server_examples/xviz-serve-data.js:161-163 | with one frame, every logical index resolves to slot 0 |
| FrameIndex.StraightPlayback | server_examples/xviz-serve-data.js:161-177 | a logical index below the frame count is returned unchanged |
| FrameIndex.LoopWrap | server_examples/xviz-serve-data.js:164-173 | past the end of a list of two or more frames, the slot lies in [1, framesLength-1] and is congruent to the index modulo framesLength-1; it is the last slot exactly when the remainder is 0 |
| FrameIndex.ResolvedSlotInBounds | server_examples/xviz-serve-data.js:161-177 | for any nonempty frame list the resolved slot is a valid position; an empty list resolves to -1 |
| FrameIndex.LoopSkipsFirstSlot | server_examples/xviz-serve-data.js:164-173 | once looping, slot 0 is never selected again |
| FrameIndex.LoopSuccessor | server_examples/xviz-serve-data.js:164-176 | from the last straight slot on, each tick advances the slot by one and goes from the last slot back to slot 1 |
| FrameIndex.NoRepeatedFrame | server_examples/xviz-serve-data.js:161-177 | with three or more frames, two successive logical indices never resolve to the same slot |
| FrameIndex.LoopPeriodic | server_examples/xviz-serve-data.js:164-173 | past the end, slots repeat with period framesLength-1 |
| FrameIndex.LoopScenario | server_examples/xviz-serve-data.js:161-177 | four frames, logical indices 0..7, resolve to slots 0,1,2,3,1,2,3,1 |
| FrameIndex.AsWrittenThrowsWhenLooping | server_examples/xviz-serve-data.js:169 | as written, the function throws exactly when the loop branch is reached, and agrees with the intended function elsewhere |
| FrameIndex.AsWrittenLoopExample | server_examples/xviz-serve-data.js:164-171 | as written, index 4 of four frames throws where the intended code gives slot 1 |
| Timestamps.MaxFoldIsMaximum | server_examples/xviz-serve-data.js:195-197 | the state_updates fold is at least its seed and every timestamp, and equals the seed or one of them |
| Timestamps.V1Cases | server_examples/xviz-serve-data.js:181-201 | getTimestampV1 is null without start_time and vehicle_pose, else start_time if truthy, else vehicle_pose.time; state_updates never affects it |
| Timestamps.GetTimestamp | server_examples/xviz-serve-data.js:181-212 | in terms of the frame's fields: a truthy start_time is the result, else a truthy vehicle_pose.time, else whatever v2 gives; state_updates never matters |
| Timestamps.NullOnlyWhenBothShapesFail | server_examples/xviz-serve-data.js:181-212 | getTimestamp is null exactly when the legacy fields give nothing truthy and v2 gives null |
| Catalog.DecimalRoundTrip | server_examples/xviz-serve-data.js:97 | the decimal spelling of a frame number reads back as that number |
| Catalog.FrameNamesDistinct | server_examples/xviz-serve-data.js:96-98 | names of different frame numbers never coincide |
| Catalog.FindFirst | server_examples/xviz-serve-data.js:101-104 | nothing is found exactly when no name exists; otherwise the result is the first existing name |
| Catalog.GetFrameMetadata | server_examples/xviz-serve-data.js:100-111 | absent exactly when neither file exists; the binary file is preferred over the JSON file |
| Catalog.MaximalRunUnique | server_examples/xviz-serve-data.js:127-134 | the run of frames the scan collects is determined by the directory |
| Catalog.NoDataEmptyRun | server_examples/xviz-serve-data.js:75-81 | when the directory, after setupFrameData's extraction attempt, holds no file of frame 1, the scan collects nothing |
| Catalog.LoadFrames | server_examples/xviz-serve-data.js:121-137 | the collected frames are the maximal gap-free run from START_INDEX, capped at 99999; metadata is its first element and frames the rest |
| Timing.MaxOfEach | server_examples/xviz-serve-data.js:66 | same length as the timing list, entry i is the second component of pair i |
| Timing.LoadTimingIndex | server_examples/xviz-serve-data.js:52-72 | with an index file holding a `timing` entry, its pair maxima in order; with no file, no parsed object or no `timing` entry, the empty sequence |
| Timing.AsWrittenIndexAlwaysEmpty | server_examples/xviz-serve-data.js:54-57 | as written, probing with fs.exists, the index file is never found: where fs.exists without a callback returns undefined (older Node) the result is always empty; current Node throws a TypeError instead, which is not modelled |
| Timing.AsWrittenIndexExample | server_examples/xviz-serve-data.js:52-72 | with `0-frame.json` holding pair (5,7), the intended code gives [7] and the written code gives [] |
| Timing.LastFiniteIsMostRecent | server_examples/xviz-serve-data.js:141-152 | the carried value is the timestamp of the most recent finite frame, or 0 when there is none |
| Timing.CarriedIsSomeStamp | server_examples/xviz-serve-data.js:141-152 | the carried value is 0 or the timestamp of some finite frame |
| Timing.LoadFrameTimings | server_examples/xviz-serve-data.js:140-157 | as many timings as frames; entry i is the last finite timestamp among frames 0..i, or 0 |
| Timing.AllFiniteNoCarry | server_examples/xviz-serve-data.js:147-152 | when every timestamp is finite, each entry is the frame's own timestamp |
| Timing.CarryForwardMonotone | server_examples/xviz-serve-data.js:141-153 | non-decreasing, nonnegative finite timestamps give non-decreasing timings |
| Connection.ConnectionCounter.constructor | server_examples/xviz-serve-data.js:215 | the counter starts at 1 with no identifier issued |
| Connection.ConnectionCounter.ConnectionId | server_examples/xviz-serve-data.js:217-222 | returns the current counter and increments it; the new id exceeds every earlier one |
| Connection.ConnectionContext.constructor | server_examples/xviz-serve-data.js:226-260 | takes a fresh connection id, copies metadata, frames and settings, and starts with no replacement pending, nothing in flight and no envelope or timer |
| Connection.ConnectionContext.SendNextFrame | server_examples/xviz-serve-data.js:275-287 | ends with no replacement pending; a pending replacement is armed with exactly one 'cancelled' envelope, otherwise the given request is armed with no envelope; the armed request records the timer handle; nothing else changes |
| Connection.ConnectionContext.SendFrame | server_examples/xviz-serve-data.js:290-299 | the slot is getFrameIndex of the request's index; for a nonempty list it is in bounds and frames[slot] is selected; below the end it is the index itself |
| Connection.ReplacementScenario | server_examples/xviz-serve-data.js:275-287 | a replacement set before the tick yields one cancellation, both ticks arm the replacement, and the superseded request is left untouched |

## Left out

- File system and archive access (`fs.existsSync`, `readFileSync`, `readFile`, `isJsonObject`, `extractZipFromFile`). The data directory is a predicate on file names, the directory prefix of paths is dropped, and `setupFrameData` is modelled only by its test `HasData`. Unpacking the archive is not modelled.
- `JSON.parse` throwing on a malformed index file, and `unpackFrame` throwing on a bad frame: exceptions from foreign code are not modelled.
- The WebSocket transport, `setTimeout` callbacks firing, `process.hrtime` and logging. An armed timer is an entry in the `timers` log and nothing runs it.
- The empty handlers `onConnection`, `onClose` and `onMessage`, and the unfinished rest of `sendFrame` after `_loadFrameData` is called. Nothing in the source sets `replaceFrameRequest`, so the model leaves it to the caller, as `ReplacementScenario` does.
- The frame loader `_loadFrameData` itself: `SendFrame` returns the argument it would be given.
- `Object.assign(this, allFrameData)` copies every field of `allFrameData`, after `metadata` has been set. `AllFrameData` carries only `frames`, so an `allFrameData` that also has a `metadata` field (as the result of `loadFrames` does) would overwrite the metadata in the source but not in the model.
- The constructor's caches `json_frames`, `is_frame_binary` and `frame_update_times`, and the `null` fields `frame_time_advance` and `t_start_time`: the core never reads them.
- Range ends, live-mode timestamp shifting and "at most one armed timer": the source does not implement them, so they are not modelled.
- `server_examples/scenario-circle.js` (a floating-point scenario generator) and `server_examples/args.js` (command-line parsing).

## Findings

| source | as written | input that shows it | evidently intended | confidence | as-written member | corrected member |
|---|---|---|---|---|---|---|
| server_examples/xviz-serve-data.js:169 | tests the undeclared `read_index`, which throws a ReferenceError whenever the loop branch runs | `getFrameIndex(4, 4)` | test `real_index === 0` and map a zero remainder to the last slot | high, not executed | FrameIndex.AsWrittenThrowsWhenLooping | FrameIndex.LoopWrap |
| server_examples/xviz-serve-data.js:56 | probes with `fs.exists` and no callback, which never returns true, so the index file is never found: older Node returns undefined and the result is `[]`, current Node throws a TypeError | a directory holding `0-frame.json` with `timing: [[5, 7]]` | probe with `fs.existsSync`, as `getFrameMetadata` does | medium, not executed | Timing.AsWrittenIndexAlwaysEmpty | Timing.LoadTimingIndex |
