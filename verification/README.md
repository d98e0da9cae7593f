# Frame capture engine — a Dafny model

This project models the frame-capture core of a small browser app that streams
live video between devices and lets the operator pull still images out of the
feed. The `FrameCapture` class (src/utils/frameCapture.ts) owns one offscreen
canvas. It samples the video onto that canvas and encodes it into a captured
frame (`captureFrame`). It runs an automatic capture loop on an interval
(`startAutoCapture`, `stopAutoCapture`, `cleanup`). It exports frames as
single-file downloads (`downloadFrame`), and as a staggered series of
downloads that stands in for a zip (`downloadFramesAsZip`). It also projects a
frame's metadata (`getFrameMetadata`). Two pieces of page logic are modelled
as well: the page-mode state of src/pages/Index.tsx, and the room-id guard and
random room id of src/components/RoomJoin.tsx.

The model is functional. Frames, settings, canvas and scheduler state are
immutable datatypes, and every operation is a pure function of its inputs.
The browser is a parameter: the encoder (`toBlob`, `toDataURL`), the two
`Date.now()` readings, the text of `Math.random().toString(36)`, the video's
current native size and `toISOString` are all supplied by the caller. Timers
are a logical timer table. An interval tick is an event naming a handle, and an
asynchronous capture is an in-flight entry that a later event settles.

Modules, one per concern:

- `Wrappers` (wrappers.dfy): `Option` for optional values and `Result` for a settled promise.
- `JsString` (js_string.dfy): the ECMAScript string built-ins the core uses, on `seq<char>`: `trim`, `indexOf`/`includes`, `replace` with a string pattern, `substring`, `substr`, `toUpperCase`, and the decimal rendering of a non-negative integer.
- `Sampler` (sampler.dfy): `captureFrame`, the frame id and `getFrameMetadata`.
- `AutoCapture` (auto_capture.dfy): the scheduler state machine, its invariant and its trace lemmas.
- `Export` (export.dfy): download names and the staggered zip plan.
- `RoomJoin` (room_join.dfy) and `IndexPage` (index_page.dfy): the room screen and the page.

Some behaviour of the code as written is stated rather than corrected:

- An explicit width or height of 0 falls back to the video's size, because the code uses `||`.
- `captureFrame` reads `Date.now()` twice, so a frame's id and its `timestamp` may come from different clock readings.
- The `.png`/`.jpg` test in `downloadFrame` searches the whole data URL, payload included (`Export.PngTestReadsPayload`).
- Every zip entry is named `.jpg`, whatever the frame's format.
- Automatic captures are not serialised. A capture in flight when the loop is stopped still reaches `onFrame` (`AutoCapture.InFlightDeliveredAfterStop`). The model proves only that no NEW capture starts after a stop (`AutoCapture.NoTickAfterStop`).

## Model

| member | source | states |
|---|---|---|
| Sampler.ResolveDimension | src/utils/frameCapture.ts:42-43 | a present, non-zero setting is the dimension; an absent or zero one falls back to the video's native size |
| Sampler.CaptureFrame | src/utils/frameCapture.ts:35-77 | the canvas is resized to the resolved size; the promise resolves exactly when the encoder yields a blob; a null blob and a thrown encoder error both reject and produce no frame; a frame carries the encoder's blob and data URL, the id built from the id clock, the timestamp from the second clock, and exactly the canvas's size |
| Sampler.FrameId | src/utils/frameCapture.ts:60 | the id is `frame_`, then digits that read back as the clock value, then `_`, then exactly the random string's characters 2 to 10 (fewer if it is shorter) |
| Sampler.FrameIdInjective | src/utils/frameCapture.ts:60 | two ids are equal only if both the clock readings and the 9-character random suffixes are equal |
| Sampler.CaptureIgnoresPreviousCanvas | src/utils/frameCapture.ts:45-49 | the reused canvas is fully overwritten: the result of a capture does not depend on earlier captures |
| Sampler.ExplicitSizeIsFrameSize | src/utils/frameCapture.ts:42-65 | with explicit non-zero width and height, a successful frame has exactly those dimensions, whatever the video's size |
| Sampler.FrameMetadata | src/utils/frameCapture.ts:131-141 | the metadata copies id, timestamp, width and height, the blob's size and type, and the ISO date of the timestamp |
| Sampler.CapturedFrameMetadata | src/utils/frameCapture.ts:131-141 | the metadata of a captured frame reports the resolved capture size, the encoder's blob size and type, and the capture-time id |
| AutoCapture.Stop | src/utils/frameCapture.ts:105-111 | from any state: the flag is clear, no handle is held, the held interval (if any) is removed from the timer table, and in-flight captures and deliveries are untouched |
| AutoCapture.Cleanup | src/utils/frameCapture.ts:143-145 | on a valid state cleanup is exactly a stop (`Step` uses `Stop` itself): it clears the flag, holds no handle, leaves no interval of the instance armed, and keeps the canvas, the session counter, the next timer handle, in-flight captures and deliveries |
| AutoCapture.RunLoop | src/utils/frameCapture.ts:87-96 | with the flag clear the loop body changes nothing; otherwise it starts exactly one capture on the shared canvas with the loop's settings |
| AutoCapture.Start | src/utils/frameCapture.ts:79-103 | stops first, then sets the flag, starts one capture immediately, and arms exactly one fresh interval, with the period `settings.intervalMs`, whose handle is held; the previously held interval is cleared |
| AutoCapture.Fire | src/utils/frameCapture.ts:102 | a tick of a cleared interval changes nothing; a tick of an armed interval runs that interval's loop body |
| AutoCapture.Settle | src/utils/frameCapture.ts:90-95 | a settled frame is appended to the `onFrame` calls; a failed capture is swallowed with no delivery; flag and interval stay as they were |
| AutoCapture.StepPreservesValid | src/utils/frameCapture.ts:84-111 | every operation keeps the invariant: the flag is set exactly when a handle is held, and that handle is the only armed interval and runs the latest loop |
| AutoCapture.RunPreservesValid | src/utils/frameCapture.ts:84-111 | the invariant holds after any sequence of starts, stops, cleanups, ticks and settlements |
| AutoCapture.AtMostOneInterval | src/utils/frameCapture.ts:84-85 | under the invariant at most one interval is armed |
| AutoCapture.ReachableHasAtMostOneInterval | src/utils/frameCapture.ts:84-111 | every state reachable from a fresh instance has at most one armed interval |
| AutoCapture.RestartReplacesInterval | src/utils/frameCapture.ts:84-102 | starting while running clears the old handle; the new handle is the only armed interval |
| AutoCapture.StopIdempotent | src/utils/frameCapture.ts:105-111 | stopping twice gives the same state as stopping once |
| AutoCapture.StopWhenIdleIsNoop | src/utils/frameCapture.ts:105-111 | stopping an instance that is not capturing (a fresh one included) changes nothing |
| AutoCapture.NoTickAfterStop | src/utils/frameCapture.ts:105-111 | after a stop no tick can start a capture |
| AutoCapture.InFlightDeliveredAfterStop | src/utils/frameCapture.ts:88-92 | a capture in flight at the stop that settles with a frame is still delivered to `onFrame` |
| AutoCapture.OneCapturePerTick | src/utils/frameCapture.ts:87-102 | while capturing, n ticks of the held interval start exactly n captures, in order, with the interval's settings, and change nothing else |
| AutoCapture.StartThenTicks | src/utils/frameCapture.ts:98-102 | a start followed by n ticks starts n + 1 captures: the immediate one first, then one per tick |
| AutoCapture.SettleAllInOrder | src/utils/frameCapture.ts:90-95 | settling all in-flight captures in order delivers each successful frame once, in order, drops the failed ones, and leaves flag and interval unchanged |
| AutoCapture.FailedTickDoesNotStopLoop | src/utils/frameCapture.ts:87-102 | in a start-then-ticks run on a fresh instance, every successful capture (immediate or per tick) reaches `onFrame` whatever failed in between, and the loop is still running |
| Export.DefaultExtension | src/utils/frameCapture.ts:116 | the extension is `png` exactly when the data URL contains "png", otherwise `jpg` |
| Export.DefaultName | src/utils/frameCapture.ts:116 | the made-up name is `frame_` + digits + `.png`/`.jpg`; it ends in `.png` iff the data URL contains "png"; the digits read back as the frame's timestamp and are exactly as many as its canonical decimal form (no leading zero) |
| Export.DownloadName | src/utils/frameCapture.ts:113-116 | a non-empty caller file name is used verbatim; an absent or empty one gives the made-up name |
| Export.PngTestReadsPayload | src/utils/frameCapture.ts:116 | a JPEG data URL whose payload contains "png" is saved with `.png` |
| Export.WebpSavedAsJpg | src/utils/frameCapture.ts:116 | a WebP data URL without "png" is saved with `.jpg` |
| Export.DefaultZipBase | src/utils/frameCapture.ts:122 | without a zip name the entries are based on `frames` |
| Export.ZipBaseStripsExtension | src/utils/frameCapture.ts:126 | a name `b.zip` whose stem holds no ".zip" is based on `b` |
| Export.ZipBaseKeepsOtherNames | src/utils/frameCapture.ts:126 | a name without ".zip" is used as the base unchanged |
| Export.ScheduleZipDownloads | src/utils/frameCapture.ts:122-129 | the plan satisfies `IsZipPlan`: one download per frame, in input order; frame i fires after i*100 ms under `<base>_<i+1>.jpg` |
| Export.ZipDelaysIncrease | src/utils/frameCapture.ts:124-127 | in a zip plan, later positions fire strictly later, by 100 ms per position |
| Export.ZipEntryNamesDistinct | src/utils/frameCapture.ts:126 | different positions get different file names |
| Export.ZipEntryUsedVerbatim | src/utils/frameCapture.ts:116-126 | each entry name is used verbatim by `downloadFrame` and ends in `.jpg` |
| JsString.Trim | src/components/RoomJoin.tsx:16-17 | the result has no whitespace at either end and is an infix of the input with only whitespace outside it |
| JsString.TrimEmptyIffBlank | src/components/RoomJoin.tsx:16 | a string trims to empty exactly when it is all whitespace |
| JsString.TrimIdempotent | src/components/RoomJoin.tsx:17 | trimming a trimmed id changes nothing |
| JsString.IndexOfFrom | src/utils/frameCapture.ts:116-126 | the result is an occurrence at or after the start with no earlier one; no result means no occurrence |
| JsString.Includes | src/utils/frameCapture.ts:116 | true exactly when the pattern occurs somewhere |
| JsString.ReplaceFirst | src/utils/frameCapture.ts:126 | if the pattern does not occur the string is returned unchanged; otherwise the earliest occurrence (no non-empty pattern occurs before it) is replaced by the replacement text and the text before and after it is kept |
| JsString.RemoveFirstReinsert | src/utils/frameCapture.ts:126 | re-inserting the removed pattern at its index gives back the original name |
| JsString.RemoveSuffixOccurrence | src/utils/frameCapture.ts:126 | removing a non-overlapping pattern from `b + pat` gives `b` when `b` holds no occurrence |
| JsString.Substring | src/components/RoomJoin.tsx:22 | indices are clamped to the length and ordered; the result has exactly as many characters as lie between the clamped indices, copied from the smaller one |
| JsString.Substr | src/utils/frameCapture.ts:60 | exactly as many characters as lie between the clamped start and the clamped start + length, copied from the clamped start |
| JsString.ToUpper | src/components/RoomJoin.tsx:22 | same length, each character upper-cased, none lower-case |
| JsString.NatToString | src/utils/frameCapture.ts:60-116 | a non-empty string of decimal digits with no leading zero |
| JsString.ParseNatToString | src/utils/frameCapture.ts:116 | the decimal rendering reads back as the same number |
| JsString.NatToStringInjective | src/utils/frameCapture.ts:126 | distinct numbers render as distinct strings |
| RoomJoin.HandleJoin | src/components/RoomJoin.tsx:15-19 | `onJoinRoom` is called iff the input is not all whitespace; it receives the trimmed, non-empty, re-trim-stable id and the unchanged role |
| RoomJoin.DisabledExactlyWhenRefused | src/components/RoomJoin.tsx:66-78 | each join button is disabled exactly when its click would be refused, i.e. when the input is all whitespace |
| RoomJoin.GenerateRandomRoom | src/components/RoomJoin.tsx:21-24 | the id is characters [2, 8) of the random text, upper-cased: at most 6 characters, exactly 6 for long enough text, none lower-case |
| RoomJoin.GeneratedRoomIsJoinable | src/components/RoomJoin.tsx:21-23 | a generated id from base-36 text with a digit after "0." is never blank, so joining is enabled |
| IndexPage.HandleJoinRoom | src/pages/Index.tsx:12-15 | the room id and the mode for the role are set exactly |
| IndexPage.HandleLeaveRoom | src/pages/Index.tsx:17-20 | from any state: mode `join` and an empty room id |
| IndexPage.Render | src/pages/Index.tsx:22-30 | `join` shows the room screen, `streamer` the streamer view, `viewer` the viewer view, each with the room id |
| IndexPage.InitialShowsRoomScreen | src/pages/Index.tsx:9-10 | the page starts on the room screen with an empty room id |
| IndexPage.LeaveIsIdempotent | src/pages/Index.tsx:17-20 | leaving yields the initial state, so leaving twice is leaving once |
| IndexPage.JoinThenLeave | src/pages/Index.tsx:12-20 | joining does not depend on the previous state; leaving after a join is the initial state |
| IndexPage.RenderAfterJoin | src/pages/Index.tsx:12-30 | after a join the view for the chosen role is shown with the given id |
| IndexPage.ClickJoin | src/pages/Index.tsx:22-24 | a join click on the room screen leaves the page alone for a blank id, else sets the role's mode and the trimmed id |
| IndexPage.JoinFromRoomScreen | src/pages/Index.tsx:22-30 | from the initial page a blank id keeps the room screen; any other id opens the role's view with the trimmed, non-empty id |

## Left out

- Sampler.CaptureFrame: the data URL is encoded from the canvas of the same call. In the source, `toDataURL` runs inside the `toBlob` callback and reads the shared canvas as it is at that moment. An overlapping automatic capture may already have resized it, so the data URL can disagree with the blob. Pixels are not modelled, so this cannot be expressed.
- Canvas drawing and encoding (`getContext`, `drawImage`, `toBlob`, `toDataURL`): these are browser calls. The encoder is a function parameter, and a canvas is only its size. The constructor's "Could not get canvas context" failure is not modelled, and a fresh instance is assumed to have its context.
- Dimensions are natural numbers. Negative, fractional or NaN widths, and the browser's conversion of canvas sizes, are not modelled.
- Real timers: the period `settings.intervalMs` is recorded on the armed interval but never enforced. Ticks are events, and the timer clamping of `setInterval` is not modelled. Timer handles are positive integers handed out by a counter, as HTML timers are.
- `Date.now()` and `Math.random()` are inputs, so id uniqueness is not proved. `Sampler.FrameIdInjective` shows only that equal ids need equal clock readings and equal random suffixes.
- `new Date(t).toISOString()` is an opaque function parameter. Its RangeError for timestamps beyond 8.64e15 ms is not modelled.
- JsString.NatToString: renders only non-negative integers. JavaScript's exponent form from 10^21 upwards and fractional numbers are not modelled, because `Date.now()` and indices are small integers.
- JsString.ToUpper: maps the ASCII letters only. The random room text is base-36, so no other letters occur there.
- Quality is carried as an opaque `real`. The `Math.round(quality*100)` display in src/components/FrameCaptureControls.tsx is not modelled.
- The optional `processed` field of a captured frame is not modelled, because the capture engine never fills it in.
- DOM anchors (creating, clicking, appending and removing the download link), `getUserMedia`, the clipboard and toasts are I/O and are not modelled.
- Calling `captureFrame` directly (the capture button) is the `Sampler.CaptureFrame` function. It is not a scheduler event, because its result goes to the caller and not to `onFrame`.
- The presentation components (src/components/FrameCaptureControls.tsx, StreamerView.tsx, ViewerView.tsx, StreamControls.tsx, VideoPreview.tsx) are JSX and prop plumbing. The interval fallback `parseInt(...) || 1000` relies on `parseInt` semantics and is not modelled.
- Background removal is not part of this model.
