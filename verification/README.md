# Boresight — a Dafny model of the camera boresight core

Boresight is a Raspberry Pi camera rig. It puts a movable red crosshair over the camera preview and records video together with a JSON-lines "sidecar". The sidecar logs where the crosshair was over time. A desktop renderer later burns that reticle into the video. A zoom engine crops the sensor around the reticle.

This project models the parts of that system that are logic rather than hardware:

- **Zoom engine and orientation maps** (`camera_setup.dfy`).
  - Point maps between display and sensor coordinates under rotation and flips.
  - The 16:9 crop box centred on an anchor, which shrinks instead of sliding near an edge.
  - The zoom step that chains the two.
- **Sidecar renderer** (`video_renderer.dfy`, over `paths.dfy`, `json_data.dfy` and `tick_order.dfy`).
  - Deriving the video, metadata and output paths from a stem.
  - Loading the header and tick rows.
  - Python's stable sort by `t_rel`.
  - Style defaults and the RGBA→BGR swap.
  - Reticle segment clipping.
  - The frame→tick two-pointer walk.
- **Recording bookkeeping** (`record_manager.dfy`).
  - The first-free stem search.
  - The sidecar header and tick rows.
  - The start/stop lifecycle of the recording manager.
  - The sampling-rate floor.
- **Crosshair state and drawing**.
  - The shared raster and nudge arithmetic (`crosshair.dfy`).
  - The overlay class with its cover-fit scaling (`overlay_display.dfy`).
  - The button handlers (`button_control.dfy`).
  - The stand-alone Zero 2 script (`boresight_zero2.dfy`).
- **State holder** (`state_machine.dfy`).

Floats are modelled as `real`. The crosshair and pixel coordinates are `int`. Python's `int()` of a float truncates toward zero (`Base.TruncReal`). NumPy's `clip` followed by `int()` is `VideoRenderer.ClipToPixel`. The JSON values it accepts are given by `VideoRenderer.PixelValue`: a number, or a number inside one-element lists, which NumPy makes a size-one array.

These are passed in as parameters:

- File-system existence tests become a `set<string>` of existing paths.
- JSON files become already-parsed values (`JsonData.Json`, `VideoRenderer.Line`, `Crosshair.OffsetFile`).
- The clock becomes `RecordManager.Clock` and a timestamp string.
- The capture device becomes `VideoRenderer.Capture`.
- The camera's ability to start and stop recording becomes `RecordManager.Camera`.

Each operation that fails returns a `Result` and names the error.

## Model

| member | source | states |
|---|---|---|
| Base.ClampInt | Overlay_Display.py:39-40 | `max(lo, min(hi, v))` lies in [lo, hi] when lo ≤ hi. It is v itself when v is already in range, and otherwise one of the two bounds |
| Base.TruncReal | Record_Manager.py:36 | Python `int()` of a float truncates toward zero: the result is the integer next to x on the side of 0 |
| Paths.LastIndexOf | VideoRenderer.py:11 | the index of the last occurrence of a character, or -1 exactly when it is absent, and no occurrence after it |
| Paths.LastIndexOfAppend | VideoRenderer.py:11 | rfind on a concatenation finds the right part's occurrence if there is one, and otherwise the left part's |
| Paths.Basename | Record_Manager.py:27 | `basename` returns a suffix of the path with no '/' in it, and a path without '/' unchanged |
| Paths.Join | Record_Manager.py:22 | `join(a, b)` ends with b, and starts with a when b is relative |
| Paths.BasenameOfJoin | Record_Manager.py:22-27 | a name without '/' joined onto any directory comes back unchanged from `basename` |
| Paths.JoinAppend | Record_Manager.py:118-119 | joining `stem + ".mp4"` onto the directory is the same as joining `stem` and then appending ".mp4" |
| Paths.SplitExt | VideoRenderer.py:11 | `splitext` splits the path into base and extension, which concatenate back to the path. The extension is empty or a dot followed by no dot or '/' |
| Paths.SplitExtAppend | VideoRenderer.py:11 | appending an extension to a base whose last component is named splits back into exactly that base and that extension |
| Paths.Lower | VideoRenderer.py:12 | `lower()` keeps the length and lower-cases each ASCII capital in place |
| Paths.NatToString | Record_Manager.py:25 | `str(n)` is a non-empty string of decimal digits |
| Paths.ShortDecimalIsSmall | Record_Manager.py:24-26 | a number whose decimal form has at most k digits is below 10^k |
| Paths.DecimalRoundTrip | Record_Manager.py:25 | reading back `str(n)` as a decimal gives n |
| JsonData.Get | VideoRenderer.py:38-42 | `dict.get(key, default)` is the stored value when the key is present and the default otherwise |
| JsonData.ToInt | VideoRenderer.py:47-51 | Python `int()`: an int is unchanged, a boolean reads as 0 or 1, and a float is truncated toward zero (the result is the integer next to it on the side of zero). `None`, lists and dicts raise `TypeError`, and a non-digit string raises `ValueError`. It fails exactly in those cases |
| JsonData.IntRoundTrip | VideoRenderer.py:47-51 | an integer written to JSON, as a number or as its decimal string, is read back unchanged by `int()` |
| JsonData.Number | VideoRenderer.py:42 | the values a float comparison accepts are exactly the numbers and booleans, and an int or float compares as its own value |
| TickOrder.MissingKeyIsZero | VideoRenderer.py:42 | a row without `t_rel` sorts with key 0.0 |
| TickOrder.Insert | VideoRenderer.py:42 | inserting a row keeps every row and adds exactly the new one (multiset) |
| TickOrder.SortRows | VideoRenderer.py:42 | the sorted rows are a permutation of the input (multiset and length) |
| TickOrder.InsertSorted | VideoRenderer.py:42 | inserting into a key-sorted sequence keeps it sorted |
| TickOrder.SortRowsSorted | VideoRenderer.py:42 | the result of the sort is non-decreasing in `t_rel` |
| TickOrder.SortRowsStable | VideoRenderer.py:42 | the sort is stable: for every key, the rows with that key keep their original relative order |
| TickOrder.SortRowsKeepsSorted | VideoRenderer.py:42 | rows already in key order come back exactly as they were |
| TickOrder.InsertWithKey | VideoRenderer.py:42 | inserting into a sorted sequence places the row after every row with an equal key |
| VideoRenderer.Candidates | VideoRenderer.py:11-20 | the input itself is the video exactly when its extension is `.mp4` in any case, and the metadata exactly when it is `.jsonl` in any case. When the base's last component is named, both candidates split back into that same base, with extensions `.mp4` and `.jsonl` |
| VideoRenderer.StemPaths | VideoRenderer.py:9-28 | succeeds exactly when both derived files exist. A missing video is reported before a missing metadata file. The output is always base + `_overlay.mp4` |
| VideoRenderer.StemSpellingsAgree | VideoRenderer.py:9-28 | the bare stem, `stem.mp4` and `stem.jsonl` all resolve to the same three paths |
| VideoRenderer.MissingVideoReportedFirst | VideoRenderer.py:22-23 | whenever the video is missing, that is the error, whatever the metadata file does |
| VideoRenderer.LastHeader | VideoRenderer.py:31-39 | the header is the last header row, or `{}` when there is none |
| VideoRenderer.TickRowsAreTheTicks | VideoRenderer.py:34-41 | a row is among the collected ticks exactly when it is a parsed object line whose type is "tick" |
| VideoRenderer.ScanStep | VideoRenderer.py:33-41 | reading one more line replaces the header when it is a header row and appends it when it is a tick row |
| VideoRenderer.ScanLines | VideoRenderer.py:33-41 | succeeds exactly when every line is blank or an object, and then yields the last header and the tick rows. Otherwise it reports the first line that fails, and whether it failed to parse or was not an object |
| VideoRenderer.LoadHeaderAndTicks | VideoRenderer.py:30-43 | succeeds exactly when every line is readable and the tick keys are comparable. The ticks are then a permutation of the tick rows, sorted by `t_rel` and stable. Every failure is the first bad line or unorderable keys |
| VideoRenderer.ColorBgr | VideoRenderer.py:52-59 | a colour list of at least three entries [r, g, b, …] becomes (b, g, r). Anything else becomes (0, 0, 130) |
| VideoRenderer.FieldAsWritten | VideoRenderer.py:47-51 | a missing field gives its default, an int field gives its value, and a `null` field raises `TypeError` |
| VideoRenderer.FieldNullSafe | VideoRenderer.py:47-51 | a missing or `null` field gives its default, and an int field gives its value |
| VideoRenderer.StyleFromHeaderAsWritten | VideoRenderer.py:45-60 | the style as the code reads it. A non-object `overlay_style` raises `AttributeError` and a `null` radius raises `TypeError` |
| VideoRenderer.StyleFromHeader | VideoRenderer.py:45-60 | the style with `null` fields read as their defaults. A non-object `overlay_style` still raises `AttributeError` |
| VideoRenderer.StyleFromHeaderReadsEachField | VideoRenderer.py:45-60 | for every section whose fields are integers or `null` (colour: `null` or a list of at least three integers), the null-safe reading succeeds. Each field is its integer, or its default when left out or `null`, and the colour is swapped to BGR |
| VideoRenderer.StyleAsWrittenFailsOnlyOnNull | VideoRenderer.py:45-60 | on the same sections the reading as written gives the same style unless one of the five integer fields is `null`, and then raises `TypeError`. A `null` colour falls back to the default in both |
| VideoRenderer.FieldReadersOnIntOrNull | VideoRenderer.py:47-51 | an integer-or-`null` field: the null-safe reader yields its integer or the default. The reader as written does too, except that `null` raises `TypeError` |
| VideoRenderer.StyleWithAllRead | VideoRenderer.py:46-60 | when every field reads, the style holds exactly the values read |
| VideoRenderer.StyleWithStopsAtTypeError | VideoRenderer.py:46-51 | with integer-or-`null` fields and at least one `null`, the reading as written raises `TypeError` |
| VideoRenderer.DefaultsWithoutStyle | VideoRenderer.py:46-52 | without `overlay_style` both readings give radius 10, ring 1, tick 300, tick width 1, gap 2 and colour (0, 0, 130) |
| VideoRenderer.NullSectionGivesDefaults | VideoRenderer.py:47-58 | a style section whose entries are all `null` gives the default style under the null-safe reading |
| VideoRenderer.StyleFieldsRead | VideoRenderer.py:47-59 | a fully specified integer style is read field by field, with the colour swapped to BGR. Both readings agree on it |
| VideoRenderer.ClipToPixel | VideoRenderer.py:66-67 | the clipped coordinate lies in [0, hi], and a coordinate already inside is floored |
| VideoRenderer.ReticleGeometry | VideoRenderer.py:62-92 | the centre is the position clipped into the frame. Each tick lies on the centre's row or column, `radius + gap` from the centre. Left and top ticks start at ≥ 0 and right and bottom ticks end at ≤ w-1 or h-1. Each tick is at most `tick_length` long, and exactly that long unless the frame edge cut it. A tick is dropped exactly when its inner end is not inside the frame or `tick_length` is not positive |
| VideoRenderer.MarkBefore | VideoRenderer.py:73-75 | the left or top span starts at ≥ 0 and ends `radius + gap` before the centre. It is at most `tick_length` long, and exactly that long unless clipped at 0. It is dropped exactly when its end is ≤ 0 or `tick_length` ≤ 0 |
| VideoRenderer.MarkAfter | VideoRenderer.py:78-80 | the right or bottom span starts `radius + gap` after the centre and ends at ≤ the last pixel. It is at most `tick_length` long, and exactly that long unless clipped at the last pixel. It is dropped exactly when its start is at or past the last pixel or `tick_length` ≤ 0 |
| VideoRenderer.ReticleInteriorIsSymmetric | VideoRenderer.py:73-92 | away from the edges all four ticks are drawn, each `tick_len` long, and they sit symmetrically about the centre |
| VideoRenderer.FrameReticle | VideoRenderer.py:153-157 | nothing is drawn exactly when cx or cy is `None`. An overlay that is not a dictionary is an error, and so is a coordinate `int(np.clip(...))` cannot convert (`VideoRenderer.PixelValue`). Otherwise the reticle is drawn at the converted coordinates, so `{"cx": [5], "cy": 3}` draws at (5, 3) |
| VideoRenderer.PixelValue | VideoRenderer.py:66-67 | a non-list converts as the number it is (none for strings, objects and `null`), and a list of any length but one raises |
| VideoRenderer.PixelValueOfWrapped | VideoRenderer.py:66-67 | a number inside any depth of one-element lists (`[5]`, `[[5]]`) converts to that number, as NumPy's size-one arrays do |
| VideoRenderer.PixelValueIsWrappedNumber | VideoRenderer.py:66-67 | conversely, every convertible coordinate is a number inside some depth of one-element lists, and converts to it |
| VideoRenderer.EffectiveFps | VideoRenderer.py:127 | `fps or 30.0` is never zero and keeps any non-zero rate |
| VideoRenderer.TickAtIsUnique | VideoRenderer.py:146-151 | at most one tick is the one in force at a given time |
| VideoRenderer.WalkTicks | VideoRenderer.py:137-171 | one plan per frame. Each frame draws the reticle of the tick in force at `frame / fps`: the last tick with `t_rel` ≤ that time, or the first tick. The tick index never decreases. With a positive rate the walk succeeds exactly when the tick in force at every frame asks for a reticle without raising. An error is the error of the tick in force at some frame. When no tick raises, the walk succeeds |
| VideoRenderer.InForceDecidesFrame | VideoRenderer.py:146-157 | whether a frame can be drawn is decided by the one tick in force at its time, and that tick's error is the frame's |
| VideoRenderer.PlannedAppend | VideoRenderer.py:137-171 | planning one more on-time, drawable frame for a tick at or after the previous ones keeps the plan in order |
| VideoRenderer.Advance | VideoRenderer.py:148-151 | the inner loop stops at the last tick whose successors all lie after t, passing only ticks at or before t |
| VideoRenderer.AdvanceFindsTickAt | VideoRenderer.py:148-151 | on sorted ticks, where the inner loop stops is the tick in force at t |
| VideoRenderer.AdvanceFromEarlier | VideoRenderer.py:146-151 | the tick in force at the previous frame's time starts at or before the current frame's time, so the walk can resume from it |
| VideoRenderer.Render | VideoRenderer.py:110-175 | path errors come first. Then no ticks, then a style that raises (`BadStyle` with that error), then a capture that will not open, each with its error. On success the output path, the rate and one frame per input frame are as the walk plans, with the sorted ticks and the header's style. A sidecar line that cannot be parsed or is not an object stops the render with that error at the first such line, and ticks that cannot be ordered give `UnorderableTicks`. With the inputs ready, the render fails with `WriterFailed` and the output path exactly when the writer will not open. Once it opens, the render succeeds when every sorted tick yields a reticle. At a positive rate, it succeeds exactly when the tick in force at every frame yields one. A `BadOverlay` error is the error of some sorted tick's reticle. `nullSafe = false` reads the style as the code does, and `true` uses the corrected reader |
| RecordManager.TimestampStem | Record_Manager.py:20 | the stem is the prefix, an underscore and the stamp, with no '/' when neither part has one |
| RecordManager.Candidate | Record_Manager.py:22-25 | candidate 0 is the stem, and candidate n > 0 is longer than the stem and the digits of n together |
| RecordManager.TakenBelowNext | Record_Manager.py:24-26 | one more taken candidate extends the run of taken candidates by one |
| RecordManager.FirstFreeIsUnique | Record_Manager.py:24-26 | there is only one first free candidate |
| RecordManager.CandidatesDiffer | Record_Manager.py:25 | distinct suffix numbers give distinct candidate names |
| RecordManager.TakenCandidateIsSmall | Record_Manager.py:24-26 | a taken candidate's number is bounded by the longest existing path, so the search ends on a finite set |
| RecordManager.NoSeparatorInCandidate | Record_Manager.py:25-27 | a stem without '/' gives candidates without '/' |
| RecordManager.UniqueStem | Record_Manager.py:19-27 | returns the first free candidate: neither `stem.mp4` nor `stem.jsonl` exists. The result is a basename. A free timestamp stem comes back unchanged |
| RecordManager.NewRecorder | Record_Manager.py:30-40 | the rate is `int(hz)` and at least 1 |
| RecordManager.Period | Record_Manager.py:70 | the sampling period is in (0, 1] and is the inverse of the rate |
| RecordManager.StyleAttributes | Record_Manager.py:54-61 | the style entry has exactly the six style keys, each the overlay's attribute or `null` |
| RecordManager.StandardHeader | Record_Manager.py:47-61 | the header row is typed "header" and carries the video basename, the base stem and the style entry |
| RecordManager.Header | Record_Manager.py:47-63 | the extra entries override the standard ones. Without overrides, the row is a header with the video's basename, its base stem and the overlay's style |
| RecordManager.Snapshot | Record_Manager.py:76-80 | cx and cy are both integers or both `None`, and `None` when the overlay lacks either attribute |
| RecordManager.TickRow | Record_Manager.py:82-88 | the tick row is typed "tick", has key `t_rel`, and stores the snapshot as the overlay's cx and cy |
| RecordManager.TickRowRoundTrip | Record_Manager.py:76-88 | the renderer draws a recorded tick at the recorded crosshair, and draws nothing for a tick whose snapshot failed |
| RecordManager.HeaderStyleSection | Record_Manager.py:54-61 | the renderer's style section of a recorded header is the recorded style entry |
| RecordManager.StyleNullsBreakRenderer | Record_Manager.py:54-61 | an overlay without style attributes yields a header the code as written cannot read (`TypeError`), while the null-safe reading gives the default style |
| RecordManager.StyleRoundTrip | Record_Manager.py:54-61 | a fully styled overlay's style is recovered by the renderer, with the colour swapped to BGR |
| RecordManager.NewManager | Record_Manager.py:105-111 | a new manager is inactive and consistent, in the given directory |
| RecordManager.Start | Record_Manager.py:113-136 | while active: no change, the current video path, no effects. Otherwise both paths share one stem, the first candidate of `prefix_stamp` (the bare stem, then `-1`, `-2`, ...) that no existing file uses with either extension. They differ only in extension. With a camera that can record, it starts the camera, then the metadata recorder with rate 1 and its header, and becomes active. Otherwise it reports the error before any side effect |
| RecordManager.Stop | Record_Manager.py:138-148 | while inactive: nothing changes and `None` is returned. Otherwise it stops the metadata before the camera, becomes inactive and returns both paths. The effects are exactly one metadata stop when a recorder is held, then one camera stop when the camera can stop, and nothing else |
| RecordManager.StartThenStop | Record_Manager.py:113-148 | a start then a stop leaves the manager inactive and returns two fresh paths with one stem |
| Crosshair.ClampLine | Overlay_Display.py:39-40 | the drawn line starts at ≥ 0 and ends inside the buffer. A position already inside is kept, and any other is moved to an edge |
| Crosshair.DrawRow | Overlay_Display.py:41-42 | one row of the raster, pixel by pixel |
| Crosshair.DrawCrosshair | Overlay_Display.py:35-42 | every pixel is red exactly when it is on the clamped horizontal or vertical band, and transparent otherwise |
| Crosshair.DrawCrosshairInPlace | RPI_Zero2/Boresight_Camera.py:15-29 | after clearing and drawing both bands into the buffer, each pixel is red exactly on the clamped bands |
| Crosshair.NudgeBack | Button_Control.py:21 | a left or up nudge moves back by the step or stops at 0 |
| Crosshair.NudgeForward | Button_Control.py:26 | a right or down nudge moves forward by the step or stops at the limit |
| Crosshair.NudgesStayInRange | Button_Control.py:21-36 | nudges keep an in-range position in range and move it the right way |
| Crosshair.NudgeUndo | Button_Control.py:21-26 | back then forward, or forward then back, restores a position away from the edge |
| Crosshair.NudgesSaturate | Button_Control.py:21-26 | repeating a nudge changes nothing exactly when it already sits at the bound, or the step is 0 |
| Crosshair.LoadOffset | Overlay_Display.py:44-56 | a missing or unreadable file gives the centre (H//2, W//2). Each missing key falls back on its own, and each present key is read |
| Crosshair.SaveOffset | Overlay_Display.py:58-65 | a successful save writes exactly the two keys that loading reads. A failed open (`writable = false`) leaves the file as it was |
| Crosshair.SaveThenLoad | Overlay_Display.py:44-65 | loading after a save gives back the saved pair |
| OverlayDisplay.NewDisplay | Overlay_Display.py:10-17 | a new display keeps the sizes it is given. Without a readable offset file its crosshair starts at the overlay centre. With one, `load_offset` (lines 44-55) reads each key on its own: a saved `horizontal_y` or `vertical_x` is used as stored, and a missing one falls back to `H // 2` or `W // 2` |
| OverlayDisplay.ScaleOverlay | Overlay_Display.py:19-27 | cover fit: one side equals the display's, and both sides are at least the display's |
| OverlayDisplay.ScaleOverlayInIntegers | Overlay_Display.py:19-27 | the float computation equals an exact integer one: compare `dispW·h` with `dispH·w`, then floor-divide |
| OverlayDisplay.UpdateOverlayImage | Overlay_Display.py:35-42 | positions are clamped by `max(0, min(H-t, ·))` and `max(0, min(W-t, ·))`, which gives 0 when a band is thicker than the buffer. For every thickness, a pixel is red exactly on the clamped bands and every other pixel is 0 |
| OverlayDisplay.UpdateOverlay | Overlay_Display.py:29-33 | redrawing leaves the stored crosshair unchanged and draws it at the clamped position |
| OverlayDisplay.LoadOffset | Overlay_Display.py:44-56 | a missing or unreadable file gives the overlay's centre, saved keys are read back, and a missing key falls back to its centre coordinate |
| OverlayDisplay.SaveOffset | Overlay_Display.py:58-65 | a successful save writes the two crosshair keys |
| OverlayDisplay.SaveThenReload | Overlay_Display.py:10-17 | a display rebuilt from the file it saved is the same display |
| ButtonControl.OnLeft | Button_Control.py:19-22 | only `vertical_x` changes, to `max(0, vertical_x - step)` |
| ButtonControl.OnRight | Button_Control.py:24-27 | only `vertical_x` changes, to `min(W-1, vertical_x + step)` |
| ButtonControl.OnUp | Button_Control.py:29-32 | only `horizontal_y` changes, to `max(0, horizontal_y - step)` |
| ButtonControl.OnDown | Button_Control.py:34-37 | only `horizontal_y` changes, to `min(H-1, horizontal_y + step)` |
| ButtonControl.PressesStayOnOverlay | Button_Control.py:21-36 | a crosshair on the overlay stays on it after any nudge with step ≥ 0 |
| ButtonControl.PressesAreMonotone | Button_Control.py:21-36 | left and up never increase their coordinate, and right and down never decrease it |
| ButtonControl.OppositePressesUndo | Button_Control.py:21-36 | an opposite nudge restores the coordinate when the first one did not hit an edge |
| ButtonControl.PressAndRedraw | Button_Control.py:19-37 | a press applies its handler and then redraws the crosshair at the new clamped position |
| BoresightZero2.LoadOffset | RPI_Zero2/Boresight_Camera.py:31-44 | no file or a bad file gives (540, 960). Missing keys default separately, and present keys are read |
| BoresightZero2.SaveOffset | RPI_Zero2/Boresight_Camera.py:46-53 | a successful save writes exactly the two keys |
| BoresightZero2.SaveThenLoad | RPI_Zero2/Boresight_Camera.py:31-53 | loading after a save gives back the saved position |
| BoresightZero2.UpdateOverlayImage | RPI_Zero2/Boresight_Camera.py:15-29 | on the 1920×1080 buffer a pixel is red exactly on the bands clamped to [0, 1078] and [0, 1918], and every other pixel is cleared |
| BoresightZero2.OnLeft | RPI_Zero2/Boresight_Camera.py:113-119 | x moves left by 10 or stops at 0, and y is unchanged |
| BoresightZero2.OnRight | RPI_Zero2/Boresight_Camera.py:121-127 | x moves right by 10 or stops at 1919, and y is unchanged |
| BoresightZero2.OnUp | RPI_Zero2/Boresight_Camera.py:129-135 | y moves up by 10 or stops at 0, and x is unchanged |
| BoresightZero2.OnDown | RPI_Zero2/Boresight_Camera.py:137-143 | y moves down by 10 or stops at 1079, and x is unchanged |
| BoresightZero2.PressesStayOnOverlay | RPI_Zero2/Boresight_Camera.py:110-143 | any sequence of presses keeps an on-screen crosshair on screen |
| BoresightZero2.RightEdgeDrawnOneLeft | RPI_Zero2/Boresight_Camera.py:24-25 | the stored position 1919 is drawn at 1918, and a right press there changes nothing |
| BoresightZero2.Session | RPI_Zero2/Boresight_Camera.py:110-163 | when the offset file can be written, the file saved at exit holds the position the presses lead to from the loaded one; when it cannot, the failed save (its error swallowed at line 52) leaves the file as it was, so the next start loads the same position as this one |
| StateMachine.Value | State_Machine.py:5-10 | each enum member has a value in 0..4 |
| StateMachine.ValuesAreDistinct | State_Machine.py:5-10 | two members have the same value exactly when they are the same member |
| StateMachine.Init | State_Machine.py:13-15 | the machine starts in the start-up state, running |
| StateMachine.ChangeState | State_Machine.py:18-21 | the state becomes exactly the new state, and `running` is unchanged |
| StateMachine.Stop | State_Machine.py:26-27 | `running` becomes false, and the state is unchanged |
| StateMachine.GetStateIsLastChange | State_Machine.py:18-27 | after any call sequence, `get_state` is the last state set, or the initial one. The machine runs exactly when it ran and was never stopped |
| CameraSetup.Init | Camera_Setup.py:12-27 | a new camera keeps the given orientation, has no display aspect, and views the full frame |
| CameraSetup.Clamp01 | Camera_Setup.py:133-135 | the result is in [0, 1], unchanged inside, and 0 or 1 outside |
| CameraSetup.ClampPoint | Camera_Setup.py:103-107 | the point lands in the unit square and is unchanged if already there |
| CameraSetup.RotationIndex | Camera_Setup.py:96-101 | `(rotation // 90) % 4` is a quarter-turn count in 0..3, the quarter the angle lies in |
| CameraSetup.RotationIndexOfStandardAngles | Camera_Setup.py:96-101 | 0, 90, 180 and 270 degrees are 0..3 quarter turns, 360 is 0 and -90 is 3 |
| CameraSetup.Flip | Camera_Setup.py:91-94 | flips keep a point in the unit square. Each axis, x and y, is either kept or mirrored about the centre |
| CameraSetup.Rotate | Camera_Setup.py:120-125 | the forward rotation step keeps a point in the unit square |
| CameraSetup.Unrotate | Camera_Setup.py:96-101 | the inverse rotation step keeps a point in the unit square |
| CameraSetup.DisplayToSensorForward | Camera_Setup.py:110-130 | the forward map always lands in the unit square. On the unit square it is flips then rotation, with the clamp a no-op |
| CameraSetup.DisplayToSensorNoLetterbox | Camera_Setup.py:77-108 | the inverse map always lands in the unit square. On the unit square it is flips then inverse rotation, with the clamp a no-op |
| CameraSetup.FlipIsInvolution | Camera_Setup.py:91-94 | flipping twice with the same flags restores the point |
| CameraSetup.RotationStepsAreInverse | Camera_Setup.py:96-101 | for every quarter-turn count, each rotation step undoes the other |
| CameraSetup.NoLetterboxInvertsRotateThenFlip | Camera_Setup.py:88-101 | the inverse map exactly inverts rotate-then-flip, in both orders, on the unit square |
| CameraSetup.ForwardInvertsUnrotateThenFlip | Camera_Setup.py:110-129 | the forward map exactly inverts unrotate-then-flip, in both orders, on the unit square |
| CameraSetup.ForwardThenNoLetterboxAt | Camera_Setup.py:77-130 | when flips commute with the rotation, the two maps undo each other at every point of the unit square |
| CameraSetup.MapsAreInverseIff | Camera_Setup.py:77-130 | the inverse map undoes the forward map exactly when the rotation is even or both flips agree. Without flips the two are mutual inverses |
| CameraSetup.CornerIsNotRestored | Camera_Setup.py:77-130 | with an odd rotation and a single flip, the display corner (0, 0) comes back as (1, 1) |
| CameraSetup.NominalSize | Camera_Setup.py:142-147 | the nominal box is 16:9, with width ≤ 1 and height ≤ 1/Z |
| CameraSetup.CentredRoi | Camera_Setup.py:162-167 | the box has the given size, and its centre is the anchor |
| CameraSetup.FittedSizeFits | Camera_Setup.py:142-160 | the fitted box is 16:9, fits around the anchor inside the sensor, and is no larger than the nominal box |
| CameraSetup.NominalBox | Camera_Setup.py:142-147 | the computed nominal box is the nominal size |
| CameraSetup.MaxCenteredBox | Camera_Setup.py:149-156 | the widest centred box is 16:9 and limited by the nearest edges |
| CameraSetup.ShrinkToFit | Camera_Setup.py:158-160 | a box that fits is kept. Otherwise it shrinks uniformly to fit, never growing. The width-to-height ratio is kept, and the tighter side ends exactly at its limit |
| CameraSetup.ShrinkFactorFits | Camera_Setup.py:158-160 | the shrink factor is below 1 and scales both sides inside the limits |
| CameraSetup.ShrinkAlignedBoxes | Camera_Setup.py:149-160 | shrinking one 16:9 box into another gives the smaller of the two |
| CameraSetup.PlaceBox | Camera_Setup.py:162-167 | the slide clamps keep the size and leave a box that fits exactly centred on the anchor |
| CameraSetup.RoiExactCenter | Camera_Setup.py:137-168 | the ROI lies in the sensor, is centred exactly on the clamped anchor, is 16:9, and has h ≤ 1/Z and w ≤ 1 |
| CameraSetup.RoiKeepsNominalWithMargin | Camera_Setup.py:142-160 | an anchor with margin at least half the nominal box keeps the nominal size |
| CameraSetup.RoiIsWidestCentredBox | Camera_Setup.py:149-160 | every 16:9 box that fits around the anchor and is no larger than nominal is no wider than the ROI |
| CameraSetup.RoiAtEdgeIsEmpty | Camera_Setup.py:149-160 | an anchor on the left or right edge yields a zero-area box |
| CameraSetup.RoiEdgeShrinkExample | Camera_Setup.py:137-168 | at zoom 8 an anchor at (0.02, 0.5) gives the box (0, 0.48875, 0.04, 0.0225) |
| CameraSetup.ZoomLevel | Camera_Setup.py:58-60 | the effective zoom is in [1, max_step]. A missing or unparsable step gives 1, and an in-range step is kept |
| CameraSetup.CenterZoomStep | Camera_Setup.py:57-74 | at base zoom the ROI is the full frame wherever the reticle is. Otherwise it is the 16:9 box centred on the mapped anchor (display centre by default), inside the sensor with h ≤ 1/Z. Nothing but the zoom changes |
| CameraSetup.SetDisplayAspect | Camera_Setup.py:43-46 | an aspect is recorded exactly when both sides are positive, and is their ratio. Orientation and zoom are unchanged |
| CameraSetup.SetOrientation | Camera_Setup.py:48-55 | each given field replaces the old one, and every omitted field and the rest of the camera are unchanged |

## Left out

- `int()` of a size-one array, as in a `[5]` coordinate, draws as the number, but the DeprecationWarning NumPy prints for it is not modelled. JSON integers outside NumPy's 64-bit range are modelled as exact numbers; what NumPy does with them is not modelled.
- Hardware and OS calls are not modelled; their effects appear only as parameters or effect values:
  - PiCamera (preview, `camera.zoom` assignment, recording);
  - DispmanX (`disp.buffer` copy, `disp.update()`);
  - gpiozero button wiring;
  - OpenCV drawing (`cv2.circle`, `cv2.line`, `_put_state_text`, the writer's frames), including the errors those calls raise on their own arguments, such as a negative circle radius or a line thickness of zero or less (VideoRenderer.py:70, 76, 81, 87, 92);
  - `print`.
- JSON parsing and file I/O are not modelled. Sidecar lines, offset files and headers are given as parsed values. A file write that fails is the `writable = false` argument.
- `os.path.expanduser` is treated as the identity. `os.path.exists`/`isfile` are membership in a given set of paths.
- Datetime formatting is not modelled: the timestamp is a string parameter and `Clock` carries the two header times.
- `MetadataRecorder._run` is modelled for one tick row only (`RecordManager.TickRow`). Its thread, its monotonic-clock loop and its sleeps are concurrency and time. The `threading.Lock` in the state machine and the `print` in `change_state` are left out for the same reason.
- RecordManager.TickRow: `t_rel` is stored as given. The rounding to three decimals is float formatting and is not modelled.
- Floats are reals. IEEE rounding, NaN and infinities are not modelled, so a one-ulp overshoot of a clamp is out of scope.
- VideoRenderer.Render: reticles are clipped to `int()` of the capture's reported width and height, whereas `_draw_reticle` reads each frame's own `img.shape` (VideoRenderer.py:63). The model assumes every frame has the reported size.
- JsonData.ToInt: a string with a sign, underscores, surrounding whitespace or non-ASCII decimal digits (Unicode category Nd) is treated as a `ValueError`, although Python's `int()` accepts it.
- TickOrder.SortRows: keys are compared as numbers only. A sort with non-numeric `t_rel` values (strings compared with strings) is reported as `UnorderableTicks` instead of being ordered.
- CameraSetup.RoiExactCenter: proved for the 16:9 default aspect that `center_zoom_step` always passes, not for an arbitrary `display_aspect`. No minimum ROI size is enforced: an anchor on the left or right edge gives a zero-area box (`CameraSetup.RoiAtEdgeIsEmpty`).
- OverlayDisplay.ScaleOverlay: requires positive sizes. With a zero height Python raises `ZeroDivisionError`, which is not modelled.
- RecordManager.UniqueStem: requires a stem without '/'. The prefix "VID" and the timestamp never contain one.
- RecordManager.Start: requires the manager's consistency invariant `Valid`, which every reachable manager satisfies. A camera without `start_recording` is the `NoStartRecording` error.
- Crosshair.LoadOffset, OverlayDisplay.LoadOffset, BoresightZero2.LoadOffset: saved values are modelled as integers. A file holding floats or strings is not modelled.
- The periodic 10-second saves of the Zero 2 script are not modelled separately. Each save writes the current position, so only the final save matters to `BoresightZero2.Session`. Its `writable` flag holds for the whole session: a file that becomes unwritable between a periodic save and the exit save (leaving the last periodic position in it) is not modelled.
- `ButtonControl.save_offset` (Button_Control.py:39-41) only delegates to `OverlayDisplay.SaveOffset`.
- These are not part of this model:
  - `Alarm.py`, `CPU_Temp.py` and the root `Boresight_Camera.py` (hardware timing and wiring);
  - `RPI5/` (DRM/KMS plumbing);
  - `RPI_Zero2/_Archive/` (earlier copies of the same raster);
  - `Renderer (not on RPI)/VideoRenderer.py` (a desktop variant of `VideoRenderer.py` that adds coordinate transforms and a clock burn-in; the shared logic is modelled from `VideoRenderer.py`).

## Findings

| source | as written | input that shows it | evidently intended | confidence | as-written member | corrected member |
|---|---|---|---|---|---|---|
| Record_Manager.py:54-61 with VideoRenderer.py:47-51 | The recorder writes each missing overlay attribute as `null`. The renderer's `s.get("radius", 10)` returns that `None`, and `int(None)` raises `TypeError` | an overlay object without `radius` (the `OverlayDisplay` class has none), so `overlay_style` is all `null` | a `null` style field falls back to its default | not executed | VideoRenderer.StyleFromHeaderAsWritten (shown by RecordManager.StyleNullsBreakRenderer; `VideoRenderer.Render` with `nullSafe = false` then stops with `BadStyle(TypeError)`) | VideoRenderer.StyleFromHeader (with VideoRenderer.NullSectionGivesDefaults and VideoRenderer.StyleFromHeaderReadsEachField; `VideoRenderer.Render` with `nullSafe = true`) |
