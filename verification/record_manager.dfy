/** The recording bookkeeping: picking a fresh file stem, the
    `RecordingManager` start/stop life cycle, and the rows the
    `MetadataRecorder` writes to the sidecar file, checked against the way the
    renderer reads them back. */
module RecordManager {
  import opened Base
  import opened Paths
  import opened JsonData
  import TickOrder
  import VideoRenderer

  // ---------- unique_stem ----------

  /** The stem `unique_stem` starts from: the prefix, an underscore and the
      local timestamp. */
  function TimestampStem(prefix: string, stamp: string): (s: string)
    ensures |s| > |prefix| && s[|prefix|] == '_'
    ensures '/' !in prefix && '/' !in stamp ==> '/' !in s
  {
    prefix + "_" + stamp
  }

  /** The n-th name `unique_stem` tries: the stem itself, then stem-1, stem-2, ... */
  function Candidate(stem: string, n: nat): (r: string)
    ensures n == 0 ==> r == stem
    ensures n > 0 ==> |r| > |stem| + |NatToString(n)|
  {
    if n == 0 then stem else stem + "-" + NatToString(n)
  }

  /** `os.path.exists(candidate + ".mp4") or os.path.exists(candidate + ".jsonl")`,
      with the files on disk given as a set of paths. */
  predicate Taken(existing: set<string>, path: string) {
    path + ".mp4" in existing || path + ".jsonl" in existing
  }

  /** Every candidate numbered below `n` is taken. */
  predicate TakenBelow(existing: set<string>, dir: string, stem: string, n: nat) {
    forall k: nat :: k < n ==> Taken(existing, Join(dir, Candidate(stem, k)))
  }

  /** Reference: `n` is the first candidate number whose files are both free. */
  predicate FirstFree(existing: set<string>, dir: string, stem: string, n: nat) {
    !Taken(existing, Join(dir, Candidate(stem, n))) && TakenBelow(existing, dir, stem, n)
  }

  lemma TakenBelowNext(existing: set<string>, dir: string, stem: string, n: nat)
    requires TakenBelow(existing, dir, stem, n) && Taken(existing, Join(dir, Candidate(stem, n)))
    ensures TakenBelow(existing, dir, stem, n + 1)
  {
  }

  /** There is only one first free candidate. */
  lemma FirstFreeIsUnique(existing: set<string>, dir: string, stem: string, n: nat, m: nat)
    requires FirstFree(existing, dir, stem, n) && FirstFree(existing, dir, stem, m)
    ensures n == m
  {
  }

  /** Different candidate numbers give different names. */
  lemma CandidatesDiffer(stem: string, n: nat, m: nat)
    requires n != m
    ensures Candidate(stem, n) != Candidate(stem, m)
  {
    if n > 0 && m > 0 && Candidate(stem, n) == Candidate(stem, m) {
      var p := stem + "-";
      assert Candidate(stem, n) == p + NatToString(n);
      assert Candidate(stem, m) == p + NatToString(m);
      assert NatToString(n) == Candidate(stem, n)[|p|..];
      assert NatToString(m) == Candidate(stem, m)[|p|..];
      DecimalRoundTrip(n);
      DecimalRoundTrip(m);
    }
  }

  /** A length no path on disk exceeds. */
  ghost function LongestPath(existing: set<string>): (n: nat)
    ensures forall x :: x in existing ==> |x| <= n
  {
    if existing == {} then 0
    else
      var x :| x in existing;
      MaxInt(|x|, LongestPath(existing - {x}))
  }

  /** A taken candidate has a number with no more digits than the longest path,
      so the search stops below a fixed bound. */
  lemma TakenCandidateIsSmall(existing: set<string>, dir: string, stem: string, n: nat)
    requires Taken(existing, Join(dir, Candidate(stem, n)))
    ensures n < Pow10(LongestPath(existing))
  {
    var bound := LongestPath(existing);
    if n > 0 {
      var path := Join(dir, Candidate(stem, n));
      assert |path| >= |Candidate(stem, n)|;
      assert |path + ".mp4"| <= bound || |path + ".jsonl"| <= bound;
      ShortDecimalIsSmall(n, bound);
    }
  }

  lemma NoSeparatorInCandidate(stem: string, n: nat)
    requires '/' !in stem
    ensures '/' !in Candidate(stem, n)
  {
    if n > 0 {
      var d := NatToString(n);
      assert forall k :: 0 <= k < |d| ==> d[k] != '/' by {
        forall k | 0 <= k < |d| ensures d[k] != '/' {
          assert IsDigit(d[k]);
        }
      }
      assert Candidate(stem, n) == stem + "-" + d;
    }
  }

  /** `unique_stem(base_dir)` for the timestamp stem `stem`: the first candidate
      name whose video and metadata files are both missing, returned without
      its directory. The search ends because only finitely many files exist. */
  method UniqueStem(dir: string, stem: string, existing: set<string>) returns (r: string)
    requires '/' !in stem
    ensures '/' !in r
    ensures exists n: nat :: FirstFree(existing, dir, stem, n) && r == Candidate(stem, n)
    ensures !Taken(existing, Join(dir, r))
    ensures !Taken(existing, Join(dir, stem)) ==> r == stem
  {
    var candidate := Join(dir, stem);
    var n: nat := 1;
    ghost var tried: nat := 0;
    ghost var bound := Pow10(LongestPath(existing));
    while Taken(existing, candidate)
      invariant n == tried + 1 && tried <= bound
      invariant candidate == Join(dir, Candidate(stem, tried))
      invariant TakenBelow(existing, dir, stem, tried)
      decreases bound - tried
    {
      TakenCandidateIsSmall(existing, dir, stem, tried);
      TakenBelowNext(existing, dir, stem, tried);
      candidate := Join(dir, stem + "-" + NatToString(n));
      tried := n;
      n := n + 1;
    }
    assert FirstFree(existing, dir, stem, tried);
    NoSeparatorInCandidate(stem, tried);
    BasenameOfJoin(dir, Candidate(stem, tried));
    r := Basename(candidate);
  }

  // ---------- MetadataRecorder ----------

  /** What `MetadataRecorder.__init__` keeps: the two paths and the sampling rate. */
  datatype Recorder = Recorder(jsonlPath: string, videoPath: string, hz: int)

  /** `MetadataRecorder.__init__`: the rate is `max(1, int(hz))`. */
  function NewRecorder(jsonlPath: string, videoPath: string, hz: real): (rec: Recorder)
    ensures rec.hz >= 1
    ensures hz >= 1.0 ==> rec.hz as real <= hz < rec.hz as real + 1.0
    ensures hz < 1.0 ==> rec.hz == 1
  {
    Recorder(jsonlPath, videoPath, MaxInt(1, TruncReal(hz)))
  }

  /** The sampling period `1.0 / hz` of the `_run` loop: never longer than a
      second. */
  function Period(rec: Recorder): (p: real)
    requires rec.hz >= 1
    ensures 0.0 < p <= 1.0
    ensures p * rec.hz as real == 1.0
  {
    1.0 / rec.hz as real
  }

  /** The wall-clock readings a header carries. */
  datatype Clock = Clock(createdLocal: string, createdUtc: string)

  /** The `overlay_style` entry of the header: each attribute the overlay object
      has, or `null` for the ones it lacks. */
  function StyleAttributes(overlay: Obj): (s: Obj)
    ensures forall k :: k in s <==> k in ["radius", "ring_thickness", "tick_length", "tick_thickness", "gap", "color"]
    ensures forall k :: k in s ==> s[k] == Get(overlay, k, JNull)
  {
    map["radius" := Get(overlay, "radius", JNull),
        "ring_thickness" := Get(overlay, "ring_thickness", JNull),
        "tick_length" := Get(overlay, "tick_length", JNull),
        "tick_thickness" := Get(overlay, "tick_thickness", JNull),
        "gap" := Get(overlay, "gap", JNull),
        "color" := Get(overlay, "color", JNull)]
  }

  /** The header fields before the extra header is merged in. */
  function StandardHeader(videoFile: string, baseStem: string, style: Obj, clock: Clock): (h: Obj)
    ensures "type" in h && h["type"] == JStr("header")
    ensures "video_file" in h && h["video_file"] == JStr(videoFile)
    ensures "base_stem" in h && h["base_stem"] == JStr(baseStem)
    ensures "overlay_style" in h && h["overlay_style"] == JObject(style)
  {
    map["type" := JStr("header"),
        "schema" := JStr("Boresight_Camera_V1"),
        "created_local" := JStr(clock.createdLocal),
        "created_utc" := JStr(clock.createdUtc),
        "video_file" := JStr(videoFile),
        "base_stem" := JStr(baseStem),
        "overlay_style" := JObject(style)]
  }

  /** The header row `MetadataRecorder.start` writes first: the video's file
      name and stem and the overlay's style; keys of the extra header override
      the standard ones. */
  function Header(rec: Recorder, overlay: Obj, extra: Obj, clock: Clock): (h: Obj)
    ensures forall k :: k in extra ==> k in h && h[k] == extra[k]
    ensures "type" !in extra ==> VideoRenderer.IsHeaderRow(h)
    ensures "video_file" !in extra ==> "video_file" in h && h["video_file"] == JStr(Basename(rec.videoPath))
    ensures "base_stem" !in extra ==> "base_stem" in h && h["base_stem"] == JStr(SplitExt(Basename(rec.videoPath)).0)
    ensures "overlay_style" !in extra ==> "overlay_style" in h && h["overlay_style"] == JObject(StyleAttributes(overlay))
  {
    var name := Basename(rec.videoPath);
    StandardHeader(name, SplitExt(name).0, StyleAttributes(overlay), clock) + extra
  }

  /** The crosshair position a tick records: `int()` of the overlay's
      `vertical_x` and `horizontal_y`, or `null` for both when either is missing
      or cannot be converted. */
  function Snapshot(overlay: Obj): (c: (Json, Json))
    ensures c.0.JNull? <==> c.1.JNull?
    ensures !c.0.JNull? ==> c.0.JInt? && c.1.JInt?
    ensures "vertical_x" !in overlay || "horizontal_y" !in overlay ==> c == (JNull, JNull)
  {
    if "vertical_x" in overlay && "horizontal_y" in overlay
       && ToInt(overlay["vertical_x"]).Ok? && ToInt(overlay["horizontal_y"]).Ok?
    then (JInt(ToInt(overlay["vertical_x"]).value), JInt(ToInt(overlay["horizontal_y"]).value))
    else (JNull, JNull)
  }

  /** One tick row of the `_run` loop, at `tRel` seconds after start. */
  function TickRow(overlay: Obj, utc: string, tRel: real, stateText: string): (row: Obj)
    ensures VideoRenderer.IsTickRow(row)
    ensures TickOrder.Key(row) == Some(tRel)
    ensures VideoRenderer.Overlay(row) == JObject(map["cx" := Snapshot(overlay).0, "cy" := Snapshot(overlay).1])
  {
    var (cx, cy) := Snapshot(overlay);
    map["type" := JStr("tick"),
        "utc" := JStr(utc),
        "t_rel" := JReal(tRel),
        "overlay" := JObject(map["cx" := cx, "cy" := cy]),
        "state_text" := JStr(stateText)]
  }

  /** A tick written while the crosshair sits at integer pixel (x, y) is drawn
      by the renderer at that point; with no readable position, nothing is drawn. */
  lemma TickRowRoundTrip(overlay: Obj, utc: string, tRel: real, stateText: string,
                         w: int, h: int, st: VideoRenderer.Style)
    ensures var row := TickRow(overlay, utc, tRel, stateText);
      && ("vertical_x" in overlay && "horizontal_y" in overlay &&
          overlay["vertical_x"].JInt? && overlay["horizontal_y"].JInt? ==>
            VideoRenderer.FrameReticle(row, w, h, st) ==
              Ok(Some(VideoRenderer.ReticleGeometry(overlay["vertical_x"].i as real,
                                                    overlay["horizontal_y"].i as real, w, h, st))))
      && (Snapshot(overlay).0.JNull? ==> VideoRenderer.FrameReticle(row, w, h, st) == Ok(None))
  {
    var row := TickRow(overlay, utc, tRel, stateText);
    var ov := map["cx" := Snapshot(overlay).0, "cy" := Snapshot(overlay).1];
    assert VideoRenderer.Coord(row, "cx") == Snapshot(overlay).0 by {
      assert VideoRenderer.Overlay(row) == JObject(ov);
    }
    assert VideoRenderer.Coord(row, "cy") == Snapshot(overlay).1 by {
      assert VideoRenderer.Overlay(row) == JObject(ov);
    }
  }

  /** The renderer finds the header's `overlay_style` entry as its style section. */
  lemma HeaderStyleSection(rec: Recorder, overlay: Obj, clock: Clock)
    ensures VideoRenderer.StyleSection(Header(rec, overlay, map[], clock)) == JObject(StyleAttributes(overlay))
  {
    var h := Header(rec, overlay, map[], clock);
    assert h != map[] by {
      assert "type" in h;
    }
  }

  /** The header of a recording made with an overlay that has none of the style
      attributes (the display class of this repository has none) carries
      `null` for each. The renderer as written then stops with `TypeError`; the
      null-safe reader draws with the defaults. */
  lemma StyleNullsBreakRenderer(rec: Recorder, overlay: Obj, clock: Clock)
    requires forall k :: k in overlay ==> k !in ["radius", "ring_thickness", "tick_length", "tick_thickness", "gap", "color"]
    ensures VideoRenderer.StyleFromHeaderAsWritten(Header(rec, overlay, map[], clock)) == Err(TypeError)
    ensures VideoRenderer.StyleFromHeader(Header(rec, overlay, map[], clock)) == Ok(VideoRenderer.DefaultStyle)
  {
    HeaderStyleSection(rec, overlay, clock);
    var s := StyleAttributes(overlay);
    assert s["radius"] == JNull;
    VideoRenderer.NullSectionGivesDefaults(s);
  }

  /** Integer style attributes and an RGBA colour written into the header are
      read back by the renderer as the same style, colour swapped to BGR. */
  lemma StyleRoundTrip(rec: Recorder, overlay: Obj, clock: Clock,
                       radius: int, ring: int, tickLen: int, tickW: int, gap: int, r: int, g: int, b: int, a: int)
    requires overlay == map["radius" := JInt(radius), "ring_thickness" := JInt(ring), "tick_length" := JInt(tickLen),
                            "tick_thickness" := JInt(tickW), "gap" := JInt(gap),
                            "color" := JList([JInt(r), JInt(g), JInt(b), JInt(a)])]
    ensures VideoRenderer.StyleFromHeader(Header(rec, overlay, map[], clock)) ==
      Ok(VideoRenderer.Style(radius, ring, tickLen, tickW, gap, VideoRenderer.Bgr(b, g, r)))
  {
    HeaderStyleSection(rec, overlay, clock);
    var s := StyleAttributes(overlay);
    assert s == overlay;
    assert [JInt(r), JInt(g), JInt(b), JInt(a)] == [JInt(r), JInt(g), JInt(b)] + [JInt(a)];
    VideoRenderer.StyleFieldsRead(s, radius, ring, tickLen, tickW, gap, r, g, b, [JInt(a)]);
  }

  // ---------- RecordingManager ----------

  /** Whether the camera object offers `start_recording` / `stop_recording`. */
  datatype Camera = Camera(canStart: bool, canStop: bool)

  /** The side effects of `start` and `stop`, in order. */
  datatype Effect =
    | CameraStarted(video: string)
    | MetadataStarted(jsonl: string, header: Obj)
    | MetadataStopped
    | CameraStopped

  datatype StartError = NoStartRecording

  /** The state of a `RecordingManager`. */
  datatype Manager = Manager(dir: string, videoPath: Option<string>, metaPath: Option<string>,
                             meta: Option<Recorder>, active: bool)

  /** While recording, both paths and the metadata recorder are set. */
  predicate Valid(m: Manager) {
    m.active ==> m.videoPath.Some? && m.metaPath.Some? && m.meta.Some?
  }

  /** `RecordingManager.__init__`, after `~` has been expanded. */
  function NewManager(dir: string): (m: Manager)
    ensures Valid(m) && !m.active && m.dir == dir
  {
    Manager(dir, None, None, None, false)
  }

  /** `RecordingManager.start`. While recording it returns the current video
      path and changes nothing. Otherwise both paths come from one fresh stem,
      differing only in extension; a camera without `start_recording` raises
      after the paths are set; else the camera starts, then the metadata
      recorder writes its header, and the manager becomes active. */
  method Start(m: Manager, camera: Camera, overlay: Obj, prefix: string, stamp: string,
               existing: set<string>, clock: Clock)
    returns (m': Manager, r: Result<string, StartError>, effects: seq<Effect>)
    requires Valid(m)
    requires '/' !in prefix && '/' !in stamp
    ensures Valid(m')
    ensures m.active ==> m' == m && r == Ok(m.videoPath.value) && effects == []
    ensures !m.active ==>
      exists stem :: && '/' !in stem
                     && m'.videoPath == Some(Join(m.dir, stem) + ".mp4")
                     && m'.metaPath == Some(Join(m.dir, stem) + ".jsonl")
                     && !Taken(existing, Join(m.dir, stem))
    ensures !m.active ==>
      var base := TimestampStem(prefix, stamp);
      exists n: nat :: && FirstFree(existing, m.dir, base, n)
                       && m'.videoPath == Some(Join(m.dir, Candidate(base, n)) + ".mp4")
                       && m'.metaPath == Some(Join(m.dir, Candidate(base, n)) + ".jsonl")
    ensures !m.active ==> m'.dir == m.dir && m'.videoPath.Some? && m'.metaPath.Some?
    ensures !m.active && !camera.canStart ==>
      r == Err(NoStartRecording) && effects == [] && !m'.active && m'.meta == m.meta
    ensures !m.active && camera.canStart ==>
      && r == Ok(m'.videoPath.value) && m'.active
      && m'.meta == Some(Recorder(m'.metaPath.value, m'.videoPath.value, 1))
      && effects == [CameraStarted(m'.videoPath.value),
                     MetadataStarted(m'.metaPath.value, Header(m'.meta.value, overlay, map[], clock))]
  {
    if m.active {
      return m, Ok(m.videoPath.value), [];
    }
    var base := TimestampStem(prefix, stamp);
    var stem := UniqueStem(m.dir, base, existing);
    ghost var n: nat :| FirstFree(existing, m.dir, base, n) && stem == Candidate(base, n);
    JoinAppend(m.dir, stem, ".mp4");
    JoinAppend(m.dir, stem, ".jsonl");
    var video := Join(m.dir, stem + ".mp4");
    var jsonl := Join(m.dir, stem + ".jsonl");
    m' := m.(videoPath := Some(video), metaPath := Some(jsonl));
    assert FirstFree(existing, m.dir, base, n)
        && m'.videoPath == Some(Join(m.dir, Candidate(base, n)) + ".mp4")
        && m'.metaPath == Some(Join(m.dir, Candidate(base, n)) + ".jsonl");
    if !camera.canStart {
      return m', Err(NoStartRecording), [];
    }
    var rec := NewRecorder(jsonl, video, 1.0);
    m' := m'.(meta := Some(rec), active := true);
    r := Ok(video);
    effects := [CameraStarted(video), MetadataStarted(jsonl, Header(rec, overlay, map[], clock))];
  }

  /** `RecordingManager.stop`. While idle it does nothing and returns `None`.
      While recording it stops the metadata recorder before the camera, so the
      last tick is written, becomes inactive and returns both paths. */
  function Stop(m: Manager, camera: Camera): (res: (Manager, Option<(Option<string>, Option<string>)>, seq<Effect>))
    ensures !m.active ==> res == (m, None, [])
    ensures m.active ==> res.1 == Some((m.videoPath, m.metaPath))
    ensures m.active ==> res.0 == m.(active := false)
    ensures Valid(res.0)
    ensures m.active && m.meta.Some? ==> |res.2| >= 1 && res.2[0] == MetadataStopped
    ensures m.active ==> (CameraStopped in res.2 <==> camera.canStop)
    ensures m.active ==> (MetadataStopped in res.2 <==> m.meta.Some?)
    ensures m.active ==> |res.2| == (if m.meta.Some? then 1 else 0) + (if camera.canStop then 1 else 0)
    ensures forall k :: 0 <= k < |res.2| && res.2[k] == CameraStopped ==>
              forall j :: k < j < |res.2| ==> res.2[j] != MetadataStopped
  {
    if !m.active then (m, None, [])
    else
      var metaStop := if m.meta.Some? then [MetadataStopped] else [];
      var cameraStop := if camera.canStop then [CameraStopped] else [];
      (m.(active := false), Some((m.videoPath, m.metaPath)), metaStop + cameraStop)
  }

  /** A full session: starting, then stopping, returns the paths start chose
      and leaves the manager idle with those paths remembered. */
  method StartThenStop(m: Manager, camera: Camera, overlay: Obj, prefix: string, stamp: string,
                       existing: set<string>, clock: Clock)
    returns (m': Manager, paths: Option<(Option<string>, Option<string>)>)
    requires Valid(m) && !m.active && camera.canStart
    requires '/' !in prefix && '/' !in stamp
    ensures !m'.active && Valid(m')
    ensures paths.Some? && paths.value.0.Some? && paths.value.1.Some?
    ensures var (v, j) := (paths.value.0.value, paths.value.1.value);
      exists stem :: '/' !in stem && v == Join(m.dir, stem) + ".mp4" && j == Join(m.dir, stem) + ".jsonl"
                     && v !in existing && j !in existing
  {
    var started, r, effects := Start(m, camera, overlay, prefix, stamp, existing, clock);
    var stopped := Stop(started, camera);
    m' := stopped.0;
    paths := stopped.1;
  }
}
