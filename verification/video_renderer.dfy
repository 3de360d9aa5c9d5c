/** The sidecar renderer: finds the video/metadata pair for a stem, loads the
    header and the time-ordered tick rows, derives the reticle style, and walks
    the ticks frame by frame to decide which reticle each frame gets. Files,
    OpenCV capture and drawing are parameters: the model decides what is drawn,
    not how pixels are blended. */
module VideoRenderer {
  import opened Base
  import opened Paths
  import opened JsonData
  import opened TickOrder

  // ---------- Paths ----------

  datatype RenderError =
    | VideoNotFound(video: string)
    | MetadataNotFound(metadata: string)
    | MalformedLine(line: nat)
    | NotAnObject(line: nat)
    | UnorderableTicks
    | NoTicks
    | BadStyle(cause: PyError)
    | CaptureFailed(video: string)
    | WriterFailed(output: string)
    | BadOverlay(cause: PyError)

  /** The three paths one rendering uses. */
  datatype Stems = Stems(video: string, metadata: string, output: string)

  /** The video and metadata paths `_stem_paths` derives before checking them:
      a `.mp4` input (any case) is the video, a `.jsonl` input (any case) is the
      metadata, and the other one is built from the base; any other input
      names neither and both are built from the base. */
  function Candidates(p: string): (r: (string, string))
    ensures var (base, ext) := SplitExt(p);
            && (r.0 == p <==> Lower(ext) == ".mp4")
            && (r.1 == p <==> Lower(ext) == ".jsonl")
            && (NamedLastComponent(base) ==>
                  && SplitExt(r.0).0 == base && Lower(SplitExt(r.0).1) == ".mp4"
                  && SplitExt(r.1).0 == base && Lower(SplitExt(r.1).1) == ".jsonl")
  {
    var (base, ext) := SplitExt(p);
    KnownExtensions();
    AppendedExtension(base, ext, ".mp4");
    AppendedExtension(base, ext, ".jsonl");
    KnownExtensionsSplitBack(base);
    if Lower(ext) == ".mp4" then (p, base + ".jsonl")
    else if Lower(ext) == ".jsonl" then (base + ".mp4", p)
    else (base + ".mp4", base + ".jsonl")
  }

  /** `_stem_paths` over the set of existing files: the video is checked before
      the metadata, and the output is always the base followed by
      `_overlay.mp4`. */
  function StemPaths(p: string, files: set<string>): (r: Result<Stems, RenderError>)
    ensures var (video, metadata) := Candidates(p);
            && (r.Ok? <==> video in files && metadata in files)
            && (video !in files ==> r == Err(VideoNotFound(video)))
            && (video in files && metadata !in files ==> r == Err(MetadataNotFound(metadata)))
            && (r.Ok? ==> r.value == Stems(video, metadata, SplitExt(p).0 + "_overlay.mp4"))
  {
    var (video, metadata) := Candidates(p);
    if video !in files then Err(VideoNotFound(video))
    else if metadata !in files then Err(MetadataNotFound(metadata))
    else Ok(Stems(video, metadata, SplitExt(p).0 + "_overlay.mp4"))
  }

  lemma KnownExtensions()
    ensures IsExtension(".mp4") && Lower(".mp4") == ".mp4"
    ensures IsExtension(".jsonl") && Lower(".jsonl") == ".jsonl"
  {
    assert ".mp4"[1..] == "mp4";
    assert ".jsonl"[1..] == "jsonl";
  }

  /** Two names with the same base are equal exactly when their tails are. */
  lemma AppendedExtension(base: string, ext: string, e: string)
    ensures base + e == base + ext <==> e == ext
  {
    if base + e == base + ext {
      assert (base + e)[|base|..] == e;
      assert (base + ext)[|base|..] == ext;
    }
  }

  lemma KnownExtensionsSplitBack(base: string)
    ensures NamedLastComponent(base) ==>
              SplitExt(base + ".mp4") == (base, ".mp4") && SplitExt(base + ".jsonl") == (base, ".jsonl")
  {
    if NamedLastComponent(base) {
      KnownExtensions();
      SplitExtAppend(base, ".mp4");
      SplitExtAppend(base, ".jsonl");
    }
  }

  /** A recording named by its stem, by its video or by its metadata file: all
      three spellings find the same pair and the same output. */
  lemma StemSpellingsAgree(stem: string, files: set<string>)
    requires NamedLastComponent(stem) && SplitExt(stem) == (stem, [])
    requires stem + ".mp4" in files && stem + ".jsonl" in files
    ensures var expected := Ok(Stems(stem + ".mp4", stem + ".jsonl", stem + "_overlay.mp4"));
            && StemPaths(stem, files) == expected
            && StemPaths(stem + ".mp4", files) == expected
            && StemPaths(stem + ".jsonl", files) == expected
  {
    KnownExtensions();
    assert Candidates(stem) == (stem + ".mp4", stem + ".jsonl") by {
      assert Lower([]) == [];
    }
    VideoSpelling(stem);
    MetadataSpelling(stem);
  }

  lemma VideoSpelling(stem: string)
    requires NamedLastComponent(stem)
    ensures SplitExt(stem + ".mp4") == (stem, ".mp4")
    ensures Candidates(stem + ".mp4") == (stem + ".mp4", stem + ".jsonl")
  {
    KnownExtensions();
    SplitExtAppend(stem, ".mp4");
  }

  lemma MetadataSpelling(stem: string)
    requires NamedLastComponent(stem)
    ensures SplitExt(stem + ".jsonl") == (stem, ".jsonl")
    ensures Candidates(stem + ".jsonl") == (stem + ".mp4", stem + ".jsonl")
  {
    KnownExtensions();
    SplitExtAppend(stem, ".jsonl");
    assert Lower(".jsonl") != ".mp4";
  }

  /** Whatever the spelling, a missing video is reported before the metadata. */
  lemma MissingVideoReportedFirst(p: string, files: set<string>)
    requires Candidates(p).0 !in files
    ensures StemPaths(p, files) == Err(VideoNotFound(Candidates(p).0))
  {
  }

  // ---------- Loading the sidecar ----------

  /** One line of the sidecar as `json.loads` sees it. */
  datatype Line = Blank | Malformed | Parsed(value: Json)

  function TypeOf(o: Obj): Json {
    Get(o, "type", JNull)
  }

  predicate IsHeaderRow(o: Obj) { TypeOf(o) == JStr("header") }

  predicate IsTickRow(o: Obj) { TypeOf(o) == JStr("tick") }

  /** The line is skipped or holds an object, so `obj.get` does not raise. */
  predicate Readable(l: Line) {
    l.Blank? || (l.Parsed? && l.value.JObject?)
  }

  predicate HeaderAt(ls: seq<Line>, j: int)
    requires 0 <= j < |ls|
  {
    ls[j].Parsed? && ls[j].value.JObject? && IsHeaderRow(ls[j].value.fields)
  }

  /** Reference: the header row that wins, the last one; `{}` when there is none. */
  function LastHeader(ls: seq<Line>): (h: Obj)
    ensures (forall j :: 0 <= j < |ls| ==> !HeaderAt(ls, j)) ==> h == map[]
    ensures (exists j :: 0 <= j < |ls| && HeaderAt(ls, j)) ==>
      exists j :: 0 <= j < |ls| && HeaderAt(ls, j) && h == ls[j].value.fields &&
                  forall k :: j < k < |ls| ==> !HeaderAt(ls, k)
  {
    if |ls| == 0 then map[]
    else if HeaderAt(ls, |ls| - 1) then ls[|ls| - 1].value.fields
    else
      var init := ls[..|ls| - 1];
      var h := LastHeader(init);
      assert forall j :: 0 <= j < |init| ==> (HeaderAt(ls, j) <==> HeaderAt(init, j));
      assert (forall j :: 0 <= j < |ls| ==> !HeaderAt(ls, j)) ==> (forall j :: 0 <= j < |init| ==> !HeaderAt(init, j));
      h
  }

  /** Reference: the tick rows in file order. */
  function TickRows(ls: seq<Line>): (t: seq<Obj>)
    ensures |t| <= |ls|
  {
    if |ls| == 0 then []
    else
      var l := ls[|ls| - 1];
      TickRows(ls[..|ls| - 1]) +
        (if l.Parsed? && l.value.JObject? && IsTickRow(l.value.fields) then [l.value.fields] else [])
  }

  /** Every tick row, and nothing else, is among the tick rows. */
  lemma {:induction false} TickRowsAreTheTicks(ls: seq<Line>, o: Obj)
    ensures o in TickRows(ls) <==>
      IsTickRow(o) && exists j :: 0 <= j < |ls| && ls[j] == Parsed(JObject(o))
  {
    if |ls| > 0 {
      var init := ls[..|ls| - 1];
      TickRowsAreTheTicks(init, o);
      if IsTickRow(o) && (exists j :: 0 <= j < |ls| && ls[j] == Parsed(JObject(o))) {
        var j :| 0 <= j < |ls| && ls[j] == Parsed(JObject(o));
        if j < |ls| - 1 {
          assert init[j] == ls[j];
        }
      }
      if exists j :: 0 <= j < |init| && init[j] == Parsed(JObject(o)) {
        var j :| 0 <= j < |init| && init[j] == Parsed(JObject(o));
        assert ls[j] == init[j];
      }
    }
  }

  /** Python can order the ticks: at most one, or every key a number. */
  predicate Orderable(ticks: seq<Obj>) {
    |ticks| <= 1 || forall k :: 0 <= k < |ticks| ==> NumericKey(ticks[k])
  }

  /** The reading loop of `_load_header_and_ticks`: blank lines are skipped,
      each header row replaces the previous one, tick rows are collected in file
      order. The first line that is not JSON, or not an object, raises. */
  method ScanLines(ls: seq<Line>) returns (r: Result<(Obj, seq<Obj>), RenderError>)
    ensures r.Ok? <==> forall j :: 0 <= j < |ls| ==> Readable(ls[j])
    ensures r.Ok? ==> r.value == (LastHeader(ls), TickRows(ls))
    ensures r.Err? ==>
      && (r.error.MalformedLine? || r.error.NotAnObject?)
      && r.error.line < |ls| && !Readable(ls[r.error.line])
      && (r.error.MalformedLine? <==> ls[r.error.line].Malformed?)
      && forall k :: 0 <= k < r.error.line ==> Readable(ls[k])
  {
    var header: Obj := map[];
    var ticks: seq<Obj> := [];
    var k := 0;
    while k < |ls|
      invariant 0 <= k <= |ls|
      invariant forall j :: 0 <= j < k ==> Readable(ls[j])
      invariant header == LastHeader(ls[..k])
      invariant ticks == TickRows(ls[..k])
    {
      ScanStep(ls, k);
      ghost var nextHeader := LastHeader(ls[..k + 1]);
      ghost var nextTicks := TickRows(ls[..k + 1]);
      match ls[k] {
        case Blank =>
          assert Readable(ls[k]);
          assert nextHeader == header && nextTicks == ticks;
        case Malformed =>
          return Err(MalformedLine(k));
        case Parsed(v) =>
          if !v.JObject? {
            return Err(NotAnObject(k));
          }
          assert Readable(ls[k]);
          var obj := v.fields;
          if TypeOf(obj) == JStr("header") {
            header := obj;
          } else if TypeOf(obj) == JStr("tick") {
            ticks := ticks + [obj];
          }
          assert nextHeader == header && nextTicks == ticks;
      }
      k := k + 1;
    }
    assert ls[..k] == ls;
    r := Ok((header, ticks));
  }

  /** Reading one more line: a header row replaces the header, a tick row is
      appended to the ticks. */
  lemma ScanStep(ls: seq<Line>, k: int)
    requires 0 <= k < |ls|
    ensures LastHeader(ls[..k + 1]) == if HeaderAt(ls, k) then ls[k].value.fields else LastHeader(ls[..k])
    ensures TickRows(ls[..k + 1]) == TickRows(ls[..k]) +
      (if ls[k].Parsed? && ls[k].value.JObject? && IsTickRow(ls[k].value.fields) then [ls[k].value.fields] else [])
  {
    var p := ls[..k + 1];
    assert p[..|p| - 1] == ls[..k];
    assert p[|p| - 1] == ls[k];
    assert HeaderAt(p, |p| - 1) == HeaderAt(ls, k);
  }

  /** `_load_header_and_ticks` over the lines of the sidecar: the last header
      row wins, and the tick rows come back as a stable sort by `t_rel`. Keys
      Python cannot compare raise when sorting. */
  method LoadHeaderAndTicks(ls: seq<Line>) returns (r: Result<(Obj, seq<Obj>), RenderError>)
    ensures r.Ok? <==> (forall j :: 0 <= j < |ls| ==> Readable(ls[j])) && Orderable(TickRows(ls))
    ensures r.Ok? ==> r.value == (LastHeader(ls), SortRows(TickRows(ls)))
    ensures r.Ok? ==> multiset(r.value.1) == multiset(TickRows(ls)) && Sorted(r.value.1)
    ensures r.Ok? ==> forall v :: WithKey(r.value.1, v) == WithKey(TickRows(ls), v)
    ensures r.Err? ==> r.error.MalformedLine? || r.error.NotAnObject? || r.error == UnorderableTicks
    ensures r.Err? && (r.error.MalformedLine? || r.error.NotAnObject?) ==>
      && r.error.line < |ls| && !Readable(ls[r.error.line])
      && (r.error.MalformedLine? <==> ls[r.error.line].Malformed?)
      && forall k :: 0 <= k < r.error.line ==> Readable(ls[k])
    ensures r == Err(UnorderableTicks) <==> (forall j :: 0 <= j < |ls| ==> Readable(ls[j])) && !Orderable(TickRows(ls))
  {
    var scanned :- ScanLines(ls);
    var (header, ticks) := scanned;
    if |ticks| > 1 && exists j :: 0 <= j < |ticks| && !NumericKey(ticks[j]) {
      return Err(UnorderableTicks);
    }
    SortRowsSorted(ticks);
    forall v {
      SortRowsStable(ticks, v);
    }
    r := Ok((header, SortRows(ticks)));
  }

  // ---------- Style ----------

  datatype Bgr = Bgr(b: int, g: int, r: int)

  /** The reticle style the renderer draws with. */
  datatype Style = Style(radius: int, ring: int, tickLen: int, tickW: int, gap: int, color: Bgr)

  const DefaultStyle: Style := Style(10, 1, 300, 1, 2, Bgr(0, 0, 130))

  /** `header.get("overlay_style", {}) if header else {}`. */
  function StyleSection(header: Obj): Json {
    if header == map[] then JObject(map[]) else Get(header, "overlay_style", JObject(map[]))
  }

  /** `int()` of the three leading entries of an RGBA list, as BGR; any other
      colour value gives the default dark red. */
  function ColorBgr(c: Json): (r: Result<Bgr, PyError>)
    ensures !(c.JList? && |c.items| >= 3) ==> r == Ok(Bgr(0, 0, 130))
    ensures c.JList? && |c.items| >= 3 && c.items[0].JInt? && c.items[1].JInt? && c.items[2].JInt? ==>
      r == Ok(Bgr(c.items[2].i, c.items[1].i, c.items[0].i))
  {
    if c.JList? && |c.items| >= 3 then
      var b :- ToInt(c.items[2]);
      var g :- ToInt(c.items[1]);
      var r :- ToInt(c.items[0]);
      Ok(Bgr(b, g, r))
    else Ok(Bgr(0, 0, 130))
  }

  /** One style field: `int(s.get(key, default))`, as written. */
  function FieldAsWritten(s: Obj, key: string, default: int): (r: Result<int, PyError>)
    ensures key !in s ==> r == Ok(default)
    ensures key in s && s[key].JInt? ==> r == Ok(s[key].i)
    ensures key in s && s[key].JNull? ==> r == Err(TypeError)
  {
    ToInt(Get(s, key, JInt(default)))
  }

  /** One style field with an explicit `null` read as "not given". */
  function FieldNullSafe(s: Obj, key: string, default: int): (r: Result<int, PyError>)
    ensures key !in s || s[key].JNull? ==> r == Ok(default)
    ensures key in s && s[key].JInt? ==> r == Ok(s[key].i)
  {
    var v := Get(s, key, JNull);
    if v.JNull? then Ok(default) else ToInt(v)
  }

  function ReadField(s: Obj, key: string, default: int, nullSafe: bool): Result<int, PyError> {
    if nullSafe then FieldNullSafe(s, key, default) else FieldAsWritten(s, key, default)
  }

  /** The colour value, with `null` read as "not given" by the null-safe reader. */
  function ColorValue(s: Obj, nullSafe: bool): Json {
    var c := Get(s, "color", JList([JInt(130), JInt(0), JInt(0), JInt(255)]));
    if nullSafe && c.JNull? then JList([JInt(130), JInt(0), JInt(0), JInt(255)]) else c
  }

  /** The style built from the section, fields read in the source's order. */
  function StyleWith(s: Obj, nullSafe: bool): Result<Style, PyError> {
    var radius :- ReadField(s, "radius", 10, nullSafe);
    var ring :- ReadField(s, "ring_thickness", 1, nullSafe);
    var tickLen :- ReadField(s, "tick_length", 300, nullSafe);
    var tickW :- ReadField(s, "tick_thickness", 1, nullSafe);
    var gap :- ReadField(s, "gap", 2, nullSafe);
    var color :- ColorBgr(ColorValue(s, nullSafe));
    Ok(Style(radius, ring, tickLen, tickW, gap, color))
  }

  /** `_style_from_header` as written: a field present with value `null` reaches
      `int(None)` and raises `TypeError`. */
  function StyleFromHeaderAsWritten(header: Obj): (r: Result<Style, PyError>)
    ensures !StyleSection(header).JObject? ==> r == Err(AttributeError)
    ensures (StyleSection(header).JObject? && "radius" in StyleSection(header).fields &&
             StyleSection(header).fields["radius"].JNull?) ==> r == Err(TypeError)
  {
    match StyleSection(header)
    case JObject(s) => StyleWith(s, false)
    case _ => Err(AttributeError)
  }

  /** `_style_from_header` with `null` fields falling back to their defaults. */
  function StyleFromHeader(header: Obj): (r: Result<Style, PyError>)
    ensures !StyleSection(header).JObject? ==> r == Err(AttributeError)
  {
    match StyleSection(header)
    case JObject(s) => StyleWith(s, true)
    case _ => Err(AttributeError)
  }

  /** With no header, or a header without a style section, every default applies. */
  lemma DefaultsWithoutStyle(header: Obj)
    requires "overlay_style" !in header
    ensures StyleFromHeader(header) == Ok(DefaultStyle)
    ensures StyleFromHeaderAsWritten(header) == Ok(DefaultStyle)
  {
  }

  /** A style section whose every field is missing or `null` gives the default
      style to the null-safe reader. */
  lemma NullSectionGivesDefaults(s: Obj)
    requires forall k :: k in s ==> s[k] == JNull
    ensures StyleWith(s, true) == Ok(DefaultStyle)
  {
  }

  /** Each field the section gives as an integer is used as is, RGB(A) colours
      are swapped to BGR, and each field left out takes its default; the two
      readers agree whenever no field is `null`. */
  lemma StyleFieldsRead(s: Obj, radius: int, ring: int, tickLen: int, tickW: int, gap: int, r: int, g: int, b: int, rest: seq<Json>)
    requires s == map["radius" := JInt(radius), "ring_thickness" := JInt(ring), "tick_length" := JInt(tickLen),
                       "tick_thickness" := JInt(tickW), "gap" := JInt(gap),
                       "color" := JList([JInt(r), JInt(g), JInt(b)] + rest)]
    ensures StyleFromHeader(map["overlay_style" := JObject(s)]) == Ok(Style(radius, ring, tickLen, tickW, gap, Bgr(b, g, r)))
    ensures StyleFromHeaderAsWritten(map["overlay_style" := JObject(s)]) == StyleFromHeader(map["overlay_style" := JObject(s)])
  {
    var h := map["overlay_style" := JObject(s)];
    assert h != map[] by {
      assert "overlay_style" in h;
    }
    var c := [JInt(r), JInt(g), JInt(b)] + rest;
    assert c[0] == JInt(r) && c[1] == JInt(g) && c[2] == JInt(b);
  }

  /** A style field left out, given as an integer, or given as `null`. */
  predicate IntOrNull(s: Obj, key: string) {
    key !in s || s[key].JInt? || s[key].JNull?
  }

  predicate NullField(s: Obj, key: string) {
    key in s && s[key].JNull?
  }

  /** The field's integer, or `default` when it is left out or `null`. */
  function IntOr(s: Obj, key: string, default: int): int {
    if key in s && s[key].JInt? then s[key].i else default
  }

  /** A colour left out, `null`, or a list whose three leading entries are integers. */
  predicate ColorIntsOrNull(s: Obj) {
    "color" !in s || s["color"].JNull? ||
    (s["color"].JList? && |s["color"].items| >= 3 &&
     s["color"].items[0].JInt? && s["color"].items[1].JInt? && s["color"].items[2].JInt?)
  }

  /** The colour as BGR, or the default dark red when it is left out or `null`. */
  function ColorOr(s: Obj): Bgr
    requires ColorIntsOrNull(s)
  {
    if "color" in s && s["color"].JList? then
      Bgr(s["color"].items[2].i, s["color"].items[1].i, s["color"].items[0].i)
    else Bgr(0, 0, 130)
  }

  /** Over every section whose fields are integers or `null`, the null-safe
      reader succeeds and takes each field's integer, or its default where the
      field is left out or `null`. */
  lemma StyleFromHeaderReadsEachField(header: Obj)
    requires StyleSection(header).JObject?
    requires IntOrNullSection(StyleSection(header).fields)
    ensures var s := StyleSection(header).fields;
      StyleFromHeader(header) == Ok(Style(IntOr(s, "radius", 10), IntOr(s, "ring_thickness", 1),
                                          IntOr(s, "tick_length", 300), IntOr(s, "tick_thickness", 1),
                                          IntOr(s, "gap", 2), ColorOr(s)))
  {
    var s := StyleSection(header).fields;
    FieldReadersOnIntOrNull(s, "radius", 10);
    FieldReadersOnIntOrNull(s, "ring_thickness", 1);
    FieldReadersOnIntOrNull(s, "tick_length", 300);
    FieldReadersOnIntOrNull(s, "tick_thickness", 1);
    FieldReadersOnIntOrNull(s, "gap", 2);
    assert ColorBgr(ColorValue(s, true)) == Ok(ColorOr(s));
    StyleWithAllRead(s, true, IntOr(s, "radius", 10), IntOr(s, "ring_thickness", 1),
                     IntOr(s, "tick_length", 300), IntOr(s, "tick_thickness", 1), IntOr(s, "gap", 2), ColorOr(s));
  }

  /** On the same sections the reader as written gives the same style unless
      one of the five integer fields is `null`, and then raises `TypeError`; a
      `null` colour falls back to the default in both. */
  lemma StyleAsWrittenFailsOnlyOnNull(header: Obj)
    requires StyleSection(header).JObject?
    requires IntOrNullSection(StyleSection(header).fields)
    ensures var s := StyleSection(header).fields;
      StyleFromHeaderAsWritten(header) ==
        if NullField(s, "radius") || NullField(s, "ring_thickness") || NullField(s, "tick_length")
           || NullField(s, "tick_thickness") || NullField(s, "gap")
        then Err(TypeError) else StyleFromHeader(header)
  {
    var s := StyleSection(header).fields;
    StyleFromHeaderReadsEachField(header);
    FieldReadersOnIntOrNull(s, "radius", 10);
    FieldReadersOnIntOrNull(s, "ring_thickness", 1);
    FieldReadersOnIntOrNull(s, "tick_length", 300);
    FieldReadersOnIntOrNull(s, "tick_thickness", 1);
    FieldReadersOnIntOrNull(s, "gap", 2);
    assert ColorBgr(ColorValue(s, false)) == Ok(ColorOr(s));
    if NullField(s, "radius") || NullField(s, "ring_thickness") || NullField(s, "tick_length")
       || NullField(s, "tick_thickness") || NullField(s, "gap") {
      StyleWithStopsAtTypeError(s);
    } else {
      StyleWithAllRead(s, false, IntOr(s, "radius", 10), IntOr(s, "ring_thickness", 1),
                       IntOr(s, "tick_length", 300), IntOr(s, "tick_thickness", 1), IntOr(s, "gap", 2), ColorOr(s));
    }
  }

  predicate IntOrNullSection(s: Obj) {
    && IntOrNull(s, "radius") && IntOrNull(s, "ring_thickness") && IntOrNull(s, "tick_length")
    && IntOrNull(s, "tick_thickness") && IntOrNull(s, "gap") && ColorIntsOrNull(s)
  }

  /** When every field reads, the style holds what was read. */
  lemma StyleWithAllRead(s: Obj, nullSafe: bool, radius: int, ring: int, tickLen: int, tickW: int, gap: int, color: Bgr)
    requires ReadField(s, "radius", 10, nullSafe) == Ok(radius)
    requires ReadField(s, "ring_thickness", 1, nullSafe) == Ok(ring)
    requires ReadField(s, "tick_length", 300, nullSafe) == Ok(tickLen)
    requires ReadField(s, "tick_thickness", 1, nullSafe) == Ok(tickW)
    requires ReadField(s, "gap", 2, nullSafe) == Ok(gap)
    requires ColorBgr(ColorValue(s, nullSafe)) == Ok(color)
    ensures StyleWith(s, nullSafe) == Ok(Style(radius, ring, tickLen, tickW, gap, color))
  {
  }

  /** When the integer fields are integers or `null` and one is `null`, the
      reader as written raises `TypeError` at the first `null` it meets. */
  lemma StyleWithStopsAtTypeError(s: Obj)
    requires && IntOrNull(s, "radius") && IntOrNull(s, "ring_thickness") && IntOrNull(s, "tick_length")
             && IntOrNull(s, "tick_thickness") && IntOrNull(s, "gap")
    requires NullField(s, "radius") || NullField(s, "ring_thickness") || NullField(s, "tick_length")
             || NullField(s, "tick_thickness") || NullField(s, "gap")
    ensures StyleWith(s, false) == Err(TypeError)
  {
    FieldReadersOnIntOrNull(s, "radius", 10);
    FieldReadersOnIntOrNull(s, "ring_thickness", 1);
    FieldReadersOnIntOrNull(s, "tick_length", 300);
    FieldReadersOnIntOrNull(s, "tick_thickness", 1);
    FieldReadersOnIntOrNull(s, "gap", 2);
  }

  /** One integer-or-`null` field under both readers. */
  lemma FieldReadersOnIntOrNull(s: Obj, key: string, default: int)
    requires IntOrNull(s, key)
    ensures ReadField(s, key, default, true) == Ok(IntOr(s, key, default))
    ensures ReadField(s, key, default, false) ==
              if NullField(s, key) then Err(TypeError) else Ok(IntOr(s, key, default))
  {
  }

  // ---------- Reticle geometry ----------

  /** A straight tick mark from (x0, y0) to (x1, y1). */
  datatype Segment = Segment(x0: int, y0: int, x1: int, y1: int)

  /** What `_draw_reticle` draws: the ring around the clipped centre and the
      tick marks that have positive length after clipping. */
  datatype Reticle = Reticle(cx: int, cy: int, left: Option<Segment>, right: Option<Segment>,
                             top: Option<Segment>, bottom: Option<Segment>)

  /** `int(np.clip(v, 0, hi))`: NumPy clips to the lower bound first, then the
      upper bound, and `int()` truncates. */
  function ClipToPixel(v: real, hi: int): (p: int)
    ensures hi >= 0 ==> 0 <= p <= hi
    ensures 0 <= hi && 0.0 <= v <= hi as real ==> p == v.Floor
  {
    TruncReal(MinReal(MaxReal(v, 0.0), hi as real))
  }

  /** `_draw_reticle`'s geometry on a `w`-by-`h` frame. The centre is the
      position clipped into the frame; the left and top marks start inside the
      frame, the right and bottom marks end inside it, and each lies on the
      centre's row or column, `radius + gap` away from the centre. A mark is at
      most `tick_length` long and exactly that long unless the frame edge cut
      it; it is dropped exactly when its inner end is not inside the frame or
      the tick length is not positive. */
  function ReticleGeometry(x: real, y: real, w: int, h: int, st: Style): (r: Reticle)
    ensures r.cx == ClipToPixel(x, w - 1) && r.cy == ClipToPixel(y, h - 1)
    ensures w >= 1 ==> 0 <= r.cx < w
    ensures h >= 1 ==> 0 <= r.cy < h
    ensures r.left.Some? ==> var s := r.left.value;
      && s.y0 == s.y1 == r.cy && 0 <= s.x0 < s.x1 && s.x1 == r.cx - st.radius - st.gap
      && s.x1 - s.x0 <= st.tickLen && (s.x0 != 0 ==> s.x1 - s.x0 == st.tickLen)
    ensures r.right.Some? ==> var s := r.right.value;
      && s.y0 == s.y1 == r.cy && s.x0 < s.x1 <= w - 1 && s.x0 == r.cx + st.radius + st.gap
      && s.x1 - s.x0 <= st.tickLen && (s.x1 != w - 1 ==> s.x1 - s.x0 == st.tickLen)
    ensures r.top.Some? ==> var s := r.top.value;
      && s.x0 == s.x1 == r.cx && 0 <= s.y0 < s.y1 && s.y1 == r.cy - st.radius - st.gap
      && s.y1 - s.y0 <= st.tickLen && (s.y0 != 0 ==> s.y1 - s.y0 == st.tickLen)
    ensures r.bottom.Some? ==> var s := r.bottom.value;
      && s.x0 == s.x1 == r.cx && s.y0 < s.y1 <= h - 1 && s.y0 == r.cy + st.radius + st.gap
      && s.y1 - s.y0 <= st.tickLen && (s.y1 != h - 1 ==> s.y1 - s.y0 == st.tickLen)
    ensures r.left.None? <==> r.cx - st.radius - st.gap <= 0 || st.tickLen <= 0
    ensures r.right.None? <==> r.cx + st.radius + st.gap >= w - 1 || st.tickLen <= 0
    ensures r.top.None? <==> r.cy - st.radius - st.gap <= 0 || st.tickLen <= 0
    ensures r.bottom.None? <==> r.cy + st.radius + st.gap >= h - 1 || st.tickLen <= 0
  {
    var cx := ClipToPixel(x, w - 1);
    var cy := ClipToPixel(y, h - 1);
    Reticle(cx, cy,
            OnRow(MarkBefore(cx, st), cy), OnRow(MarkAfter(cx, w - 1, st), cy),
            OnColumn(MarkBefore(cy, st), cx), OnColumn(MarkAfter(cy, h - 1, st), cx))
  }

  /** The span of the mark before centre `c` on one axis: from
      `c - radius - gap - tick_length`, clipped at 0, to `c - radius - gap`. */
  function MarkBefore(c: int, st: Style): (m: Option<(int, int)>)
    ensures m.Some? ==> var (lo, hi) := m.value;
      && 0 <= lo < hi == c - st.radius - st.gap
      && hi - lo <= st.tickLen && (lo != 0 ==> hi - lo == st.tickLen)
    ensures m.None? <==> c - st.radius - st.gap <= 0 || st.tickLen <= 0
  {
    var lo := MaxInt(0, c - st.radius - st.gap - st.tickLen);
    var hi := c - st.radius - st.gap;
    if hi > lo then Some((lo, hi)) else None
  }

  /** The span of the mark after centre `c` on an axis whose last pixel is
      `last`: from `c + radius + gap` to `c + radius + gap + tick_length`,
      clipped at `last`. */
  function MarkAfter(c: int, last: int, st: Style): (m: Option<(int, int)>)
    ensures m.Some? ==> var (lo, hi) := m.value;
      && c + st.radius + st.gap == lo < hi <= last
      && hi - lo <= st.tickLen && (hi != last ==> hi - lo == st.tickLen)
    ensures m.None? <==> c + st.radius + st.gap >= last || st.tickLen <= 0
  {
    var lo := c + st.radius + st.gap;
    var hi := MinInt(last, c + st.radius + st.gap + st.tickLen);
    if hi > lo then Some((lo, hi)) else None
  }

  function OnRow(m: Option<(int, int)>, row: int): Option<Segment> {
    match m
    case Some((lo, hi)) => Some(Segment(lo, row, hi, row))
    case None => None
  }

  function OnColumn(m: Option<(int, int)>, col: int): Option<Segment> {
    match m
    case Some((lo, hi)) => Some(Segment(col, lo, col, hi))
    case None => None
  }

  /** Away from the frame edges all four marks are drawn at full length,
      mirror images of each other about the centre. */
  lemma ReticleInteriorIsSymmetric(x: real, y: real, w: int, h: int, st: Style)
    requires st.tickLen > 0
    requires 0 <= w - 1 && 0.0 <= x <= (w - 1) as real && 0 <= h - 1 && 0.0 <= y <= (h - 1) as real
    requires x.Floor - st.radius - st.gap - st.tickLen >= 0 && x.Floor + st.radius + st.gap + st.tickLen <= w - 1
    requires y.Floor - st.radius - st.gap - st.tickLen >= 0 && y.Floor + st.radius + st.gap + st.tickLen <= h - 1
    ensures var r := ReticleGeometry(x, y, w, h, st);
            && r.left.Some? && r.right.Some? && r.top.Some? && r.bottom.Some?
            && r.left.value.x1 - r.left.value.x0 == st.tickLen == r.right.value.x1 - r.right.value.x0
            && r.top.value.y1 - r.top.value.y0 == st.tickLen == r.bottom.value.y1 - r.bottom.value.y0
            && r.cx - r.left.value.x1 == r.right.value.x0 - r.cx
            && r.cy - r.top.value.y1 == r.bottom.value.y0 - r.cy
  {
  }

  /** `current.get("overlay", {})`. */
  function Overlay(row: Obj): Json {
    Get(row, "overlay", JObject(map[]))
  }

  /** `ov.get(key)` on the overlay dictionary; `None` when it is absent. */
  function Coord(row: Obj, key: string): Json
    requires Overlay(row).JObject?
  {
    Get(Overlay(row).fields, key, JNull)
  }

  /** `v` inside `n` one-element lists: `v`, `[v]`, `[[v]]`, ... */
  function Wrap(v: Json, n: nat): (r: Json)
    ensures n > 0 ==> r.JList? && |r.items| == 1
  {
    if n == 0 then v else JList([Wrap(v, n - 1)])
  }

  /** The value `int(np.clip(v, 0, hi))` clips: a number, or anything NumPy
      turns into an array of size one, that is, a one-element list of such a
      value (`int()` of a size-one array gives its element). An empty or longer
      list, a string, an object or a list holding one raises TypeError. */
  function PixelValue(v: Json): (r: Option<real>)
    ensures !v.JList? ==> r == Number(v)
    ensures v.JList? && |v.items| != 1 ==> r.None?
  {
    if v.JList? then
      if |v.items| == 1 then PixelValue(v.items[0]) else None
    else Number(v)
  }

  /** A number wrapped in any depth of one-element lists clips as that number. */
  lemma {:induction false} PixelValueOfWrapped(x: Json, n: nat)
    requires Number(x).Some?
    ensures PixelValue(Wrap(x, n)) == Number(x)
  {
    if n > 0 {
      PixelValueOfWrapped(x, n - 1);
    }
  }

  /** Conversely, every value that clips is a wrapped number. */
  lemma {:induction false} PixelValueIsWrappedNumber(v: Json)
    requires PixelValue(v).Some?
    ensures exists x: Json, n: nat :: Number(x).Some? && v == Wrap(x, n) && PixelValue(v) == Number(x)
  {
    if v.JList? {
      PixelValueIsWrappedNumber(v.items[0]);
      var x: Json, n: nat :| Number(x).Some? && v.items[0] == Wrap(x, n) && PixelValue(v.items[0]) == Number(x);
      assert v.items == [Wrap(x, n)];
      assert v == Wrap(x, n + 1);
    } else {
      assert v == Wrap(v, 0);
    }
  }

  /** The reticle a tick row asks for: none when `cx` or `cy` is `null` or
      missing; otherwise the geometry at that point. An overlay that is not a
      dictionary, or a coordinate NumPy cannot clip to a pixel, raises. */
  function FrameReticle(row: Obj, w: int, h: int, st: Style): (r: Result<Option<Reticle>, PyError>)
    ensures r == Ok(None) <==> Overlay(row).JObject? && (Coord(row, "cx").JNull? || Coord(row, "cy").JNull?)
    ensures r.Err? <==> (!Overlay(row).JObject? ||
      (!Coord(row, "cx").JNull? && !Coord(row, "cy").JNull? &&
       (PixelValue(Coord(row, "cx")).None? || PixelValue(Coord(row, "cy")).None?)))
    ensures r.Ok? && r.value.Some? ==>
      && PixelValue(Coord(row, "cx")).Some? && PixelValue(Coord(row, "cy")).Some?
      && r.value.value == ReticleGeometry(PixelValue(Coord(row, "cx")).value, PixelValue(Coord(row, "cy")).value, w, h, st)
  {
    match Overlay(row)
    case JObject(ov) =>
      var cx := Get(ov, "cx", JNull);
      var cy := Get(ov, "cy", JNull);
      if cx.JNull? || cy.JNull? then Ok(None)
      else if PixelValue(cx).None? || PixelValue(cy).None? then Err(TypeError)
      else Ok(Some(ReticleGeometry(PixelValue(cx).value, PixelValue(cy).value, w, h, st)))
    case _ => Err(AttributeError)
  }

  /** A tick row with `"overlay": {"cx": [5], "cy": 3}` is drawn at (5, 3). */
  lemma OneElementListCoordinate(w: int, h: int, st: Style)
    ensures FrameReticle(map["overlay" := JObject(map["cx" := JList([JInt(5)]), "cy" := JInt(3)])], w, h, st)
            == Ok(Some(ReticleGeometry(5.0, 3.0, w, h, st)))
  {
  }

  // ---------- Rendering ----------

  /** What `cv2.VideoCapture` reports for the input video. */
  datatype Capture = Capture(isOpen: bool, fps: real, width: real, height: real, frames: nat)

  /** One output frame: the index of the tick row in force and its reticle. */
  datatype FramePlan = FramePlan(tick: nat, reticle: Option<Reticle>)

  datatype RenderPlan = RenderPlan(output: string, fps: real, frames: seq<FramePlan>)

  /** `cap.get(CAP_PROP_FPS) or 30.0`. */
  function EffectiveFps(fps: real): (r: real)
    ensures r != 0.0
    ensures fps != 0.0 ==> r == fps
  {
    if fps == 0.0 then 30.0 else fps
  }

  /** Reference: the tick in force at time `t` is the last one whose `t_rel`
      has been reached, or the first when none has. */
  predicate IsTickAt(ticks: seq<Obj>, t: real, i: int) {
    && 0 <= i < |ticks|
    && (i == 0 || KeyOf(ticks[i]) <= t)
    && forall k :: i < k < |ticks| ==> t < KeyOf(ticks[k])
  }

  /** The tick in force is unique. */
  lemma TickAtIsUnique(ticks: seq<Obj>, t: real, i: int, j: int)
    requires IsTickAt(ticks, t, i) && IsTickAt(ticks, t, j)
    ensures i == j
  {
  }

  /** Frame `f` shows tick row `f.tick` with the reticle that row asks for. */
  predicate DrawsTick(ticks: seq<Obj>, w: int, h: int, style: Style, f: FramePlan) {
    f.tick < |ticks| && FrameReticle(ticks[f.tick], w, h, style) == Ok(f.reticle)
  }

  /** Frame number `k` carries the tick in force at its timestamp k/fps. */
  predicate OnTime(ticks: seq<Obj>, fps: real, k: nat, f: FramePlan)
    requires fps > 0.0
  {
    IsTickAt(ticks, k as real / fps, f.tick)
  }

  /** Reference: frame `f` can be drawn, that is the tick in force at its
      time asks for a reticle without raising. */
  predicate FrameOk(ticks: seq<Obj>, fps: real, f: nat, w: int, h: int, style: Style)
    requires fps > 0.0
  {
    forall k :: 0 <= k < |ticks| && IsTickAt(ticks, f as real / fps, k) ==> FrameReticle(ticks[k], w, h, style).Ok?
  }

  /** The tick in force at frame `f`'s time raises `e`. */
  predicate InForceFails(ticks: seq<Obj>, fps: real, f: nat, w: int, h: int, style: Style, e: PyError)
    requires fps > 0.0
  {
    exists k :: 0 <= k < |ticks| && IsTickAt(ticks, f as real / fps, k) && FrameReticle(ticks[k], w, h, style) == Err(e)
  }

  /** Whether a frame can be drawn is decided by the one tick in force. */
  lemma InForceDecidesFrame(ticks: seq<Obj>, fps: real, f: nat, i: int, w: int, h: int, style: Style)
    requires fps > 0.0 && IsTickAt(ticks, f as real / fps, i)
    ensures FrameOk(ticks, fps, f, w, h, style) <==> FrameReticle(ticks[i], w, h, style).Ok?
    ensures FrameReticle(ticks[i], w, h, style).Err? ==>
              InForceFails(ticks, fps, f, w, h, style, FrameReticle(ticks[i], w, h, style).error)
  {
    var t := f as real / fps;
    forall k | IsTickAt(ticks, t, k)
      ensures k == i
    {
      TickAtIsUnique(ticks, t, i, k);
    }
  }

  /** The frames planned so far: each draws its tick, the tick index never
      moves backwards and has reached `i`, and with a positive frame rate each
      frame is on time and can be drawn. */
  predicate Planned(ticks: seq<Obj>, fps: real, w: int, h: int, style: Style, frames: seq<FramePlan>, i: int) {
    && (forall k :: 0 <= k < |frames| ==> frames[k].tick <= i)
    && (forall k, l :: 0 <= k < l < |frames| ==> frames[k].tick <= frames[l].tick)
    && (forall k :: 0 <= k < |frames| ==> DrawsTick(ticks, w, h, style, frames[k]))
    && (fps > 0.0 ==> forall k :: 0 <= k < |frames| ==>
          OnTime(ticks, fps, k, frames[k]) && FrameOk(ticks, fps, k, w, h, style))
  }

  /** Planning one more frame, for a tick at or after every earlier one. */
  lemma PlannedAppend(ticks: seq<Obj>, fps: real, w: int, h: int, style: Style,
                      frames: seq<FramePlan>, i: int, f: FramePlan)
    requires Planned(ticks, fps, w, h, style, frames, i) && i <= f.tick
    requires DrawsTick(ticks, w, h, style, f)
    requires fps > 0.0 ==> OnTime(ticks, fps, |frames|, f) && FrameOk(ticks, fps, |frames|, w, h, style)
    ensures Planned(ticks, fps, w, h, style, frames + [f], f.tick)
  {
    var fs := frames + [f];
    assert fs[|frames|] == f;
    assert forall k :: 0 <= k < |frames| ==> fs[k] == frames[k];
  }

  /** The frame loop of `render`: for frame `k` at time k/fps the tick index
      moves forward past every tick whose `t_rel` has been reached, then the
      reticle of the tick in force is drawn. The index never moves backwards;
      with a positive frame rate it is the tick in force at each frame's time. */
  method WalkTicks(ticks: seq<Obj>, fps: real, frameCount: nat, w: int, h: int, style: Style)
    returns (r: Result<seq<FramePlan>, PyError>)
    requires |ticks| > 0 && Sorted(ticks) && fps != 0.0
    ensures r.Ok? ==> |r.value| == frameCount
    ensures r.Ok? ==> forall k :: 0 <= k < |r.value| ==> DrawsTick(ticks, w, h, style, r.value[k])
    ensures r.Ok? ==> forall k, l :: 0 <= k < l < |r.value| ==> r.value[k].tick <= r.value[l].tick
    ensures r.Ok? && fps > 0.0 ==> forall k :: 0 <= k < |r.value| ==> OnTime(ticks, fps, k, r.value[k])
    ensures r.Err? ==> exists k :: 0 <= k < |ticks| && FrameReticle(ticks[k], w, h, style) == Err(r.error)
    ensures (forall k :: 0 <= k < |ticks| ==> FrameReticle(ticks[k], w, h, style).Ok?) ==> r.Ok?
    ensures fps > 0.0 ==> (r.Ok? <==> forall f :: 0 <= f < frameCount ==> FrameOk(ticks, fps, f, w, h, style))
    ensures fps > 0.0 && r.Err? ==>
      exists f :: 0 <= f < frameCount && InForceFails(ticks, fps, f, w, h, style, r.error)
  {
    var i := 0;
    var frames: seq<FramePlan> := [];
    var frameIdx := 0;
    while frameIdx < frameCount
      invariant 0 <= frameIdx <= frameCount && |frames| == frameIdx
      invariant 0 <= i < |ticks| && (frameIdx == 0 ==> i == 0)
      invariant Planned(ticks, fps, w, h, style, frames, i)
      invariant fps > 0.0 && frameIdx > 0 ==> IsTickAt(ticks, (frameIdx - 1) as real / fps, i)
    {
      var t := frameIdx as real / fps;
      ghost var i0 := i;
      i := Advance(ticks, i, t);
      if fps > 0.0 {
        if frameIdx > 0 {
          AdvanceFromEarlier(ticks, fps, frameIdx, i0);
        }
        AdvanceFindsTickAt(ticks, i0, i, t);
        InForceDecidesFrame(ticks, fps, frameIdx, i, w, h, style);
      }
      var reticle := FrameReticle(ticks[i], w, h, style);
      if reticle.Err? {
        assert fps > 0.0 ==> !FrameOk(ticks, fps, frameIdx, w, h, style);
        return Err(reticle.error);
      }
      var f := FramePlan(i, reticle.value);
      PlannedAppend(ticks, fps, w, h, style, frames, i0, f);
      frames := frames + [f];
      frameIdx := frameIdx + 1;
    }
    r := Ok(frames);
  }

  /** The inner loop of `render`: step past every following tick whose `t_rel`
      has been reached. */
  method Advance(ticks: seq<Obj>, i: int, t: real) returns (j: int)
    requires 0 <= i < |ticks|
    ensures i <= j < |ticks|
    ensures j + 1 == |ticks| || t < KeyOf(ticks[j + 1])
    ensures forall k :: i < k <= j ==> KeyOf(ticks[k]) <= t
  {
    j := i;
    while j + 1 < |ticks| && t >= KeyOf(ticks[j + 1])
      invariant i <= j < |ticks|
      invariant forall k :: i < k <= j ==> KeyOf(ticks[k]) <= t
      decreases |ticks| - j
    {
      j := j + 1;
    }
  }

  /** Starting from a tick already reached, the advance stops at the tick in
      force. */
  lemma AdvanceFindsTickAt(ticks: seq<Obj>, i: int, j: int, t: real)
    requires Sorted(ticks) && 0 <= i <= j < |ticks|
    requires i == 0 || KeyOf(ticks[i]) <= t
    requires j + 1 == |ticks| || t < KeyOf(ticks[j + 1])
    requires forall k :: i < k <= j ==> KeyOf(ticks[k]) <= t
    ensures IsTickAt(ticks, t, j)
  {
    forall k | j < k < |ticks|
      ensures t < KeyOf(ticks[k])
    {
      assert KeyOf(ticks[j + 1]) <= KeyOf(ticks[k]);
    }
  }

  /** Frame times grow with a positive frame rate. */
  lemma AdvanceFromEarlier(ticks: seq<Obj>, fps: real, frameIdx: nat, i: int)
    requires fps > 0.0 && frameIdx > 0 && IsTickAt(ticks, (frameIdx - 1) as real / fps, i)
    ensures i == 0 || KeyOf(ticks[i]) <= frameIdx as real / fps
  {
    assert (frameIdx - 1) as real / fps <= frameIdx as real / fps by {
      assert frameIdx as real / fps - (frameIdx - 1) as real / fps == 1.0 / fps;
    }
  }

  /** The style reader `render` uses: `_style_from_header` as written, or the
      corrected reader that takes a `null` field as its default. */
  function ReadStyle(header: Obj, nullSafe: bool): Result<Style, PyError> {
    if nullSafe then StyleFromHeader(header) else StyleFromHeaderAsWritten(header)
  }

  /** Every check `render` makes before opening the writer has passed: the
      paths exist, the sidecar reads and its ticks can be ordered, there is a
      tick, the style reads and the capture is open. */
  predicate ReadyToWrite(path: string, files: set<string>, sidecar: seq<Line>, cap: Capture, nullSafe: bool) {
    && StemPaths(path, files).Ok?
    && (forall j :: 0 <= j < |sidecar| ==> Readable(sidecar[j]))
    && Orderable(TickRows(sidecar)) && |TickRows(sidecar)| > 0
    && ReadStyle(LastHeader(sidecar), nullSafe).Ok?
    && cap.isOpen
  }

  /** `render`: the order of its checks is paths, sidecar, "no ticks", style,
      capture, writer. A style that raises stops the rendering with that
      error. Every frame of the capture is written once; the tick index never
      moves backwards; with a positive frame rate each frame gets the tick in
      force at its timestamp, and its reticle is the one that row asks for.
      `nullSafe = false` is the code as written; `true` renders with the
      corrected style reader. */
  method Render(path: string, output: Option<string>, files: set<string>, sidecar: seq<Line>,
                cap: Capture, writerOpens: bool, nullSafe: bool)
    returns (r: Result<RenderPlan, RenderError>)
    ensures StemPaths(path, files).Err? ==> r == Err(StemPaths(path, files).error)
    ensures r.Ok? ==>
      && StemPaths(path, files).Ok?
      && (forall j :: 0 <= j < |sidecar| ==> Readable(sidecar[j]))
      && |TickRows(sidecar)| > 0
      && cap.isOpen && writerOpens
      && ReadStyle(LastHeader(sidecar), nullSafe).Ok?
    ensures r.Ok? ==>
      var ticks := SortRows(TickRows(sidecar));
      var plan := r.value;
      && plan.output == output.GetOr(StemPaths(path, files).value.output)
      && plan.fps == EffectiveFps(cap.fps)
      && |plan.frames| == cap.frames
      && (forall k :: 0 <= k < |plan.frames| ==>
            DrawsTick(ticks, TruncReal(cap.width), TruncReal(cap.height),
                      ReadStyle(LastHeader(sidecar), nullSafe).value, plan.frames[k]))
      && (forall k, l :: 0 <= k < l < |plan.frames| ==> plan.frames[k].tick <= plan.frames[l].tick)
      && (plan.fps > 0.0 ==> forall k :: 0 <= k < |plan.frames| ==> OnTime(ticks, plan.fps, k, plan.frames[k]))
    ensures StemPaths(path, files).Ok? ==>
      && (!(forall j :: 0 <= j < |sidecar| ==> Readable(sidecar[j])) ==>
            && r.Err? && (r.error.MalformedLine? || r.error.NotAnObject?)
            && r.error.line < |sidecar| && !Readable(sidecar[r.error.line])
            && (r.error.MalformedLine? <==> sidecar[r.error.line].Malformed?)
            && forall k :: 0 <= k < r.error.line ==> Readable(sidecar[k]))
      && ((forall j :: 0 <= j < |sidecar| ==> Readable(sidecar[j])) && !Orderable(TickRows(sidecar)) ==>
            r == Err(UnorderableTicks))
    ensures StemPaths(path, files).Ok? && (forall j :: 0 <= j < |sidecar| ==> Readable(sidecar[j])) &&
            Orderable(TickRows(sidecar)) ==>
      && (|TickRows(sidecar)| == 0 ==> r == Err(NoTicks))
      && (|TickRows(sidecar)| > 0 && ReadStyle(LastHeader(sidecar), nullSafe).Err? ==>
            r == Err(BadStyle(ReadStyle(LastHeader(sidecar), nullSafe).error)))
      && (|TickRows(sidecar)| > 0 && ReadStyle(LastHeader(sidecar), nullSafe).Ok? && !cap.isOpen ==>
            r == Err(CaptureFailed(StemPaths(path, files).value.video)))
      && (ReadyToWrite(path, files, sidecar, cap, nullSafe) ==>
            (r == Err(WriterFailed(output.GetOr(StemPaths(path, files).value.output))) <==> !writerOpens))
    ensures ReadyToWrite(path, files, sidecar, cap, nullSafe) && writerOpens ==>
      var ticks := SortRows(TickRows(sidecar));
      var style := ReadStyle(LastHeader(sidecar), nullSafe).value;
      && ((forall k :: 0 <= k < |ticks| ==> FrameReticle(ticks[k], TruncReal(cap.width), TruncReal(cap.height), style).Ok?)
            ==> r.Ok?)
      && (EffectiveFps(cap.fps) > 0.0 ==>
            (r.Ok? <==> forall f :: 0 <= f < cap.frames ==>
               FrameOk(ticks, EffectiveFps(cap.fps), f, TruncReal(cap.width), TruncReal(cap.height), style)))
    ensures r.Err? && r.error.BadOverlay? ==>
      && ReadyToWrite(path, files, sidecar, cap, nullSafe) && writerOpens
      && var ticks := SortRows(TickRows(sidecar));
         exists k :: 0 <= k < |ticks| &&
           FrameReticle(ticks[k], TruncReal(cap.width), TruncReal(cap.height),
                        ReadStyle(LastHeader(sidecar), nullSafe).value) == Err(r.error.cause)
  {
    var stems :- StemPaths(path, files);
    var out := output.GetOr(stems.output);
    var loaded :- LoadHeaderAndTicks(sidecar);
    var (header, ticks) := loaded;
    if |ticks| == 0 {
      return Err(NoTicks);
    }
    var styleResult := ReadStyle(header, nullSafe);
    if styleResult.Err? {
      return Err(BadStyle(styleResult.error));
    }
    if !cap.isOpen {
      return Err(CaptureFailed(stems.video));
    }
    var fps := EffectiveFps(cap.fps);
    if !writerOpens {
      return Err(WriterFailed(out));
    }
    var walked := WalkTicks(ticks, fps, cap.frames, TruncReal(cap.width), TruncReal(cap.height), styleResult.value);
    if walked.Err? {
      return Err(BadOverlay(walked.error));
    }
    r := Ok(RenderPlan(out, fps, walked.value));
  }
}
