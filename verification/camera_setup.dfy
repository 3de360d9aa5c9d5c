/** The zoom/ROI engine of `CameraSetup`: orientation maps between
    display-normalised and sensor-normalised coordinates, and the
    aspect-correct crop box centred on the reticle that realises a zoom step.
    Float arithmetic is modelled over `real`. */
module CameraSetup {
  import opened Base

  datatype Point = Point(x: real, y: real)

  /** A crop box in sensor-normalised coordinates, PiCamera's `zoom` tuple. */
  datatype Roi = Roi(x: real, y: real, w: real, h: real)

  /** Width and height of a box, as fractions of the sensor. */
  datatype Size = Size(w: real, h: real)

  datatype Orientation = Orientation(rotation: int, hflip: bool, vflip: bool)

  /** The camera state the engine reads and writes. */
  datatype Camera = Camera(orientation: Orientation, displayAspect: Option<real>, zoom: Roi)

  const FullFrame: Roi := Roi(0.0, 0.0, 1.0, 1.0)

  /** Zoom levels at or below this are treated as the un-zoomed base view. */
  const BaseZoomLimit: real := 1.0001

  const DefaultMaxStep: real := 8.0

  predicate InUnit(p: Point) {
    0.0 <= p.x <= 1.0 && 0.0 <= p.y <= 1.0
  }

  /** The box lies inside the sensor's unit square and has no negative side. */
  predicate InsideSensor(r: Roi) {
    0.0 <= r.w && 0.0 <= r.h && 0.0 <= r.x && 0.0 <= r.y && r.x + r.w <= 1.0 && r.y + r.h <= 1.0
  }

  /** `__init__` with the given orientation; the PiCamera starts un-zoomed. */
  function Init(rotation: int, hflip: bool, vflip: bool): (c: Camera)
    ensures c.orientation == Orientation(rotation, hflip, vflip)
    ensures c.displayAspect.None?
    ensures c.zoom == FullFrame
  {
    Camera(Orientation(rotation, hflip, vflip), None, FullFrame)
  }

  /** `_clamp01`. */
  function Clamp01(v: real): (r: real)
    ensures 0.0 <= r <= 1.0
    ensures 0.0 <= v <= 1.0 ==> r == v
    ensures v < 0.0 ==> r == 0.0
    ensures v > 1.0 ==> r == 1.0
  {
    if v < 0.0 then 0.0 else if v > 1.0 then 1.0 else v
  }

  function ClampPoint(p: Point): (q: Point)
    ensures InUnit(q)
    ensures InUnit(p) ==> q == p
  {
    Point(Clamp01(p.x), Clamp01(p.y))
  }

  /** `(int(rotation) // 90) % 4`: quarter turns, Python floor semantics. */
  function RotationIndex(rotation: int): (r: int)
    ensures 0 <= r < 4
    ensures 0 <= rotation < 360 ==> 90 * r <= rotation < 90 * r + 90
  {
    (rotation / 90) % 4
  }

  lemma RotationIndexOfStandardAngles()
    ensures RotationIndex(0) == 0 && RotationIndex(90) == 1
    ensures RotationIndex(180) == 2 && RotationIndex(270) == 3
    ensures RotationIndex(360) == 0 && RotationIndex(-90) == 3
  {
  }

  /** The mirror step of both maps. */
  function Flip(p: Point, hflip: bool, vflip: bool): (q: Point)
    ensures InUnit(p) ==> InUnit(q)
    ensures q.x == p.x || q.x == 1.0 - p.x
    ensures q.y == p.y || q.y == 1.0 - p.y
  {
    Point(if hflip then 1.0 - p.x else p.x, if vflip then 1.0 - p.y else p.y)
  }

  /** The rotation step of `_display_to_sensor_forward`. */
  function Rotate(r: int, p: Point): (q: Point)
    ensures InUnit(p) ==> InUnit(q)
  {
    if r == 1 then Point(p.y, 1.0 - p.x)
    else if r == 2 then Point(1.0 - p.x, 1.0 - p.y)
    else if r == 3 then Point(1.0 - p.y, p.x)
    else p
  }

  /** The rotation step of `_display_to_sensor_no_letterbox`. */
  function Unrotate(r: int, p: Point): (q: Point)
    ensures InUnit(p) ==> InUnit(q)
  {
    if r == 1 then Point(1.0 - p.y, p.x)
    else if r == 2 then Point(1.0 - p.x, 1.0 - p.y)
    else if r == 3 then Point(p.y, 1.0 - p.x)
    else p
  }

  /** `_display_to_sensor_forward`: flips, then rotation, then clamp. */
  function DisplayToSensorForward(o: Orientation, p: Point): (q: Point)
    ensures InUnit(q)
    ensures InUnit(p) ==> q == Rotate(RotationIndex(o.rotation), Flip(p, o.hflip, o.vflip))
  {
    ClampPoint(Rotate(RotationIndex(o.rotation), Flip(p, o.hflip, o.vflip)))
  }

  /** `_display_to_sensor_no_letterbox`: un-flip, then un-rotate, then clamp. */
  function DisplayToSensorNoLetterbox(o: Orientation, p: Point): (q: Point)
    ensures InUnit(q)
    ensures InUnit(p) ==> q == Unrotate(RotationIndex(o.rotation), Flip(p, o.hflip, o.vflip))
  {
    ClampPoint(Unrotate(RotationIndex(o.rotation), Flip(p, o.hflip, o.vflip)))
  }

  /** The camera pipeline the no-letterbox comment describes: rotate, then flip. */
  function RotateThenFlip(o: Orientation, p: Point): Point {
    Flip(Rotate(RotationIndex(o.rotation), p), o.hflip, o.vflip)
  }

  /** The pipeline the forward map undoes: un-rotate, then flip. */
  function UnrotateThenFlip(o: Orientation, p: Point): Point {
    Flip(Unrotate(RotationIndex(o.rotation), p), o.hflip, o.vflip)
  }

  lemma FlipIsInvolution(p: Point, hflip: bool, vflip: bool)
    ensures Flip(Flip(p, hflip, vflip), hflip, vflip) == p
  {
  }

  /** For every quarter-turn count the two rotation steps undo each other. */
  lemma RotationStepsAreInverse(r: int, p: Point)
    requires 0 <= r < 4
    ensures Unrotate(r, Rotate(r, p)) == p
    ensures Rotate(r, Unrotate(r, p)) == p
  {
  }

  /** The no-letterbox map exactly inverts "rotate, then flip" on the unit square,
      in both directions. */
  lemma NoLetterboxInvertsRotateThenFlip(o: Orientation, p: Point)
    requires InUnit(p)
    ensures DisplayToSensorNoLetterbox(o, RotateThenFlip(o, p)) == p
    ensures RotateThenFlip(o, DisplayToSensorNoLetterbox(o, p)) == p
  {
    var r := RotationIndex(o.rotation);
    var q := Rotate(r, p);
    FlipIsInvolution(q, o.hflip, o.vflip);
    RotationStepsAreInverse(r, p);
    var u := Unrotate(r, Flip(p, o.hflip, o.vflip));
    RotationStepsAreInverse(r, Flip(p, o.hflip, o.vflip));
    FlipIsInvolution(p, o.hflip, o.vflip);
  }

  /** The forward map exactly inverts "un-rotate, then flip" on the unit square,
      in both directions. */
  lemma ForwardInvertsUnrotateThenFlip(o: Orientation, p: Point)
    requires InUnit(p)
    ensures DisplayToSensorForward(o, UnrotateThenFlip(o, p)) == p
    ensures UnrotateThenFlip(o, DisplayToSensorForward(o, p)) == p
  {
    var r := RotationIndex(o.rotation);
    FlipIsInvolution(Unrotate(r, p), o.hflip, o.vflip);
    RotationStepsAreInverse(r, p);
    RotationStepsAreInverse(r, Flip(p, o.hflip, o.vflip));
    FlipIsInvolution(p, o.hflip, o.vflip);
  }

  /** Flips commute with the rotation step exactly when the turn is even or both
      axes are mirrored together. */
  predicate FlipsCommute(o: Orientation) {
    RotationIndex(o.rotation) % 2 == 0 || o.hflip == o.vflip
  }

  lemma ForwardThenNoLetterboxAt(o: Orientation, p: Point)
    requires InUnit(p)
    requires FlipsCommute(o)
    ensures DisplayToSensorNoLetterbox(o, DisplayToSensorForward(o, p)) == p
    ensures DisplayToSensorForward(o, DisplayToSensorNoLetterbox(o, p)) == p
  {
  }

  /** The no-letterbox map undoes the forward map on the whole unit square. */
  ghost predicate NoLetterboxUndoesForward(o: Orientation) {
    forall p :: InUnit(p) ==> DisplayToSensorNoLetterbox(o, DisplayToSensorForward(o, p)) == p
  }

  /** The forward map undoes the no-letterbox map on the whole unit square. */
  ghost predicate ForwardUndoesNoLetterbox(o: Orientation) {
    forall p :: InUnit(p) ==> DisplayToSensorForward(o, DisplayToSensorNoLetterbox(o, p)) == p
  }

  /** The two display-to-sensor maps are mutual inverses on the unit square if and
      only if the flips commute with the rotation; otherwise the corner (0,0)
      lands on (1,1). With no flips at all they are always inverses. */
  lemma MapsAreInverseIff(o: Orientation)
    ensures NoLetterboxUndoesForward(o) <==> FlipsCommute(o)
    ensures FlipsCommute(o) ==> ForwardUndoesNoLetterbox(o)
    ensures !o.hflip && !o.vflip ==> NoLetterboxUndoesForward(o) && ForwardUndoesNoLetterbox(o)
  {
    if FlipsCommute(o) {
      MapsAreInverse(o);
    } else {
      CornerIsNotRestored(o);
      assert !NoLetterboxUndoesForward(o);
    }
  }

  lemma MapsAreInverse(o: Orientation)
    requires FlipsCommute(o)
    ensures NoLetterboxUndoesForward(o) && ForwardUndoesNoLetterbox(o)
  {
    forall p | InUnit(p)
      ensures DisplayToSensorNoLetterbox(o, DisplayToSensorForward(o, p)) == p
      ensures DisplayToSensorForward(o, DisplayToSensorNoLetterbox(o, p)) == p
    {
      ForwardThenNoLetterboxAt(o, p);
    }
  }

  /** With an odd turn and a single flip, the round trip sends (0,0) to (1,1). */
  lemma CornerIsNotRestored(o: Orientation)
    requires !FlipsCommute(o)
    ensures InUnit(Point(0.0, 0.0))
    ensures DisplayToSensorNoLetterbox(o, DisplayToSensorForward(o, Point(0.0, 0.0))) == Point(1.0, 1.0)
  {
    var r := RotationIndex(o.rotation);
    var f := Flip(Point(0.0, 0.0), o.hflip, o.vflip);
    assert f == Point(1.0, 0.0) || f == Point(0.0, 1.0);
    var q := Rotate(r, f);
    assert DisplayToSensorForward(o, Point(0.0, 0.0)) == q;
    assert q == Point(0.0, 0.0) || q == Point(1.0, 1.0);
    assert DisplayToSensorNoLetterbox(o, q) == Unrotate(r, Flip(q, o.hflip, o.vflip));
  }

  // ---------- Real-arithmetic steps ----------

  lemma MulMonotone(a: real, b: real, k: real)
    requires k >= 0.0 && a <= b
    ensures a * k <= b * k
  {
    assert b * k - a * k == (b - a) * k;
  }

  lemma DivBelowOne(a: real, b: real)
    requires 0.0 <= a < b
    ensures 0.0 <= a / b < 1.0
  {
    assert (a / b) * b == a;
  }

  // ---------- ROI computation ----------

  /** The box has the 16:9 shape of the recorded video. */
  predicate Is16By9(w: real, h: real) {
    9.0 * w == 16.0 * h
  }

  /** Distance from a clamped coordinate to the nearer edge of the unit interval. */
  function Margin(c: real): real {
    MinReal(c, 1.0 - c)
  }

  /** Reference: the requested 16:9 box for zoom `z`, in closed form. It is 1/z
      tall unless that would make it wider than the sensor (z below 16/9), in
      which case it is full width. */
  function NominalSize(z: real): (b: Size)
    requires z >= 1.0
    ensures Is16By9(b.w, b.h)
    ensures 0.0 < b.w <= 1.0 && 0.0 < b.h <= 1.0 / z
  {
    if 16.0 <= 9.0 * z then
      assert 16.0 / (9.0 * z) == (16.0 / 9.0) * (1.0 / z);
      DivBelowOneOrEqual(16.0, 9.0 * z);
      Size(16.0 / (9.0 * z), 1.0 / z)
    else
      assert 0.5625 * z < 1.0;
      assert 0.5625 <= 1.0 / z by {
        assert (1.0 / z) * z == 1.0;
        MulMonotone(0.5625, 1.0 / z, z);
      }
      Size(1.0, 0.5625)
  }

  lemma DivBelowOneOrEqual(a: real, b: real)
    requires 0.0 < a <= b
    ensures 0.0 < a / b <= 1.0
  {
    assert (a / b) * b == a;
  }

  /** Reference: the width of the widest 16:9 box centred on (cx, cy) that stays
      inside the unit square. */
  function WidestCentredWidth(cx: real, cy: real): real {
    MinReal(2.0 * Margin(cx), 2.0 * Margin(cy) * 16.0 / 9.0)
  }

  /** Reference: the width the ROI computation settles on, the narrower of the
      nominal box and the widest centred box. */
  function FittedWidth(cx: real, cy: real, z: real): real
    requires z >= 1.0
  {
    MinReal(NominalSize(z).w, WidestCentredWidth(cx, cy))
  }

  /** Reference: the 16:9 size the ROI computation settles on. */
  function FittedSize(cx: real, cy: real, z: real): Size
    requires z >= 1.0
  {
    Size(FittedWidth(cx, cy, z), FittedWidth(cx, cy, z) * 9.0 / 16.0)
  }

  /** Reference: the box of size `s` whose centre is exactly (cx, cy). */
  function CentredRoi(cx: real, cy: real, s: Size): (r: Roi)
    ensures r.w == s.w && r.h == s.h
    ensures r.x + r.w / 2.0 == cx && r.y + r.h / 2.0 == cy
  {
    Roi(cx - s.w / 2.0, cy - s.h / 2.0, s.w, s.h)
  }

  /** Half-sides of a box centred on (cx, cy) that fit inside the unit square. */
  predicate CentredBoxFits(cx: real, cy: real, w: real, h: real) {
    0.0 <= w && 0.0 <= h && w / 2.0 <= cx && cx + w / 2.0 <= 1.0 && h / 2.0 <= cy && cy + h / 2.0 <= 1.0
  }

  /** The fitted size is 16:9, fits centred on the anchor, and is no larger than
      the nominal box (so no taller than 1/z and no wider than 1). */
  lemma FittedSizeFits(cx: real, cy: real, z: real)
    requires 0.0 <= cx <= 1.0 && 0.0 <= cy <= 1.0 && z >= 1.0
    ensures var f := FittedSize(cx, cy, z);
            && Is16By9(f.w, f.h)
            && CentredBoxFits(cx, cy, f.w, f.h)
            && InsideSensor(CentredRoi(cx, cy, f))
            && f.w <= NominalSize(z).w && f.h <= NominalSize(z).h
            && f.h <= 1.0 / z && f.w <= 1.0
  {
  }

  /** `_roi_exact_center_display_aspect`, lines 142-147, at aspect 16/9: the box
      1/Z tall, scaled by 1/w when it is wider than the sensor. */
  method NominalBox(z: real) returns (b: Size)
    requires z >= 1.0
    ensures b == NominalSize(z)
  {
    var ar := 16.0 / 9.0;
    var h := 1.0 / z;
    var w := h * ar;
    assert w == 16.0 / (9.0 * z);
    if w > 1.0 {
      var s := 1.0 / w;
      assert w * s == 1.0;
      assert h * s == 0.5625 by {
        assert s == 9.0 * z / 16.0;
        assert h * z == 1.0;
      }
      w, h := w * s, h * s;
    }
    b := Size(w, h);
  }

  /** `_roi_exact_center_display_aspect`, lines 150-156, at aspect 16/9: the
      largest box centred on (cx, cy) that fits, limited by whichever axis is
      tighter. */
  method MaxCenteredBox(cx: real, cy: real) returns (b: Size)
    ensures b.w == WidestCentredWidth(cx, cy)
    ensures Is16By9(b.w, b.h)
  {
    var ar := 16.0 / 9.0;
    var maxWAll := 2.0 * MinReal(cx, 1.0 - cx);
    var maxHAll := 2.0 * MinReal(cy, 1.0 - cy);
    var maxWFromH := maxHAll * ar;
    if maxWAll > maxWFromH {
      b := Size(maxWFromH, maxHAll);
    } else {
      b := Size(maxWAll, maxWAll / ar);
    }
  }

  /** Lines 158-160: a box that exceeds the limit in either axis is scaled down
      uniformly, by the tighter of the two ratios, until it fits in both. */
  function ShrinkToFit(w: real, h: real, maxW: real, maxH: real): (b: Size)
    requires w > 0.0 && h > 0.0 && maxW >= 0.0 && maxH >= 0.0
    ensures 0.0 <= b.w <= w && 0.0 <= b.h <= h
    ensures w <= maxW && h <= maxH ==> b == Size(w, h)
    ensures w > maxW || h > maxH ==> b.w <= maxW && b.h <= maxH
    ensures w > maxW || h > maxH ==> b.w == maxW || b.h == maxH
    ensures b.w * h == b.h * w
  {
    if w > maxW || h > maxH then
      var s := ShrinkFactor(w, h, maxW, maxH);
      ShrinkFactorFits(w, h, maxW, maxH, s);
      ScalingKeepsAspect(w, h, s);
      assert s == maxW / w || s == maxH / h;
      assert (maxW / w) * w == maxW && (maxH / h) * h == maxH;
      Size(w * s, h * s)
    else
      Size(w, h)
  }

  /** Scaling both sides by one factor keeps their ratio. */
  lemma ScalingKeepsAspect(w: real, h: real, s: real)
    ensures (w * s) * h == (h * s) * w
  {
  }

  /** The uniform scale factor `min(maxW / w, maxH / h)`. */
  function ShrinkFactor(w: real, h: real, maxW: real, maxH: real): real
    requires w > 0.0 && h > 0.0
  {
    MinReal(maxW / w, maxH / h)
  }

  lemma ShrinkFactorFits(w: real, h: real, maxW: real, maxH: real, s: real)
    requires w > 0.0 && h > 0.0 && maxW >= 0.0 && maxH >= 0.0
    requires w > maxW || h > maxH
    requires s == ShrinkFactor(w, h, maxW, maxH)
    ensures 0.0 <= s < 1.0
    ensures 0.0 <= w * s <= maxW && w * s <= w
    ensures 0.0 <= h * s <= maxH && h * s <= h
  {
    assert maxW / w >= 0.0 && maxH / h >= 0.0;
    if w > maxW {
      DivBelowOne(maxW, w);
    } else {
      DivBelowOne(maxH, h);
    }
    assert s <= maxW / w && s <= maxH / h;
    MulMonotone(s, maxW / w, w);
    assert (maxW / w) * w == maxW;
    MulMonotone(s, maxH / h, h);
    assert (maxH / h) * h == maxH;
    MulMonotone(0.0, s, w);
    MulMonotone(0.0, s, h);
    MulMonotone(s, 1.0, w);
    MulMonotone(s, 1.0, h);
  }

  /** Two 16:9 boxes: shrinking the first to fit the second gives the smaller of
      the two in both axes. */
  lemma ShrinkAlignedBoxes(n: Size, m: Size)
    requires n.w > 0.0 && n.h > 0.0 && m.w >= 0.0 && m.h >= 0.0
    requires Is16By9(n.w, n.h) && Is16By9(m.w, m.h)
    ensures ShrinkToFit(n.w, n.h, m.w, m.h) == Size(MinReal(n.w, m.w), MinReal(n.h, m.h))
  {
    if n.w > m.w {
      var q := m.h / n.h;
      assert q * n.h == m.h;
      assert q * n.w == m.w by {
        assert 9.0 * (q * n.w) == 16.0 * (q * n.h);
      }
      assert m.w / n.w == q;
      assert ShrinkToFit(n.w, n.h, m.w, m.h) == Size(n.w * q, n.h * q);
    }
  }

  /** Lines 162-167: centre the box on (cx, cy), then apply the four edge
      corrections. A box that already fits centred is never moved by them. */
  function PlaceBox(cx: real, cy: real, w: real, h: real): (r: Roi)
    ensures r.w == w && r.h == h
    ensures CentredBoxFits(cx, cy, w, h) ==> r == CentredRoi(cx, cy, Size(w, h))
  {
    var x0 := cx - w / 2.0;
    var y0 := cy - h / 2.0;
    var x1 := if x0 < 0.0 then 0.0 else x0;
    var y1 := if y0 < 0.0 then 0.0 else y0;
    var x2 := if x1 + w > 1.0 then 1.0 - w else x1;
    var y2 := if y1 + h > 1.0 then 1.0 - h else y1;
    Roi(x2, y2, w, h)
  }

  /** `_roi_exact_center_display_aspect` with the 16:9 aspect its only caller
      passes: the result is exactly the fitted box centred on the clamped anchor.
      It lies in the sensor, is 16:9, and is no taller than 1/zoom; the edge
      corrections never move it. */
  method RoiExactCenter(centerX: real, centerY: real, zoom: real) returns (roi: Roi)
    ensures roi == CentredRoi(Clamp01(centerX), Clamp01(centerY),
                              FittedSize(Clamp01(centerX), Clamp01(centerY), MaxReal(1.0, zoom)))
    ensures InsideSensor(roi)
    ensures roi.x + roi.w / 2.0 == Clamp01(centerX) && roi.y + roi.h / 2.0 == Clamp01(centerY)
    ensures Is16By9(roi.w, roi.h)
    ensures roi.h <= 1.0 / MaxReal(1.0, zoom) && roi.w <= 1.0
  {
    var cx := MaxReal(0.0, MinReal(1.0, centerX));
    var cy := MaxReal(0.0, MinReal(1.0, centerY));
    assert cx == Clamp01(centerX) && cy == Clamp01(centerY);
    var z := MaxReal(1.0, zoom);
    var n := NominalBox(z);
    var m := MaxCenteredBox(cx, cy);
    ShrinkAlignedBoxes(n, m);
    var f := ShrinkToFit(n.w, n.h, m.w, m.h);
    assert f == FittedSize(cx, cy, z);
    FittedSizeFits(cx, cy, z);
    roi := PlaceBox(cx, cy, f.w, f.h);
  }

  /** The nominal box is kept whenever the anchor's margin to every edge is at
      least half of it: the box is then exactly centred at full size. */
  lemma RoiKeepsNominalWithMargin(cx: real, cy: real, z: real)
    requires z >= 1.0
    requires NominalSize(z).w / 2.0 <= Margin(cx)
    requires NominalSize(z).h / 2.0 <= Margin(cy)
    ensures FittedSize(cx, cy, z) == NominalSize(z)
  {
  }

  /** The box shrinks but never slides: every 16:9 box that is centred on the
      anchor, fits inside the sensor and is no wider than the nominal box is at
      most as wide as the fitted one. */
  lemma RoiIsWidestCentredBox(cx: real, cy: real, z: real, w: real, h: real)
    requires z >= 1.0
    requires Is16By9(w, h) && w <= NominalSize(z).w
    requires CentredBoxFits(cx, cy, w, h)
    ensures w <= FittedSize(cx, cy, z).w
  {
  }

  /** No minimum size is enforced: an anchor on the left or right edge yields a
      zero-area box. */
  lemma RoiAtEdgeIsEmpty(cx: real, cy: real, z: real)
    requires z >= 1.0 && 0.0 <= cy <= 1.0
    requires cx == 0.0 || cx == 1.0
    ensures FittedSize(cx, cy, z) == Size(0.0, 0.0)
  {
  }

  /** Anchor (0.02, 0.5) at zoom 8: the 2/9-wide nominal box shrinks to a 0.04-wide
      box that is still centred on the anchor. */
  lemma RoiEdgeShrinkExample()
    ensures CentredRoi(0.02, 0.5, FittedSize(0.02, 0.5, 8.0)) == Roi(0.0, 0.48875, 0.04, 0.0225)
  {
    assert NominalSize(8.0) == Size(2.0 / 9.0, 0.125);
  }

  // ---------- Public API ----------

  /** The clamped zoom level of `center_zoom_step`; an unparsable step reads as 1. */
  function ZoomLevel(step: Option<real>, maxStep: real): (z: real)
    ensures maxStep >= 1.0 ==> 1.0 <= z <= maxStep
    ensures z == 1.0 || z == maxStep || (step.Some? && z == step.value)
    ensures step.None? && maxStep >= 1.0 ==> z == 1.0
    ensures step.Some? && 1.0 <= step.value <= maxStep ==> z == step.value
  {
    var s := step.GetOr(1.0);
    if s < 1.0 then 1.0 else if s > maxStep then maxStep else s
  }

  /** The display point the zoom is anchored on: the reticle, or display centre. */
  function ReticleOrCentre(reticle: Option<Point>): Point {
    reticle.GetOr(Point(0.5, 0.5))
  }

  /** Reference: the zoom box `center_zoom_step` chooses. It depends on the
      orientation, the step and the reticle, never on the display aspect. */
  function ZoomRoi(o: Orientation, step: Option<real>, maxStep: real, reticle: Option<Point>): Roi {
    var z := ZoomLevel(step, maxStep);
    if z <= BaseZoomLimit then FullFrame
    else
      var a := DisplayToSensorForward(o, ReticleOrCentre(reticle));
      CentredRoi(a.x, a.y, FittedSize(a.x, a.y, z))
  }

  /** `center_zoom_step`: sets the camera's zoom box and nothing else. At base zoom
      the box is the full frame whatever the reticle; otherwise it is a 16:9 box
      inside the sensor, centred exactly on the reticle's sensor position, no
      taller than 1/zoom and no wider than the sensor. */
  method CenterZoomStep(cam: Camera, step: Option<real>, maxStep: real, reticle: Option<Point>)
    returns (c: Camera)
    ensures c == cam.(zoom := ZoomRoi(cam.orientation, step, maxStep, reticle))
    ensures ZoomLevel(step, maxStep) <= BaseZoomLimit ==> c.zoom == FullFrame
    ensures ZoomLevel(step, maxStep) > BaseZoomLimit ==>
      var a := DisplayToSensorForward(cam.orientation, ReticleOrCentre(reticle));
      && InsideSensor(c.zoom)
      && c.zoom.x + c.zoom.w / 2.0 == a.x
      && c.zoom.y + c.zoom.h / 2.0 == a.y
      && Is16By9(c.zoom.w, c.zoom.h)
      && c.zoom.h <= 1.0 / ZoomLevel(step, maxStep)
      && c.zoom.w <= 1.0
  {
    var z := ZoomLevel(step, maxStep);
    if z <= BaseZoomLimit {
      c := cam.(zoom := FullFrame);
      return;
    }
    var n := ReticleOrCentre(reticle);
    var a := DisplayToSensorForward(cam.orientation, n);
    var roi := RoiExactCenter(a.x, a.y, z);
    c := cam.(zoom := roi);
  }

  /** `set_display_aspect`: records width/height when both are positive and
      forgets the aspect otherwise; nothing else changes. */
  function SetDisplayAspect(cam: Camera, w: real, h: real): (c: Camera)
    ensures c.displayAspect.Some? <==> w > 0.0 && h > 0.0
    ensures c.displayAspect.Some? ==> c.displayAspect.value * h == w && c.displayAspect.value > 0.0
    ensures c.orientation == cam.orientation && c.zoom == cam.zoom
  {
    cam.(displayAspect := if w > 0.0 && h > 0.0 then Some(w / h) else None)
  }

  /** `set_orientation`: each supplied setting replaces the current one, each
      omitted setting is kept. */
  function SetOrientation(cam: Camera, rotation: Option<int>, hflip: Option<bool>, vflip: Option<bool>): (c: Camera)
    ensures c.orientation.rotation == rotation.GetOr(cam.orientation.rotation)
    ensures c.orientation.hflip == hflip.GetOr(cam.orientation.hflip)
    ensures c.orientation.vflip == vflip.GetOr(cam.orientation.vflip)
    ensures c.displayAspect == cam.displayAspect && c.zoom == cam.zoom
  {
    cam.(orientation := Orientation(rotation.GetOr(cam.orientation.rotation),
                                    hflip.GetOr(cam.orientation.hflip),
                                    vflip.GetOr(cam.orientation.vflip)))
  }
}
