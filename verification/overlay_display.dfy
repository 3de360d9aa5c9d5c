/** The `OverlayDisplay` of the DispmanX front end: the cover-fit scaling of
    the overlay to the display, the crosshair image it redraws, and its offset
    file. */
module OverlayDisplay {
  import opened Base
  import Crosshair

  /** The resolution the overlay is drawn at unless another is asked for. */
  const DefaultWidth: nat := 1280
  const DefaultHeight: nat := 720

  /** The width in pixels of both crosshair lines. */
  const Thickness: nat := 2

  /** What an `OverlayDisplay` keeps: the overlay resolution, the size the
      display reports, and the crosshair position (`horizontal_y`,
      `vertical_x`). */
  datatype Display = Display(desiredW: nat, desiredH: nat, dispW: int, dispH: int,
                             horizontalY: int, verticalX: int)

  /** `__init__`: the crosshair starts where the offset file puts it. */
  function NewDisplay(desiredW: nat, desiredH: nat, dispW: int, dispH: int, f: Crosshair.OffsetFile): (d: Display)
    ensures d.desiredW == desiredW && d.desiredH == desiredH && d.dispW == dispW && d.dispH == dispH
    ensures !f.Saved? ==> d.horizontalY == desiredH / 2 && d.verticalX == desiredW / 2
    ensures f.Saved? && "horizontal_y" in f.entries ==> d.horizontalY == f.entries["horizontal_y"]
    ensures f.Saved? && "horizontal_y" !in f.entries ==> d.horizontalY == desiredH / 2
    ensures f.Saved? && "vertical_x" in f.entries ==> d.verticalX == f.entries["vertical_x"]
    ensures f.Saved? && "vertical_x" !in f.entries ==> d.verticalX == desiredW / 2
  {
    var (y, x) := Crosshair.LoadOffset(f, desiredW, desiredH);
    Display(desiredW, desiredH, dispW, dispH, y, x)
  }

  lemma QuotientBelow(a: real, b: real, c: real)
    requires b > 0.0 && c > 0.0 && a / b > c
    ensures a / c > b
  {
    assert a == (a / b) * b;
    assert (a / b) * b > c * b;
    assert a / c == a * (1.0 / c);
    assert b == (c * b) * (1.0 / c);
    assert a * (1.0 / c) > (c * b) * (1.0 / c);
  }

  lemma QuotientAtMost(a: real, b: real, c: real)
    requires b > 0.0 && c > 0.0 && a / b <= c
    ensures b * c >= a
  {
    assert a == (a / b) * b;
    assert (a / b) * b <= c * b;
  }

  /** `scale_overlay`: the overlay size that covers the display at the overlay's
      aspect ratio. One side matches the display and the other, truncated to
      whole pixels, is at least as long as the display's. */
  function ScaleOverlay(d: Display): (size: (int, int))
    requires d.desiredW > 0 && d.desiredH > 0 && d.dispW > 0 && d.dispH > 0
    ensures size.0 >= d.dispW && size.1 >= d.dispH
    ensures size.0 == d.dispW || size.1 == d.dispH
  {
    var ar := d.desiredW as real / d.desiredH as real;
    if d.dispW as real / d.dispH as real > ar then
      QuotientBelow(d.dispW as real, d.dispH as real, ar);
      (d.dispW, TruncReal(d.dispW as real / ar))
    else
      QuotientAtMost(d.dispW as real, d.dispH as real, ar);
      (TruncReal(d.dispH as real * ar), d.dispH)
  }

  /** `int()` of an exact quotient of positive integers is integer division. */
  lemma TruncQuotient(n: nat, m: nat)
    requires m > 0
    ensures TruncReal(n as real / m as real) == n / m
  {
    var q, r := n / m, n % m;
    assert n == q * m + r;
    assert n as real / m as real == q as real + r as real / m as real;
    assert 0.0 <= r as real / m as real < 1.0;
  }

  lemma RatioCompare(a: real, b: real, w: real, h: real)
    requires b > 0.0 && w > 0.0 && h > 0.0
    ensures a / b > w / h <==> a * h > b * w
  {
    assert a / b - w / h == (a * h - b * w) / (b * h);
  }

  lemma DivideByRatio(a: real, w: real, h: real)
    requires w > 0.0 && h > 0.0
    ensures a / (w / h) == (a * h) / w
  {
  }

  lemma MultiplyByRatio(a: real, w: real, h: real)
    requires h > 0.0
    ensures a * (w / h) == (a * w) / h
  {
  }

  /** Reference: the same cover fit in integer arithmetic, comparing aspect
      ratios by cross-multiplying. */
  lemma ScaleOverlayInIntegers(d: Display)
    requires d.desiredW > 0 && d.desiredH > 0 && d.dispW > 0 && d.dispH > 0
    ensures ScaleOverlay(d) ==
      if d.dispW * d.desiredH > d.dispH * d.desiredW
      then (d.dispW, d.dispW * d.desiredH / d.desiredW)
      else (d.dispH * d.desiredW / d.desiredH, d.dispH)
  {
    CompareInIntegers(d.dispW, d.dispH, d.desiredW, d.desiredH);
    if d.dispW * d.desiredH > d.dispH * d.desiredW {
      WideCase(d);
    } else {
      TallCase(d);
    }
  }

  lemma WideCase(d: Display)
    requires d.desiredW > 0 && d.desiredH > 0 && d.dispW > 0 && d.dispH > 0
    requires d.dispW as real / d.dispH as real > d.desiredW as real / d.desiredH as real
    ensures ScaleOverlay(d) == (d.dispW, d.dispW * d.desiredH / d.desiredW)
  {
    var y := TruncReal(d.dispW as real / (d.desiredW as real / d.desiredH as real));
    assert ScaleOverlay(d).0 == d.dispW;
    assert ScaleOverlay(d).1 == y;
    WideInIntegers(d.dispW, d.desiredW, d.desiredH);
    assert y == d.dispW * d.desiredH / d.desiredW;
  }

  lemma TallCase(d: Display)
    requires d.desiredW > 0 && d.desiredH > 0 && d.dispW > 0 && d.dispH > 0
    requires !(d.dispW as real / d.dispH as real > d.desiredW as real / d.desiredH as real)
    ensures ScaleOverlay(d) == (d.dispH * d.desiredW / d.desiredH, d.dispH)
  {
    var x := TruncReal(d.dispH as real * (d.desiredW as real / d.desiredH as real));
    assert ScaleOverlay(d).0 == x;
    assert ScaleOverlay(d).1 == d.dispH;
    TallInIntegers(d.dispH, d.desiredW, d.desiredH);
    assert x == d.dispH * d.desiredW / d.desiredH;
  }

  lemma CompareInIntegers(dispW: nat, dispH: nat, w: nat, h: nat)
    requires dispH > 0 && w > 0 && h > 0
    ensures (dispW as real / dispH as real > w as real / h as real) <==> dispW * h > dispH * w
  {
    RatioCompare(dispW as real, dispH as real, w as real, h as real);
    CastProduct(dispW, h);
    CastProduct(dispH, w);
  }

  lemma WideInIntegers(dispW: nat, w: nat, h: nat)
    requires w > 0 && h > 0
    ensures TruncReal(dispW as real / (w as real / h as real)) == dispW * h / w
  {
    DivideByRatio(dispW as real, w as real, h as real);
    CastProduct(dispW, h);
    TruncQuotient(dispW * h, w);
  }

  lemma TallInIntegers(dispH: nat, w: nat, h: nat)
    requires w > 0 && h > 0
    ensures TruncReal(dispH as real * (w as real / h as real)) == dispH * w / h
  {
    MultiplyByRatio(dispH as real, w as real, h as real);
    CastProduct(dispH, w);
    TruncQuotient(dispH * w, h);
  }

  lemma CastProduct(a: int, b: int)
    ensures (a * b) as real == a as real * b as real
  {
  }

  /** `update_overlay_image(horizontal_y, vertical_x, thickness)` on the
      overlay buffer of `desired_res`: the lines are drawn at positions clamped
      into the buffer. */
  method UpdateOverlayImage(d: Display, horizontalY: int, verticalX: int, thickness: nat)
    returns (img: seq<seq<Crosshair.Pixel>>)
    ensures |img| == d.desiredH && forall row :: 0 <= row < d.desiredH ==> |img[row]| == d.desiredW
    ensures forall row, col :: 0 <= row < d.desiredH && 0 <= col < d.desiredW ==>
      (img[row][col] == Crosshair.Red <==>
         Crosshair.OnLines(row, col, ClampInt(horizontalY, 0, d.desiredH - thickness),
                           ClampInt(verticalX, 0, d.desiredW - thickness), thickness))
    ensures forall row, col :: 0 <= row < d.desiredH && 0 <= col < d.desiredW ==>
      img[row][col] == Crosshair.Red || img[row][col] == Crosshair.Clear
  {
    img := Crosshair.DrawCrosshair(d.desiredH, d.desiredW, horizontalY, verticalX, thickness);
  }

  /** `update_overlay`: the image is redrawn from the stored position; the
      stored position itself is not touched, even where the drawing had to
      clamp it. */
  method UpdateOverlay(d: Display) returns (d': Display, img: seq<seq<Crosshair.Pixel>>)
    ensures d' == d
    ensures |img| == d.desiredH && forall row :: 0 <= row < d.desiredH ==> |img[row]| == d.desiredW
    ensures forall row, col :: 0 <= row < d.desiredH && 0 <= col < d.desiredW ==>
      img[row][col] == Crosshair.Paint(row, col, Crosshair.ClampLine(d.horizontalY, d.desiredH, Thickness),
                                       Crosshair.ClampLine(d.verticalX, d.desiredW, Thickness), Thickness)
  {
    img := Crosshair.DrawCrosshair(d.desiredH, d.desiredW, d.horizontalY, d.verticalX, Thickness);
    d' := d;
  }

  /** `load_offset`, centred on this display's overlay by default. */
  function LoadOffset(d: Display, f: Crosshair.OffsetFile): (p: (int, int))
    ensures !f.Saved? ==> p == (d.desiredH / 2, d.desiredW / 2)
    ensures f.Saved? && "horizontal_y" in f.entries ==> p.0 == f.entries["horizontal_y"]
    ensures f.Saved? && "horizontal_y" !in f.entries ==> p.0 == d.desiredH / 2
    ensures f.Saved? && "vertical_x" in f.entries ==> p.1 == f.entries["vertical_x"]
    ensures f.Saved? && "vertical_x" !in f.entries ==> p.1 == d.desiredW / 2
  {
    Crosshair.LoadOffset(f, d.desiredW, d.desiredH)
  }

  /** `save_offset` of the stored position. */
  function SaveOffset(d: Display, f: Crosshair.OffsetFile, writable: bool): (g: Crosshair.OffsetFile)
    ensures writable ==> g.Saved? && g.entries.Keys == {"horizontal_y", "vertical_x"}
    ensures !writable ==> g == f
  {
    Crosshair.SaveOffset(f, d.horizontalY, d.verticalX, writable)
  }

  /** A display saved and then reloaded comes back at the same position. */
  lemma SaveThenReload(d: Display, f: Crosshair.OffsetFile)
    ensures NewDisplay(d.desiredW, d.desiredH, d.dispW, d.dispH, SaveOffset(d, f, true)) == d
  {
    Crosshair.SaveThenLoad(f, d.horizontalY, d.verticalX, d.desiredW, d.desiredH);
  }
}
