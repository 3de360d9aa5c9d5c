/** The crosshair that both display front ends draw: clamping of the drawn
    lines, the RGBA overlay raster, the clamped nudges of the buttons, and the
    offset file that remembers the crosshair between runs. */
module Crosshair {
  import opened Base

  // ---------- Clamping and raster ----------

  /** One RGBA pixel of the overlay buffer. */
  datatype Pixel = Pixel(r: int, g: int, b: int, a: int)

  const Red: Pixel := Pixel(255, 0, 0, 255)

  /** What `fill(0)` leaves: fully transparent. */
  const Clear: Pixel := Pixel(0, 0, 0, 0)

  /** `max(0, min(extent - thickness, pos))`: the first row (or column) of a
      line `thickness` wide, kept inside a buffer `extent` long. */
  function ClampLine(pos: int, extent: int, thickness: nat): (p: int)
    ensures p >= 0
    ensures thickness <= extent ==> p + thickness <= extent
    ensures 0 <= pos && pos + thickness <= extent ==> p == pos
    ensures p != pos ==> p == 0 || p == extent - thickness
  {
    MaxInt(0, MinInt(extent - thickness, pos))
  }

  /** Reference: the pixel lies on the horizontal line whose first row is `y`
      or on the vertical line whose first column is `x`, each `thickness` wide. */
  predicate OnLines(row: int, col: int, y: int, x: int, thickness: nat) {
    (y <= row < y + thickness) || (x <= col < x + thickness)
  }

  /** The colour `update_overlay_image` leaves at (row, col). */
  function Paint(row: int, col: int, y: int, x: int, thickness: nat): Pixel {
    if OnLines(row, col, y, x, thickness) then Red else Clear
  }

  /** One image row of the crosshair, built pixel by pixel. */
  method DrawRow(row: int, width: nat, y: int, x: int, thickness: nat) returns (line: seq<Pixel>)
    ensures |line| == width
    ensures forall col :: 0 <= col < width ==> line[col] == Paint(row, col, y, x, thickness)
  {
    line := [];
    var col := 0;
    while col < width
      invariant 0 <= col <= width && |line| == col
      invariant forall c :: 0 <= c < col ==> line[c] == Paint(row, c, y, x, thickness)
    {
      line := line + [Paint(row, col, y, x, thickness)];
      col := col + 1;
    }
  }

  /** `update_overlay_image` on a `height`-by-`width` buffer: the buffer is
      cleared, the requested line positions are clamped so each line fits, and
      every pixel of the two lines is red while every other pixel stays clear.
      The caller's positions are not changed. */
  method DrawCrosshair(height: nat, width: nat, horizontalY: int, verticalX: int, thickness: nat)
    returns (img: seq<seq<Pixel>>)
    ensures |img| == height
    ensures forall row :: 0 <= row < height ==> |img[row]| == width
    ensures forall row, col :: 0 <= row < height && 0 <= col < width ==>
      img[row][col] == (if OnLines(row, col, ClampLine(horizontalY, height, thickness),
                                   ClampLine(verticalX, width, thickness), thickness)
                        then Red else Clear)
  {
    var y := ClampLine(horizontalY, height, thickness);
    var x := ClampLine(verticalX, width, thickness);
    img := [];
    var row := 0;
    while row < height
      invariant 0 <= row <= height && |img| == row
      invariant forall r :: 0 <= r < row ==> |img[r]| == width
      invariant forall r, c :: 0 <= r < row && 0 <= c < width ==> img[r][c] == Paint(r, c, y, x, thickness)
    {
      var line := DrawRow(row, width, y, x, thickness);
      img := img + [line];
      row := row + 1;
    }
  }

  /** The same drawing done in place on a 2-D buffer, in the source's three
      steps: clear everything, paint the horizontal band, paint the vertical
      band. */
  method DrawCrosshairInPlace(buf: array2<Pixel>, horizontalY: int, verticalX: int, thickness: nat)
    modifies buf
    ensures forall row, col :: 0 <= row < buf.Length0 && 0 <= col < buf.Length1 ==>
      buf[row, col] == Paint(row, col, ClampLine(horizontalY, buf.Length0, thickness),
                             ClampLine(verticalX, buf.Length1, thickness), thickness)
  {
    var height, width := buf.Length0, buf.Length1;
    var y := ClampLine(horizontalY, height, thickness);
    var x := ClampLine(verticalX, width, thickness);
    var i := 0;
    while i < height
      invariant 0 <= i <= height
      invariant forall r, c :: 0 <= r < i && 0 <= c < width ==> buf[r, c] == Clear
    {
      var j := 0;
      while j < width
        invariant 0 <= j <= width
        invariant forall r, c :: 0 <= r < i && 0 <= c < width ==> buf[r, c] == Clear
        invariant forall c :: 0 <= c < j ==> buf[i, c] == Clear
      {
        buf[i, j] := Clear;
        j := j + 1;
      }
      i := i + 1;
    }
    i := y;
    while i < MinInt(y + thickness, height)
      invariant y <= i <= MinInt(y + thickness, height)
      invariant forall r, c :: 0 <= r < height && 0 <= c < width ==>
        buf[r, c] == (if y <= r < i then Red else Clear)
    {
      var j := 0;
      while j < width
        invariant 0 <= j <= width
        invariant forall r, c :: 0 <= r < height && 0 <= c < width ==>
          buf[r, c] == (if (y <= r < i) || (r == i && c < j) then Red else Clear)
      {
        buf[i, j] := Red;
        j := j + 1;
      }
      i := i + 1;
    }
    var j := x;
    while j < MinInt(x + thickness, width)
      invariant x <= j <= MinInt(x + thickness, width)
      invariant forall r, c :: 0 <= r < height && 0 <= c < width ==>
        buf[r, c] == (if (y <= r < y + thickness) || (x <= c < j) then Red else Clear)
    {
      i := 0;
      while i < height
        invariant 0 <= i <= height
        invariant forall r, c :: 0 <= r < height && 0 <= c < width ==>
          buf[r, c] == (if (y <= r < y + thickness) || (x <= c < j) || (c == j && r < i) then Red else Clear)
      {
        buf[i, j] := Red;
        i := i + 1;
      }
      j := j + 1;
    }
  }

  // ---------- Nudges ----------

  /** A press towards the origin: `max(0, pos - step)`. */
  function NudgeBack(pos: int, step: int): (p: int)
    ensures p >= 0
    ensures step >= 0 ==> p <= pos || pos < 0
    ensures p == pos - step || (p == 0 && pos - step < 0)
  {
    MaxInt(0, pos - step)
  }

  /** A press away from the origin: `min(limit, pos + step)`. */
  function NudgeForward(pos: int, step: int, limit: int): (p: int)
    ensures p <= limit
    ensures step >= 0 ==> p >= pos || pos > limit
    ensures p == pos + step || (p == limit && pos + step > limit)
  {
    MinInt(limit, pos + step)
  }

  /** With a non-negative step, a position inside [0, limit] stays inside. */
  lemma NudgesStayInRange(pos: int, step: int, limit: int)
    requires 0 <= pos <= limit && step >= 0
    ensures 0 <= NudgeBack(pos, step) <= pos
    ensures pos <= NudgeForward(pos, step, limit) <= limit
  {
  }

  /** A step back that did not hit the edge is undone by a step forward, and the
      other way round. */
  lemma NudgeUndo(pos: int, step: int, limit: int)
    requires step >= 0 && pos <= limit
    ensures pos >= step ==> NudgeForward(NudgeBack(pos, step), step, limit) == pos
    ensures pos + step <= limit ==> NudgeBack(NudgeForward(pos, step, limit), step) == pos || pos < 0
  {
  }

  /** Repeated presses against an edge stay at the edge. */
  lemma NudgesSaturate(pos: int, step: int, limit: int)
    requires step >= 0 && limit >= 0
    ensures NudgeBack(NudgeBack(pos, step), step) == NudgeBack(pos, step) <==> NudgeBack(pos, step) == 0 || step == 0
    ensures NudgeForward(NudgeForward(pos, step, limit), step, limit) == NudgeForward(pos, step, limit)
            <==> NudgeForward(pos, step, limit) == limit || step == 0
  {
  }

  // ---------- Offset file ----------

  /** The offset file: absent, unreadable, or holding integer entries by key. */
  datatype OffsetFile = NoFile | Unreadable | Saved(entries: map<string, int>)

  /** `load_offset` for a `width`-by-`height` overlay: the saved entries, each
      falling back to the centre (`height // 2`, `width // 2`) when missing; the
      centre when there is no readable file. */
  function LoadOffset(f: OffsetFile, width: nat, height: nat): (p: (int, int))
    ensures !f.Saved? ==> p == (height / 2, width / 2)
    ensures f.Saved? && "horizontal_y" in f.entries ==> p.0 == f.entries["horizontal_y"]
    ensures f.Saved? && "horizontal_y" !in f.entries ==> p.0 == height / 2
    ensures f.Saved? && "vertical_x" in f.entries ==> p.1 == f.entries["vertical_x"]
    ensures f.Saved? && "vertical_x" !in f.entries ==> p.1 == width / 2
  {
    match f
    case Saved(m) =>
      (if "horizontal_y" in m then m["horizontal_y"] else height / 2,
       if "vertical_x" in m then m["vertical_x"] else width / 2)
    case _ => (height / 2, width / 2)
  }

  /** `save_offset`: the file holds exactly the two keys `load_offset` reads.
      `writable = false` models a failed open: the error is swallowed and the
      file keeps what it held before. */
  function SaveOffset(f: OffsetFile, horizontalY: int, verticalX: int, writable: bool): (g: OffsetFile)
    ensures writable ==> g.Saved? && g.entries.Keys == {"horizontal_y", "vertical_x"}
    ensures !writable ==> g == f
  {
    if writable then Saved(map["horizontal_y" := horizontalY, "vertical_x" := verticalX]) else f
  }

  /** What is saved is what the next start loads, whatever the overlay size. */
  lemma SaveThenLoad(f: OffsetFile, horizontalY: int, verticalX: int, width: nat, height: nat)
    ensures LoadOffset(SaveOffset(f, horizontalY, verticalX, true), width, height) == (horizontalY, verticalX)
  {
  }
}
