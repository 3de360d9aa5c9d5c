/** The Pi Zero 2 front end: a fixed 1920x1080 overlay, four button closures
    that nudge the crosshair by 10 pixels, redrawing after each press, and an
    offset file read at start and written on exit. */
module BoresightZero2 {
  import opened Base
  import Crosshair

  const Width: nat := 1920
  const Height: nat := 1080
  const Step: int := 10
  const Thickness: nat := 2

  /** The crosshair position `main` keeps: (`horizontal_y`, `vertical_x`). */
  datatype Position = Position(horizontalY: int, verticalX: int)

  /** `load_offset`: the saved position, or the centre (540, 960). */
  function LoadOffset(f: Crosshair.OffsetFile): (p: Position)
    ensures !f.Saved? ==> p == Position(540, 960)
    ensures f.Saved? && "horizontal_y" !in f.entries ==> p.horizontalY == 540
    ensures f.Saved? && "vertical_x" !in f.entries ==> p.verticalX == 960
    ensures f.Saved? && "horizontal_y" in f.entries ==> p.horizontalY == f.entries["horizontal_y"]
    ensures f.Saved? && "vertical_x" in f.entries ==> p.verticalX == f.entries["vertical_x"]
  {
    var (y, x) := Crosshair.LoadOffset(f, Width, Height);
    Position(y, x)
  }

  /** `save_offset(horizontal_y, vertical_x)`. */
  function SaveOffset(f: Crosshair.OffsetFile, p: Position, writable: bool): (g: Crosshair.OffsetFile)
    ensures writable ==> g.Saved? && g.entries.Keys == {"horizontal_y", "vertical_x"}
    ensures !writable ==> g == f
  {
    Crosshair.SaveOffset(f, p.horizontalY, p.verticalX, writable)
  }

  /** What was saved is loaded back on the next start. */
  lemma SaveThenLoad(f: Crosshair.OffsetFile, p: Position)
    ensures LoadOffset(SaveOffset(f, p, true)) == p
  {
    Crosshair.SaveThenLoad(f, p.horizontalY, p.verticalX, Width, Height);
  }

  /** `update_overlay_image(overlay_image, horizontal_y, vertical_x)`: the rows
      of the horizontal line start in [0, 1078] and the columns of the vertical
      line in [0, 1918]; those pixels are red and every other one is clear. */
  method UpdateOverlayImage(p: Position) returns (img: seq<seq<Crosshair.Pixel>>)
    ensures |img| == Height && forall row :: 0 <= row < Height ==> |img[row]| == Width
    ensures forall row, col :: 0 <= row < Height && 0 <= col < Width ==>
      (img[row][col] == Crosshair.Red <==>
         Crosshair.OnLines(row, col, ClampInt(p.horizontalY, 0, 1078), ClampInt(p.verticalX, 0, 1918), Thickness))
    ensures forall row, col :: 0 <= row < Height && 0 <= col < Width ==>
      img[row][col] == Crosshair.Red || img[row][col] == Crosshair.Clear
  {
    img := Crosshair.DrawCrosshair(Height, Width, p.horizontalY, p.verticalX, Thickness);
  }

  /** The `on_left` closure: only `vertical_x` changes, by at most a step,
      never below 0. */
  function OnLeft(p: Position): (q: Position)
    ensures q.horizontalY == p.horizontalY && q.verticalX >= 0
    ensures q.verticalX == p.verticalX - Step || (q.verticalX == 0 && p.verticalX < Step)
  {
    p.(verticalX := Crosshair.NudgeBack(p.verticalX, Step))
  }

  /** The `on_right` closure: only `vertical_x` changes, never beyond 1919. */
  function OnRight(p: Position): (q: Position)
    ensures q.horizontalY == p.horizontalY && q.verticalX <= 1919
    ensures q.verticalX == p.verticalX + Step || (q.verticalX == 1919 && p.verticalX + Step > 1919)
  {
    p.(verticalX := Crosshair.NudgeForward(p.verticalX, Step, Width - 1))
  }

  /** The `on_up` closure: only `horizontal_y` changes, never below 0. */
  function OnUp(p: Position): (q: Position)
    ensures q.verticalX == p.verticalX && q.horizontalY >= 0
    ensures q.horizontalY == p.horizontalY - Step || (q.horizontalY == 0 && p.horizontalY < Step)
  {
    p.(horizontalY := Crosshair.NudgeBack(p.horizontalY, Step))
  }

  /** The `on_down` closure: only `horizontal_y` changes, never beyond 1079. */
  function OnDown(p: Position): (q: Position)
    ensures q.verticalX == p.verticalX && q.horizontalY <= 1079
    ensures q.horizontalY == p.horizontalY + Step || (q.horizontalY == 1079 && p.horizontalY + Step > 1079)
  {
    p.(horizontalY := Crosshair.NudgeForward(p.horizontalY, Step, Height - 1))
  }

  datatype Button = Left | Right | Up | Down

  function Press(p: Position, b: Button): Position {
    match b
    case Left => OnLeft(p)
    case Right => OnRight(p)
    case Up => OnUp(p)
    case Down => OnDown(p)
  }

  /** The position after a sequence of presses, in order. */
  function PressAll(p: Position, presses: seq<Button>): Position
    decreases |presses|
  {
    if |presses| == 0 then p else PressAll(Press(p, presses[0]), presses[1..])
  }

  /** The crosshair lies on the overlay. */
  predicate OnOverlay(p: Position) {
    0 <= p.horizontalY <= Height - 1 && 0 <= p.verticalX <= Width - 1
  }

  /** Any number of presses keeps a crosshair on the overlay. */
  lemma {:induction false} PressesStayOnOverlay(p: Position, presses: seq<Button>)
    requires OnOverlay(p)
    ensures OnOverlay(PressAll(p, presses))
    decreases |presses|
  {
    if |presses| > 0 {
      PressesStayOnOverlay(Press(p, presses[0]), presses[1..]);
    }
  }

  /** The stored column can sit one pixel further right than any drawn column
      starts: a crosshair stored at 1919 is drawn with its vertical line in
      columns 1918 and 1919. */
  lemma RightEdgeDrawnOneLeft(p: Position)
    requires p.verticalX == Width - 1
    ensures Crosshair.ClampLine(p.verticalX, Width, Thickness) == 1918 != p.verticalX
    ensures OnRight(p) == p
  {
  }

  /** A session of `main`: load the offset, apply the presses, save on exit.
      `writable` says whether the offset file can be opened for writing; the
      save swallows the error when it cannot. When it can, the file then holds
      the final position and the next session starts there; when it cannot,
      the file is left as it was and the next session starts where this one
      did. */
  function Session(f: Crosshair.OffsetFile, presses: seq<Button>, writable: bool): (g: Crosshair.OffsetFile)
    ensures writable ==> LoadOffset(g) == PressAll(LoadOffset(f), presses)
    ensures !writable ==> g == f && LoadOffset(g) == LoadOffset(f)
  {
    var p := PressAll(LoadOffset(f), presses);
    SaveThenLoad(f, p);
    SaveOffset(f, p, writable)
  }
}
