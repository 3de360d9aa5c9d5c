/** `ButtonControl`: the four push buttons move the crosshair of an
    `OverlayDisplay` by a fixed step, clamped to the overlay, and redraw it. */
module ButtonControl {
  import opened Base
  import Crosshair
  import OverlayDisplay

  type Display = OverlayDisplay.Display

  /** The crosshair lies on the overlay: column in [0, W-1], row in [0, H-1]. */
  predicate OnOverlay(d: Display) {
    0 <= d.verticalX <= d.desiredW - 1 && 0 <= d.horizontalY <= d.desiredH - 1
  }

  /** `on_left`: `vertical_x` moves one step left, stopping at column 0. */
  function OnLeft(d: Display, step: int): (e: Display)
    ensures e == d.(verticalX := e.verticalX)
    ensures e.verticalX >= 0
    ensures e.verticalX == d.verticalX - step || (e.verticalX == 0 && d.verticalX - step < 0)
  {
    d.(verticalX := Crosshair.NudgeBack(d.verticalX, step))
  }

  /** `on_right`: `vertical_x` moves one step right, stopping at column W-1. */
  function OnRight(d: Display, step: int): (e: Display)
    ensures e == d.(verticalX := e.verticalX)
    ensures e.verticalX <= d.desiredW - 1
    ensures e.verticalX == d.verticalX + step || (e.verticalX == d.desiredW - 1 && d.verticalX + step > d.desiredW - 1)
  {
    d.(verticalX := Crosshair.NudgeForward(d.verticalX, step, d.desiredW - 1))
  }

  /** `on_up`: `horizontal_y` moves one step up, stopping at row 0. */
  function OnUp(d: Display, step: int): (e: Display)
    ensures e == d.(horizontalY := e.horizontalY)
    ensures e.horizontalY >= 0
    ensures e.horizontalY == d.horizontalY - step || (e.horizontalY == 0 && d.horizontalY - step < 0)
  {
    d.(horizontalY := Crosshair.NudgeBack(d.horizontalY, step))
  }

  /** `on_down`: `horizontal_y` moves one step down, stopping at row H-1. */
  function OnDown(d: Display, step: int): (e: Display)
    ensures e == d.(horizontalY := e.horizontalY)
    ensures e.horizontalY <= d.desiredH - 1
    ensures e.horizontalY == d.horizontalY + step || (e.horizontalY == d.desiredH - 1 && d.horizontalY + step > d.desiredH - 1)
  {
    d.(horizontalY := Crosshair.NudgeForward(d.horizontalY, step, d.desiredH - 1))
  }

  /** With a non-negative step, every press keeps a crosshair that is on the
      overlay on the overlay. */
  lemma PressesStayOnOverlay(d: Display, step: int)
    requires OnOverlay(d) && step >= 0
    ensures OnOverlay(OnLeft(d, step)) && OnOverlay(OnRight(d, step))
    ensures OnOverlay(OnUp(d, step)) && OnOverlay(OnDown(d, step))
  {
  }

  /** Left never moves the crosshair right and right never moves it left; the
      same holds for up and down. */
  lemma PressesAreMonotone(d: Display, step: int)
    requires OnOverlay(d) && step >= 0
    ensures OnLeft(d, step).verticalX <= d.verticalX <= OnRight(d, step).verticalX
    ensures OnUp(d, step).horizontalY <= d.horizontalY <= OnDown(d, step).horizontalY
  {
  }

  /** A press that did not hit an edge is undone by the opposite press. */
  lemma OppositePressesUndo(d: Display, step: int)
    requires OnOverlay(d) && step >= 0
    ensures d.verticalX >= step ==> OnRight(OnLeft(d, step), step) == d
    ensures d.horizontalY >= step ==> OnDown(OnUp(d, step), step) == d
    ensures d.verticalX + step <= d.desiredW - 1 ==> OnLeft(OnRight(d, step), step) == d
    ensures d.horizontalY + step <= d.desiredH - 1 ==> OnUp(OnDown(d, step), step) == d
  {
  }

  datatype Button = Left | Right | Up | Down

  /** The handler of a button. */
  function Press(d: Display, b: Button, step: int): Display {
    match b
    case Left => OnLeft(d, step)
    case Right => OnRight(d, step)
    case Up => OnUp(d, step)
    case Down => OnDown(d, step)
  }

  /** A press followed by `update_overlay`: the new position is stored, and the
      image redrawn from it, the lines clamped so they fit the buffer. */
  method PressAndRedraw(d: Display, b: Button, step: int) returns (e: Display, img: seq<seq<Crosshair.Pixel>>)
    ensures e == Press(d, b, step)
    ensures |img| == e.desiredH && forall row :: 0 <= row < e.desiredH ==> |img[row]| == e.desiredW
    ensures forall row, col :: 0 <= row < e.desiredH && 0 <= col < e.desiredW ==>
      img[row][col] == Crosshair.Paint(row, col,
                                       Crosshair.ClampLine(e.horizontalY, e.desiredH, OverlayDisplay.Thickness),
                                       Crosshair.ClampLine(e.verticalX, e.desiredW, OverlayDisplay.Thickness),
                                       OverlayDisplay.Thickness)
  {
    var pressed := Press(d, b, step);
    e, img := OverlayDisplay.UpdateOverlay(pressed);
  }
}
