/** The linear maps between canvas pixels and plot coordinates
    (script.js:27-36). The vertical axis is inverted: pixel rows grow
    downwards, plot ordinates grow upwards. */
module Transform {
  import opened Config

  /** A point in plot space. */
  datatype Point = Point(x: real, y: real)

  /** A position on the canvas, in pixels. */
  datatype Pixel = Pixel(px: real, py: real)

  /** Plot coordinates to canvas pixels (coordToCanvas), without clamping. */
  function CoordToCanvas(x: real, y: real): Pixel
  {
    Pixel(((x - X_MIN) / (X_MAX - X_MIN)) * CANVAS_SIZE,
          ((Y_MAX - y) / (Y_MAX - Y_MIN)) * CANVAS_SIZE)
  }

  /** Canvas pixels to plot coordinates (canvasToCoord). */
  function CanvasToCoord(px: real, py: real): Point
  {
    Point(X_MIN + (px / CANVAS_SIZE) * (X_MAX - X_MIN),
          Y_MAX - (py / CANVAS_SIZE) * (Y_MAX - Y_MIN))
  }

  /** Over the reals CoordToCanvas undoes CanvasToCoord ... */
  lemma CanvasRoundTrip(px: real, py: real)
    ensures CoordToCanvas(CanvasToCoord(px, py).x, CanvasToCoord(px, py).y) == Pixel(px, py)
  {
  }

  /** ... and the reverse composition is the identity too. */
  lemma CoordRoundTrip(x: real, y: real)
    ensures CanvasToCoord(CoordToCanvas(x, y).px, CoordToCanvas(x, y).py) == Point(x, y)
  {
  }

  /** The top-left pixel is (X_MIN, Y_MAX); the bottom-right one is (X_MAX, Y_MIN). */
  lemma Corners()
    ensures CanvasToCoord(0.0, 0.0) == Point(X_MIN, Y_MAX)
    ensures CanvasToCoord(CANVAS_SIZE, CANVAS_SIZE) == Point(X_MAX, Y_MIN)
  {
  }

  /** A coordinate lands on the canvas exactly when it is inside the plot
      bounds; outside ones map, unclamped, off the canvas. */
  lemma OnCanvasIffInBounds(x: real, y: real)
    ensures 0.0 <= CoordToCanvas(x, y).px <= CANVAS_SIZE <==> X_MIN <= x <= X_MAX
    ensures 0.0 <= CoordToCanvas(x, y).py <= CANVAS_SIZE <==> Y_MIN <= y <= Y_MAX
  {
  }

  /** Moving down the canvas moves down the plot; moving right moves right. */
  lemma Orientation(px1: real, py1: real, px2: real, py2: real)
    ensures px1 < px2 <==> CanvasToCoord(px1, py1).x < CanvasToCoord(px2, py2).x
    ensures py1 < py2 <==> CanvasToCoord(px1, py1).y > CanvasToCoord(px2, py2).y
  {
  }
}
