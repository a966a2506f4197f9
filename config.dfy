/** Fixed configuration of the visualizer (script.js:2-10). */
module Config {
  const X_MIN: real := -10.0
  const X_MAX: real := 10.0
  const Y_MIN: real := -10.0
  const Y_MAX: real := 10.0
  /** Width and height of the square canvas, in pixels. */
  const CANVAS_SIZE: real := 600.0
  /** Radius of a point marker, in pixels. */
  const POINT_RADIUS: real := 5.0
  /** Number of intervals a curve is sampled on; a curve has one more sample. */
  const SAMPLE_STEPS: nat := 500
}
