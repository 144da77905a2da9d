/**
 * Canvas geometry shared by drawing and hit-testing: axis-aligned button
 * boxes and the cursor style a pointer move selects.
 */
module Geometry {

  /** A button's bounding box in canvas coordinates: top-left corner and size. */
  datatype Box = Box(left: real, top: real, width: real, height: real)

  /** Hit-test with closed edges: the games compare with `>=` and `<=`. */
  predicate Contains(b: Box, x: real, y: real) {
    b.left <= x <= b.left + b.width && b.top <= y <= b.top + b.height
  }

  /** The canvas's `style.cursor`; `Auto` until a game first sets it. */
  datatype Cursor = Auto | Pointer | Default
}
