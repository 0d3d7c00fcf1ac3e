/** Rectangles as the browser reports them, in exact coordinates. */
module Geometry {

  datatype Rect = Rect(left: real, top: real, right: real, bottom: real)

  function Max(a: real, b: real): real { if a < b then b else a }

  function Min(a: real, b: real): real { if a < b then a else b }
}
