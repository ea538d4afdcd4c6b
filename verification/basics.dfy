/** Values shared by the predictor and the submission validator: the two
    coordinates that make up one prediction row, an optional value and a
    value-or-fault result. */
module Basics {

  /** One predicted (or submitted) position. The coordinates are only ever
      copied, never computed with, so `real` stands in for the source's floats. */
  datatype Point = Point(x: real, y: real)

  /** The fixed fallback prediction `(0.0, 0.0)`. */
  const Origin: Point := Point(0.0, 0.0)

  datatype Option<+T> = None | Some(value: T)

  /** A value, or the fault that prevented computing it. */
  datatype Result<+T, +F> = Ok(value: T) | Err(fault: F)
}
