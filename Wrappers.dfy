/** Failure-compatible result types used to model Ruby's nil and raised exceptions. */
module Wrappers {

  datatype Option<+T> = None | Some(value: T)

  datatype Result<+R, +E> = Success(value: R) | Failure(error: E)

  /** The Ruby exceptions the modelled code can raise. */
  datatype RubyError =
    | NoMethodError  // a method called on nil, such as `nil.keys` or `nil + x`
    | ArgumentError  // `sort!` whose comparison block returned nil
    | TypeError      // `1 + nil`: nil can't be coerced into a number
}
