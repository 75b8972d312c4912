/**
 Failure-compatible wrappers shared by the generators: `Option` stands for a
 Java reference that may be null, `Result` for a call that either returns a
 value or throws one of the exceptions in `Error`.
 */
module Outcomes {

  datatype Option<+T> = None | Some(value: T)

  /** The Java exceptions the modelled code can raise. */
  datatype Error =
    | IllegalArgument   // Guava `Preconditions.checkArgument` / `checkNotNull` failure
    | NumberFormat      // `Integer.parseInt` on a character that is not a digit
    | IndexOutOfBounds  // `List.get` or `String.substring` past the end
    | NullPointer       // calling a method on, or unboxing, a `null`
    | DateTime          // `java.time` on a day that does not exist or lies out of its range
    | Arithmetic        // `Math.addExact` / `multiplyExact` overflowing a `long`

  datatype Result<+T> = Success(value: T) | Failure(error: Error) {
    predicate IsFailure() { Failure? }

    function PropagateFailure<U>(): Result<U>
      requires Failure?
    {
      Failure(error)
    }

    function Extract(): T
      requires Success?
    {
      value
    }
  }
}
