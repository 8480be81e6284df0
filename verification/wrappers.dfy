/** Option and Result values, used in place of Java's null references and thrown exceptions. */
module Wrappers {

  /** A value that may be absent: `None` stands for a Java `null`. */
  datatype Option<+T> = None | Some(value: T)

  /** The outcome of a computation that either yields a value or throws. */
  datatype Result<+R, +E> = Success(value: R) | Failure(error: E) {

    predicate IsFailure() {
      Failure?
    }

    function PropagateFailure<U>(): Result<U, E>
      requires Failure?
    {
      Failure(error)
    }

    function Extract(): R
      requires Success?
    {
      value
    }
  }
}

/** The Java exceptions the translatable component can throw while it is built or rendered. */
module Exceptions {

  datatype Exception =
    /** a `null` argument list, list element or varargs value was dereferenced */
    | NullPointer
    /** a varargs value was neither a `String` nor a `BaseComponent` */
    | ClassCast
    /** `Integer.parseInt` was given an explicit index above `Integer.MAX_VALUE` */
    | NumberFormat
    /** `List.get` was asked for a position outside the argument list */
    | IndexOutOfBounds
    /** `charAt(0)` was applied to an empty format group */
    | StringIndexOutOfBounds

  /** `Integer.MAX_VALUE`, the largest value `Integer.parseInt` accepts. */
  const MaxInt: int := 0x7fff_ffff
}
