/** Exceptions and optional values as the Kotlin backend sees them. */
module Failures {

  /** The exception classes the routes tell apart. */
  datatype ExceptionKind =
    | IllegalArgument   // IllegalArgumentException, thrown for a missing path parameter
    | Serialization     // kotlinx.serialization's SerializationException, thrown by a failed JSON decode
    | Other             // anything else (request-body conversion, storage failures)

  datatype Exception = Exception(kind: ExceptionKind, message: string) {
    /** True when `catch (e: IllegalArgumentException)` catches it: SerializationException
        extends IllegalArgumentException. */
    predicate IsIllegalArgument() {
      kind == IllegalArgument || kind == Serialization
    }
  }

  /** A computation that either returned a value or threw. */
  datatype Attempt<+T> = Returned(value: T) | Threw(error: Exception)

  /** Kotlin's nullable `T?`. */
  datatype Option<+T> = None | Some(value: T)
}
