/** Failure-carrying datatypes shared by every component of the exporter.

- Option<T> models a JavaScript value that may be `undefined`.
- Result<T, E> models a call that either returns a value or throws.
- Thrown models what a `throw` can carry: an `Error` instance (with its
  `message`) or any other value. Every `catch` block of the exporter
  re-signals an `Error` with a prefixed message and re-throws anything
  else unchanged; `Wrap` is that one rule.
 */
module Results {

  datatype Option<+T> = None | Some(value: T) {

    /** The wrapped value, or `default` when absent. */
    function GetOr(default: T): T {
      match this
      case Some(v) => v
      case None => default
    }
  }

  datatype Result<+T, +E> = Success(value: T) | Failure(error: E)

  /** A value raised by `throw`. */
  datatype Thrown =
    | ErrorObject(message: string)
    | OtherValue(description: string)

  /** The catch-and-rethrow rule shared by the fetcher, the CSV encoder
      and the orchestrator: a caught `Error` is replaced by a new `Error`
      whose message is `prefix` followed by the original message, and any
      other thrown value is passed on unchanged. */
  function Wrap(prefix: string, t: Thrown): (r: Thrown)
    ensures t.ErrorObject? <==> r.ErrorObject?
    ensures t.ErrorObject? ==> r.message == prefix + t.message
    ensures t.OtherValue? ==> r == t
  {
    match t
    case ErrorObject(m) => ErrorObject(prefix + m)
    case OtherValue(_) => t
  }
}
