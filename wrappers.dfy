/** Shared result shapes of the store's operations. */
module Wrappers {

  /** A value that may be absent: SQL NULL, a missing row, Python's None. */
  datatype Option<+T> = None | Some(value: T) {
    function GetOr(default: T): T {
      match this
      case Some(v) => v
      case None => default
    }
  }

  /** The `(success, message)` pair that the fallible operations return:
      `(True, None)` is `Done`, `(False, reason)` is `Failed(reason)`. */
  datatype Status = Done | Failed(reason: string)

  /** A value, or the fault that stopped the computation producing it
      (an exception in the source). Usable with `:-`. */
  datatype Result<+T> = Ok(value: T) | Fault(reason: string) {
    predicate IsFailure() {
      Fault?
    }

    function PropagateFailure<U>(): Result<U>
      requires Fault?
    {
      Fault(reason)
    }

    function Extract(): T
      requires Ok?
    {
      value
    }
  }
}
