/** Option and Result types shared by every module of the model.
    A Python exception is modelled as `Err(message)`, where the message is what
    `str(exc)` would give. */
module Wrappers {

  datatype Option<+T> = None | Some(value: T) {
    function GetOr(default: T): T {
      match this
      case Some(v) => v
      case None => default
    }
  }

  datatype Result<+T> = Ok(value: T) | Err(error: string) {
    predicate IsFailure() {
      Err?
    }

    function PropagateFailure<U>(): Result<U>
      requires Err?
    {
      Err(error)
    }

    function Extract(): T
      requires Ok?
    {
      value
    }
  }

  /** A JSON-object field as `dict.get` sees it: absent, explicitly `null`, or present. */
  datatype Field<+T> = Missing | Null | Present(value: T) {
    /** `d.get(key)` with no default: `None` for both an absent key and a `null` value. */
    function ToOption(): Option<T> {
      match this
      case Present(v) => Some(v)
      case _ => None
    }
  }
}
