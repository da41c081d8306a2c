/** Failure-carrying results for the manifest generator. */
module Wrappers {

  /** An optional input field: absent (`None`) or present. */
  datatype Option<+T> = None | Some(value: T) {

    /** The present value, or `default` when the field is absent. */
    function GetOr(default: T): T {
      match this
      case Some(v) => v
      case None => default
    }
  }

  /** Why a compilation was abandoned. No partial manifest is ever produced. */
  datatype GenError =
    | InvalidDuration(text: string)   // a duration that is not digits followed by a unit
    | UnreadableFile(path: string)    // a matched file the filesystem cannot read

  /** Either the computed value or the error that aborted the computation. */
  datatype Result<+T> = Ok(value: T) | Err(error: GenError) {

    predicate IsFailure() {
      Err?
    }

    function PropagateFailure<U>(): Result<U>
      requires Err?
    {
      Err(error)
    }

    function Extract(): T
      requires Ok?
    {
      value
    }
  }
}
