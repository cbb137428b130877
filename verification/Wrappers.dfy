/** Optional values, and the outcomes of operations that may throw. */
module Wrappers {

  datatype Option<+T> = None | Some(value: T) {

    function GetOr(default: T): T {
      match this
      case Some(v) => v
      case None => default
    }
  }

  /** The exceptions the repository raises, and those of the standard library it lets through. */
  datatype Exception =
    | ParseException(reason: string)
    | NetException(reason: string)
    | OutOfRange

  datatype Outcome<+T> = Ok(value: T) | Thrown(error: Exception)
}
