/** Option and Result, used for the scripts' "absent" values and raised errors. */
module Wrappers {

  datatype Option<+T> = None | Some(value: T) {
    function GetOr(default: T): T {
      match this
      case Some(v) => v
      case None => default
    }
  }

  datatype Result<+R, +E> = Success(value: R) | Failure(error: E)
}

/** A file-system path as its components (`a / b / c`). */
module Paths {
  type Path = seq<string>
}
