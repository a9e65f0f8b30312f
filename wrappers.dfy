/** Option and Result values used for Java's nullable references and thrown exceptions. */
module Wrappers {

  /** A nullable reference: None stands for Java's null (or Python's None). */
  datatype Option<+T> = None | Some(value: T) {
    function GetOr(default: T): T {
      match this
      case Some(v) => v
      case None => default
    }
  }

  /** The exceptions the modelled code can throw. */
  datatype Exception =
    | NullPointerException
    | IllegalStateException(message: string)
    | IOException

  /** A call that either returns normally or throws. */
  datatype Result<+T> = Success(value: T) | Failure(error: Exception)
}
