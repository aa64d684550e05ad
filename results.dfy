/** Option and Result values for the places where the Python code returns
    "nothing found" or turns an exception into an error record. */
module Results {

  datatype Option<+T> = None | Some(value: T) {
    function GetOr(default: T): T {
      match this
      case Some(v) => v
      case None => default
    }
  }

  /** `Err` carries the text that the source puts into its error record. */
  datatype Result<+T> = Ok(value: T) | Err(message: string)
}
