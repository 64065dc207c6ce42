/** A value that may be absent: the model of the source's nullable references and
    nullable value types (`string?`, `int?`, `EmployeeTitle?`, `int[]?`). */
module Optional {

  datatype Option<+T> = None | Some(value: T) {

    /** The value, or `default` when absent (the source's `?? default`). */
    function GetOr(default: T): T {
      match this
      case Some(v) => v
      case None => default
    }
  }
}
