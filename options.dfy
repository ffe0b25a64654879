/** The optional value used across the model (std::optional, Python None). */
module Options {

  datatype Option<+T> = None | Some(value: T) {

    /** The wrapped value, or `default` when there is none (std::optional::value_or). */
    function ValueOr(default: T): T {
      match this
      case Some(v) => v
      case None => default
    }
  }
}
