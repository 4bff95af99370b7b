/** An optional value: `None` stands for JavaScript's `undefined` (an absent
    prop, an unattached ref), `Some(v)` for a present value. */
module Optional {

  datatype Option<+T> = None | Some(value: T) {

    /** The wrapped value, or `default` when absent. */
    function GetOr(default: T): T {
      match this
      case Some(v) => v
      case None => default
    }
  }
}
