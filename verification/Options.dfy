/** The optional value used by every component. */
module Options {
  datatype Option<+T> = None | Some(value: T) {
    function GetOr(default: T): T {
      if Some? then value else default
    }

    /** Rust's `Option::or`. */
    function Or(other: Option<T>): Option<T> {
      if Some? then this else other
    }
  }
}
