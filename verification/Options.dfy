/** An optional value: `undefined`, a missing map entry, or Rust's `Option`. */
module Options {

  datatype Option<+T> = None | Some(value: T)

  /** `first ?? second`. */
  function Or<T>(first: Option<T>, second: Option<T>): Option<T> {
    if first.Some? then first else second
  }
}
