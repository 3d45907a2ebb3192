/** Small shared datatypes. */
module Common {
  datatype Option<+T> = None | Some(value: T)

  /** Python's truth test on an optional string: neither `None` nor the empty string. */
  predicate Truthy(o: Option<string>) {
    o.Some? && o.value != ""
  }
}
