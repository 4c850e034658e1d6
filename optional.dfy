/** Python's `Optional[str]` values and their truthiness. */
module Optional {

  datatype Option<T> = None | Some(value: T)

  /** `bool(o)` for an optional string: `None` and `""` are false. */
  predicate Truthy(o: Option<string>)
  {
    o.Some? && o.value != ""
  }
}
