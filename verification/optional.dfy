/** The `None`-or-value type used for Python's `Optional[...]` values. */
module Optional {

  datatype Option<+T> = None | Some(value: T)
}
