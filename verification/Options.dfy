// A value that may be missing.

module Options {
  datatype Option<+T> = None | Some(value: T)

  ghost function ValueOr<T>(value: Option<T>, otherwise: T): T {
    if value.Some? then value.value else otherwise
  }
}
