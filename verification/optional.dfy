/** An optional value: a filter selection that may be absent, a status code
    the caller may leave to its default, a choice code that may not parse. */
module Optional {

  datatype Option<+T> = None | Some(value: T)
}
