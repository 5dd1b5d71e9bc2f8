/** The optional value: a nullable column, an absent request field or a missing row. */
module Options {
  datatype Option<+T> = None | Some(value: T)
}
