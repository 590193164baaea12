/** The optional value used wherever the database holds a nullable column. */
module Options {
  datatype Option<+T> = None | Some(value: T)
}
