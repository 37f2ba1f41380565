/** The value-or-nothing type used for nullable columns and partial results. */
module Option {
  datatype Option<+T> = None | Some(value: T)
}
