/** Values that may be absent: NULL slices, and NULL from an empty queue. */
module Options {
  datatype Option<+T> = None | Some(value: T)
}
