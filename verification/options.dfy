/** An optional value: a map lookup that may miss, a path absent from a tree. */
module Options {
  datatype Option<+T> = None | Some(value: T)
}
