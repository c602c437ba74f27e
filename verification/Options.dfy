/** The usual optional value; None stands for the source's null nodes, null pointers and undefined literals. */
module Options {
  datatype Option<+T> = None | Some(value: T)
}
