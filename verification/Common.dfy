/** The one wrapper type the other modules share. */
module Common {
  datatype Option<+T> = None | Some(value: T)
}
