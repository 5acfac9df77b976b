/** The optional value used wherever the app's Swift code works with `T?`. */
module Optional {
  datatype Option<+T> = None | Some(value: T)
}
