/** Vocabulary shared by every component. */
module Base {

  /** A value that may be missing. */
  datatype Option<+T> = None | Some(value: T)

}
