/** The optional-value wrapper used for searches that may find nothing. */
module Options {

  datatype Option<+T> = None | Some(value: T)
}
