/** The optional-value datatype used throughout the model. */
module Options {

  /** Either nothing, or one value. */
  datatype Option<+T> = None | Some(value: T)
}
