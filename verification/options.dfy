/** The optional value used for "no gesture started", "no preview" and a cancelled colour choice. */
module Options {

  datatype Option<+T> = None | Some(value: T)
}
