/** The optional value used for JavaScript's `null`/`undefined` fields. */
module Maybe {
  datatype Option<+T> = None | Some(value: T)
}
