/** The optional value used for partial results (a parse that may fail, a key that may be absent). */
module Options {

  datatype Option<+T> = None | Some(value: T)
}
