/** The usual optional value, used for the result of a search that may fail. */
module Options {

  datatype Option<+T> = None | Some(value: T)
}
