/** The usual optional value, used for a DOM query that may match nothing. */
module Options {

  datatype Option<+T> = None | Some(value: T)
}
