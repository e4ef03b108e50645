/** The optional value used wherever the game stores or returns `null`. */
module Options {

  datatype Option<T> = None | Some(value: T)
}
