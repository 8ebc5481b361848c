/** An optional value: the result of a parse or a search that may come up empty. */
module Options {

  datatype Option<T> = None | Some(value: T)

}
