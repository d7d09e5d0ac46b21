/** An optional value, used for the selection that may be `null`. */
module Options {

  /** A value that may be absent; `None` stands for `null`. */
  datatype Option<+T> = None | Some(value: T)
}
