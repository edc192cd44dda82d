/** The result of an operation that may raise: `None` stands for the raised error. */
module Options {

  datatype Option<+T> = None | Some(value: T)
}
