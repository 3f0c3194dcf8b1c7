/** An optional value: `None` stands for Python's "not there". */
module Optional {
  datatype Option<T> = None | Some(value: T)
}
