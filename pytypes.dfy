/** Python's `Optional[T]`: `None` or a present value. */
module PyTypes {

  datatype Option<T> = None | Some(value: T)
}
