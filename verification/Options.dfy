/** The one optional-value type every module shares; `None` stands for the
    sources' NULL pointers and absent dictionary entries. */
module Options {
  datatype Option<+T> = None | Some(value: T)

  datatype Result<+T, +E> = Ok(value: T) | Err(error: E)
}
