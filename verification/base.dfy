/** Small value types shared by the screens and the upload component. */
module Base {

  /** A value that may be absent, as JavaScript's `undefined`. */
  datatype Option<+T> = None | Some(value: T)

  /** Either a parsed value or the reason it could not be produced. */
  datatype Result<+R, +E> = Ok(value: R) | Err(error: E)
}
