/** Scalar values and attribute reads, as the inventory script sees them through boto3. */
module Values {

  /** A scalar attribute value: a string, a number, a flag, or Python's None. */
  datatype Value = Null | Str(s: string) | Int(n: int) | Bool(b: bool)

  /** Reading one attribute of an instance record either yields a value or raises. */
  datatype Attr = Raises | Got(value: Value)

  /**
   * The outcome of a mode: either the document it prints, or the fatal path
   * that logs an error and exits with status 1 without printing anything.
   */
  datatype Result<T> = Ok(value: T) | ExitOne
}
