/** Error values for the places where the dashboard's Python code raises. */
module Results {

  /** `IndexError`: a list was indexed past its end (a date string with too
      few `-` parts, a schema with too few variable groups). */
  datatype Error = IndexError

  datatype Result<+T> = Ok(value: T) | Err(error: Error)
}
