/**
 Run-time values of the scalar fragment: booleans, numbers, error objects and the null pointer.
 */
module Values {
  import opened Numeric

  datatype Scalar = Bool(b: bool) | Num(n: Number)

  /** `Unset` is the empty handle of a variable that was given no value. */
  datatype Value = Plain(s: Scalar) | Err(text: string) | NullPointer | Unset
}
