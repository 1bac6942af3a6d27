/** Small value types shared by every module of the model. */
module Base {

  /** Python's `None` versus a present value. */
  datatype Option<+T> = None | Some(value: T)

  /** A step that may raise: `Failure` carries the exception's message (what `str(e)` gives). */
  datatype Result<+T> = Success(value: T) | Failure(error: string)

  /** One octet of a `bytes` object. */
  newtype byte = x: int | 0 <= x < 256

  function Min(a: int, b: int): (m: int)
    ensures m <= a && m <= b && (m == a || m == b)
  {
    if a <= b then a else b
  }
}
