/** Small datatypes shared by every module of the model. */
module Prelude {

  datatype Option<+T> = None | Some(value: T)

  /** The outcome of an operation that the source reports by throwing. */
  datatype Result<+T, +E> = Success(value: T) | Failure(error: E)

  /** A UTF-16 code unit; strings may hold unpaired surrogates. */
  type Unit = n: nat | n < 0x10000
  type Text = seq<Unit>

  function Pow2(n: nat): (p: nat)
    ensures p > 0
  {
    if n == 0 then 1 else 2 * Pow2(n - 1)
  }
}
