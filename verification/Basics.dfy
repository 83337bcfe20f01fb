/** Types shared by every component of the model. */
module Basics {

  datatype Option<+T> = None | Some(value: T) {
    predicate IsFailure() {
      None?
    }

    function PropagateFailure<U>(): Option<U>
      requires None?
    {
      None
    }

    function Extract(): T
      requires Some?
    {
      value
    }
  }

  datatype Result<+T, +E> = Ok(value: T) | Err(error: E)

  newtype byte = b: int | 0 <= b < 256

  type Bytes = seq<byte>

  const U64_MAX: nat := 0xFFFF_FFFF_FFFF_FFFF

  type u64 = n: int | 0 <= n <= U64_MAX

  function Min(a: int, b: int): int {
    if a <= b then a else b
  }

  function Max(a: int, b: int): int {
    if a <= b then b else a
  }

  lemma Regroup<T>(a: seq<T>, b: seq<T>, c: seq<T>)
    ensures a + b + c == a + (b + c)
  {
  }
}
