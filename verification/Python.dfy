/** The Python values the models share: byte strings, hash functions and exceptions. */
module Python {

  newtype byte = x: int | 0 <= x < 256

  type Bytes = seq<byte>

  function Zeros(n: nat): (z: Bytes)
    ensures |z| == n
    ensures forall i :: 0 <= i < n ==> z[i] == 0
  {
    if n == 0 then [] else [0] + Zeros(n - 1)
  }

  /** A 32-byte hash value. */
  type Digest = d: seq<byte> | |d| == 32 witness Zeros(32)

  /** SHA-256 is a parameter: every theorem holds for every function from byte strings to 32 bytes. */
  type Hash = Bytes -> Digest

  datatype Option<+T> = None | Some(value: T)

  datatype Error =
    | ValueError | TypeError | IndexError | RuntimeError | AssertionError | OverflowError | StructError
    | EOFError | IOError | UnicodeError | InvalidPolicyError | BadArgumentError
    | PSBTSerializationError

  datatype Result<+T> = Ok(value: T) | Err(error: Error) {
    predicate IsFailure() { Err? }

    function PropagateFailure<U>(): Result<U>
      requires Err?
    {
      Err(error)
    }

    function Extract(): T
      requires Ok?
    {
      value
    }
  }

  function Min(a: int, b: int): int {
    if a <= b then a else b
  }

  function Max(a: int, b: int): int {
    if a >= b then a else b
  }
}
