/** Byte strings, Python-style slicing and the error vocabulary shared by the
    whole protocol. */
module Prelude {

  /** A byte, as Python's `bord` and `bchr` see it: an integer in 0..255. */
  newtype Byte = b: int | 0 <= b < 256

  /** Python `bytes`. */
  type Bytes = seq<Byte>

  datatype Option<+T> = None | Some(value: T)

  /** Everything that can make an operation of the protocol fail. */
  datatype Error =
    | MisalignedFrame   // the CBC decryptor refuses a ciphertext that is not block aligned
    | EmptyFrame        // `data[-1]` on an empty plaintext raises
    | AlreadyExists     // the storage refuses to overwrite an existing key
    | InvalidStatus     // unexpected HTTP status from the link shortener
    | InvalidHeader     // a redirect whose Location carries no '#'
    | OutOfFuel         // the traversal bound of the model was reached

  datatype Result<+T> = Success(value: T) | Failure(error: Error)

  /** `s[:n]` for a non-negative `n`: never fails, clamps at the end. */
  function Take<T>(s: seq<T>, n: nat): (r: seq<T>)
    ensures |r| == if n < |s| then n else |s|
  {
    if n < |s| then s[..n] else s
  }

  /** `s[n:]` for a non-negative `n`: never fails, empty past the end. */
  function Skip<T>(s: seq<T>, n: nat): (r: seq<T>)
    ensures |r| == if n < |s| then |s| - n else 0
  {
    if n < |s| then s[n..] else []
  }

  /** The two slices at `n` are a prefix of `s` and the rest of it. */
  lemma TakeSkip<T>(s: seq<T>, n: nat)
    ensures Take(s, n) <= s
    ensures Take(s, n) + Skip(s, n) == s
  {
  }

  /** Slicing a concatenation at the seam gives back both parts. */
  lemma SliceAtSeam<T>(a: seq<T>, b: seq<T>)
    ensures Take(a + b, |a|) == a && Skip(a + b, |a|) == b
  {
  }
}
