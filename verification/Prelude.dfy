/** Stock datatypes, bytes, and the one hash function everything commits with. */
module Prelude {

  datatype Option<+T> = None | Some(value: T)

  datatype Result<+T, +E> = Ok(value: T) | Err(error: E)

  type byte = bv8
  type Bytes = seq<byte>

  type Digest = d: Bytes | |d| == 32 witness seq(32, i => 0)

  /** SHA-256 is left uninterpreted: a fixed function to 32 bytes of which
      nothing else is known. In particular it is not assumed injective. */
  const SHA256: Bytes -> Digest

  /** Two different messages with one digest. Every binding theorem ends in
      such a pair, never in an assumption that none exists. */
  datatype Collision = Collision(a: Bytes, b: Bytes) {
    predicate IsReal() {
      a != b && SHA256(a) == SHA256(b)
    }
  }

  /** The prev_hash of the first receipt of a chain: 64 hex zeros. */
  const GENESIS_PREV_HASH: Digest := Zeros(32)

  function Zeros(n: nat): (z: Bytes)
    ensures |z| == n && forall i :: 0 <= i < n ==> z[i] == 0
  {
    if n == 0 then [] else Zeros(n - 1) + [0]
  }

  function Min(a: int, b: int): int { if a <= b then a else b }
  function Max(a: int, b: int): int { if a >= b then a else b }

  lemma {:induction false} TakeStep<T>(s: seq<T>, i: nat)
    requires i < |s|
    ensures s[..i + 1] == s[..i] + [s[i]]
  {
    assert s[..i + 1] == s[..i] + [s[i]];
  }
}
