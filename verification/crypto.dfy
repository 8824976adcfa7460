/** The foreign primitives the protocol is built on, kept abstract.

    AES-CBC, HMAC-SHA256 and HMAC-RIPEMD160 come from a library whose
    internals are not part of this model. They are represented as function
    values, and a `Suite` is any choice of them that obeys the few laws the
    protocol relies on: the CBC round trip for a 16-byte key and a 16-byte
    IV on block-aligned input, CBC preserving lengths, and the two digest
    sizes. */
module Crypto {
  import opened Prelude

  /** AES.block_size */
  const BlockSize: nat := 16
  /** A length that is a whole number of AES blocks. */
  predicate Aligned(n: nat) {
    n % BlockSize == 0
  }

  /** Digest size of SHA-256, hence of HMAC-SHA256. */
  const Sha256Size: nat := 32
  /** Digest size of RIPEMD-160, hence of HMAC-RIPEMD160. */
  const RipemdSize: nat := 20

  datatype Primitives = Primitives(
    hmacSha256: (Bytes, Bytes) -> Bytes,          // (key, message) -> digest
    hmacRipemd: (Bytes, Bytes) -> Bytes,          // (key, message) -> digest
    cbcEncrypt: (Bytes, Bytes, Bytes) -> Bytes,   // (key, iv, plaintext) -> ciphertext
    cbcDecrypt: (Bytes, Bytes, Bytes) -> Bytes)   // (key, iv, ciphertext) -> plaintext

  ghost predicate Lawful(p: Primitives) {
    && (forall k, m {:trigger p.hmacSha256(k, m)} :: |p.hmacSha256(k, m)| == Sha256Size)
    && (forall k, m {:trigger p.hmacRipemd(k, m)} :: |p.hmacRipemd(k, m)| == RipemdSize)
    && (forall k, iv, x {:trigger p.cbcEncrypt(k, iv, x)} ::
          |k| == BlockSize && |iv| == BlockSize && Aligned(|x|) ==>
            |p.cbcEncrypt(k, iv, x)| == |x| &&
            p.cbcDecrypt(k, iv, p.cbcEncrypt(k, iv, x)) == x)
    && (forall k, iv, y {:trigger p.cbcDecrypt(k, iv, y)} ::
          |k| == BlockSize && |iv| == BlockSize && Aligned(|y|) ==>
            |p.cbcDecrypt(k, iv, y)| == |y|)
  }

  /** A primitive suite that behaves like the real library as far as the
      protocol can tell. The witness is a toy suite (identity cipher, constant
      digests) that only shows the laws are consistent. */
  type Suite = p: Primitives | Lawful(p)
    witness Primitives(
      (k: Bytes, m: Bytes) => seq(Sha256Size, _ => 0 as Byte),
      (k: Bytes, m: Bytes) => seq(RipemdSize, _ => 0 as Byte),
      (k: Bytes, iv: Bytes, x: Bytes) => x,
      (k: Bytes, iv: Bytes, y: Bytes) => y)
}
