/** PKCS#7 block padding (section 6.3 of RFC 5652) for 16-byte blocks, as the
    chunk codec applies it before CBC encryption and strips it afterwards. */
module Padding {
  import opened Prelude
  import opened Crypto

  /** Appends `n` copies of the byte `n`, where `n` in 1..16 is what brings
      the length to the next multiple of the block size; an already aligned
      input gains a whole block. */
  function Pad(data: Bytes): (r: Bytes)
    ensures Aligned(|r|)
    ensures |data| < |r| <= |data| + BlockSize
    ensures r[..|data|] == data
    ensures forall i | |data| <= i < |r| :: r[i] as int == |r| - |data|
  {
    var size := BlockSize - |data| % BlockSize;
    data + seq(size, _ => size as Byte)
  }

  /** Drops as many trailing bytes as the last byte says, with Python's
      `data[:-n]` semantics and no validation: a count of 0, or one that
      reaches the start, leaves nothing. Indexing the last byte of an empty
      input raises, hence the precondition. */
  function Cut(data: Bytes): (r: Bytes)
    requires |data| > 0
    ensures var n := data[|data| - 1] as int;
      if 0 < n < |data| then |r| == |data| - n else r == []
  {
    var n := data[|data| - 1] as int;
    if 0 < n < |data| then data[..|data| - n] else []
  }

  /** Stripping only ever removes bytes from the end. */
  lemma CutPrefix(data: Bytes)
    requires |data| > 0
    ensures Cut(data) <= data
  {
  }

  /** Stripping undoes padding for every byte string. */
  lemma CutPad(data: Bytes)
    ensures Cut(Pad(data)) == data
  {
  }
}
