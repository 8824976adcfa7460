/** One link of the chain: a (link, data) pair sealed into an opaque frame. */
module Chunks {
  import opened Prelude
  import opened Crypto
  import opened Padding

  /** Length of the random link that prefixes every frame. */
  const LinkSize: nat := 20
  /** Length of the key material: an HMAC-SHA256 digest, split into an AES-128
      key and a CBC IV. */
  const KeySize: nat := Sha256Size

  /** `frame` is `None` only for the genesis chunk, which is never sealed. */
  datatype Chunk = Chunk(link: Bytes, data: Bytes, frame: Option<Bytes>)

  /** `(key[:16], key[16:])`: the AES key and the IV. */
  function SplitKey(key: Bytes): (r: (Bytes, Bytes))
    ensures |key| == KeySize ==> |r.0| == BlockSize && |r.1| == BlockSize
  {
    (Take(key, BlockSize), Skip(key, BlockSize))
  }

  /** The two halves put back together are the key material, whatever its
      length. */
  lemma SplitKeyJoin(key: Bytes)
    ensures SplitKey(key).0 + SplitKey(key).1 == key
  {
    TakeSkip(key, BlockSize);
  }

  /** Seals `data` behind the freshly drawn `link`: the frame is the CBC
      encryption of the padded `link ++ data`. */
  function Encrypt(c: Suite, key: Bytes, data: Bytes, link: Bytes): (r: Chunk)
    requires |key| == KeySize
    requires |link| == LinkSize
    ensures r.link == link && r.data == data && r.frame.Some?
    ensures Aligned(|r.frame.value|)
    ensures |link| + |data| < |r.frame.value| <= |link| + |data| + BlockSize
  {
    var (k, iv) := SplitKey(key);
    Chunk(link, data, Some(c.cbcEncrypt(k, iv, Pad(link + data))))
  }

  /** Opens a frame: decrypt, strip the padding, then the first 20 bytes are
      the link and the rest is the data (both by Python slicing, so a short
      plaintext gives a short link and no data). Fails exactly when the
      frame is empty or not block aligned. */
  function Decrypt(c: Suite, key: Bytes, frame: Bytes): (r: Result<Chunk>)
    requires |key| == KeySize
    ensures r.Success? <==> |frame| > 0 && Aligned(|frame|)
    ensures !Aligned(|frame|) ==> r == Failure(MisalignedFrame)
    ensures |frame| == 0 ==> r == Failure(EmptyFrame)
    ensures r.Success? ==>
      && r.value.frame == Some(frame)
      && |r.value.link| <= LinkSize
      && (|r.value.link| < LinkSize ==> r.value.data == [])
  {
    if !Aligned(|frame|) then Failure(MisalignedFrame)
    else
      var (k, iv) := SplitKey(key);
      var plain := c.cbcDecrypt(k, iv, frame);
      if |plain| == 0 then Failure(EmptyFrame)
      else
        var body := Cut(plain);
        Success(Chunk(Take(body, LinkSize), Skip(body, LinkSize), Some(frame)))
  }

  /** Opening a frame with the key it was sealed under gives back exactly the
      chunk that sealing produced: the same link, data and frame. */
  lemma DecryptEncrypt(c: Suite, key: Bytes, data: Bytes, link: Bytes)
    requires |key| == KeySize
    requires |link| == LinkSize
    ensures Decrypt(c, key, Encrypt(c, key, data, link).frame.value)
            == Success(Encrypt(c, key, data, link))
  {
    var (k, iv) := SplitKey(key);
    var padded := Pad(link + data);
    var frame := Encrypt(c, key, data, link).frame.value;
    assert c.cbcDecrypt(k, iv, frame) == padded;
    CutPad(link + data);
    SliceAtSeam(link, data);
  }
}
