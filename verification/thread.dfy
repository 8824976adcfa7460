/** The chain of chunks of one thread: a genesis chunk derived from the
    thread id and the salt, then one chunk per message, each keyed by its
    predecessor's plaintext. */
module Threads {
  import opened Prelude
  import opened Crypto
  import Chunks

  datatype Thread = Thread(id: Bytes, chunks: seq<Chunks.Chunk>)

  /** Every thread starts with its genesis chunk and only grows. */
  predicate WellFormed(t: Thread) {
    |t.chunks| > 0
  }

  /** `u` is `t` with zero or more chunks appended. */
  predicate Extends(u: Thread, t: Thread) {
    u.id == t.id && |t.chunks| <= |u.chunks| && u.chunks[..|t.chunks|] == t.chunks
  }

  /** The genesis link: HMAC-RIPEMD160 keyed by the salt over the thread id. */
  function GenesisLink(c: Suite, id: Bytes, salt: Bytes): (r: Bytes)
    ensures |r| == Chunks.LinkSize
  {
    c.hmacRipemd(salt, id)
  }

  /** Key material for the chunk after one whose plaintext is `data`:
      HMAC-SHA256 keyed by that plaintext over the thread id. */
  function DeriveKey(c: Suite, id: Bytes, data: Bytes): (r: Bytes)
    ensures |r| == Chunks.KeySize
  {
    c.hmacSha256(data, id)
  }

  /** The data of every chunk but the genesis one, in chain order. */
  function Messages(t: Thread): (r: seq<Bytes>)
    ensures |r| == if |t.chunks| == 0 then 0 else |t.chunks| - 1
    ensures forall i | 0 <= i < |r| :: r[i] == t.chunks[i + 1].data
    decreases |t.chunks|
  {
    if |t.chunks| <= 1 then []
    else Messages(Thread(t.id, t.chunks[..|t.chunks| - 1])) + [t.chunks[|t.chunks| - 1].data]
  }

  /** Appending a chunk appends its data to the messages. */
  lemma MessagesAppend(t: Thread, chunk: Chunks.Chunk)
    requires WellFormed(t)
    ensures Messages(Thread(t.id, t.chunks + [chunk])) == Messages(t) + [chunk.data]
  {
    assert (t.chunks + [chunk])[..|t.chunks|] == t.chunks;
  }

  /** A thread that extends another iterates the other's messages first. */
  lemma MessagesExtend(u: Thread, t: Thread)
    requires WellFormed(t) && Extends(u, t)
    ensures Messages(t) <= Messages(u)
  {
    forall i | 0 <= i < |Messages(t)|
      ensures Messages(u)[i] == Messages(t)[i]
    {
      assert u.chunks[i + 1] == t.chunks[i + 1];
    }
  }

  /** A fresh thread: only the unsealed genesis chunk, with empty data. */
  function New(c: Suite, id: Bytes, salt: Bytes): (t: Thread)
    ensures WellFormed(t) && t.id == id && |t.chunks| == 1
    ensures t.chunks[0].link == GenesisLink(c, id, salt) && |t.chunks[0].link| == Chunks.LinkSize
    ensures t.chunks[0].data == [] && t.chunks[0].frame == None
    ensures Messages(t) == []
  {
    Thread(id, [Chunks.Chunk(GenesisLink(c, id, salt), [], None)])
  }

  /** `self[-1]`: the newest chunk. */
  function Last(t: Thread): Chunks.Chunk
    requires WellFormed(t)
  {
    t.chunks[|t.chunks| - 1]
  }

  /** After appending a chunk, that chunk is the newest one. */
  lemma LastAppend(t: Thread, chunk: Chunks.Chunk)
    ensures Last(Thread(t.id, t.chunks + [chunk])) == chunk
  {
  }

  /** Result of sealing one message onto a thread: the grown thread and the
      storage record `(key, frame)` the caller must persist. */
  datatype Sealed = Sealed(thread: Thread, key: Bytes, frame: Bytes)

  /** Appends a chunk carrying `entry` behind the fresh `link`, keyed by the
      current tail's plaintext; the record to store is the frame under the
      PREVIOUS tail's link. */
  function Encrypt(c: Suite, t: Thread, entry: Bytes, link: Bytes): (r: Sealed)
    requires WellFormed(t)
    requires |link| == Chunks.LinkSize
    ensures WellFormed(r.thread) && Extends(r.thread, t)
    ensures |r.thread.chunks| == |t.chunks| + 1
    ensures Last(r.thread) == Chunks.Encrypt(c, DeriveKey(c, t.id, Last(t).data), entry, link)
    ensures Last(r.thread).link == link && Last(r.thread).data == entry
    ensures r.key == Last(t).link && Last(r.thread).frame == Some(r.frame)
    ensures Messages(r.thread) == Messages(t) + [entry]
  {
    var chunk := Chunks.Encrypt(c, DeriveKey(c, t.id, Last(t).data), entry, link);
    Sealed(Thread(t.id, t.chunks + [chunk]), Last(t).link, chunk.frame.value)
  }

  /** Appends the chunk opened from `frame` with the key derived from the
      current tail's plaintext; on failure nothing is appended. */
  function Decrypt(c: Suite, t: Thread, frame: Bytes): (r: Result<Thread>)
    requires WellFormed(t)
    ensures var unsealed := Chunks.Decrypt(c, DeriveKey(c, t.id, Last(t).data), frame);
      && (r.Success? <==> unsealed.Success?)
      && (r.Failure? ==> r.error == unsealed.error)
      && (r.Success? ==>
            && WellFormed(r.value) && Extends(r.value, t)
            && |r.value.chunks| == |t.chunks| + 1
            && Last(r.value) == unsealed.value)
  {
    match Chunks.Decrypt(c, DeriveKey(c, t.id, Last(t).data), frame)
    case Failure(e) => Failure(e)
    case Success(chunk) => Success(Thread(t.id, t.chunks + [chunk]))
  }

  /** Opening a frame adds its data as the newest message. */
  lemma DecryptMessages(c: Suite, t: Thread, frame: Bytes)
    requires WellFormed(t) && Decrypt(c, t, frame).Success?
    ensures Messages(Decrypt(c, t, frame).value)
            == Messages(t) + [Chunks.Decrypt(c, DeriveKey(c, t.id, Last(t).data), frame).value.data]
  {
    MessagesAppend(t, Chunks.Decrypt(c, DeriveKey(c, t.id, Last(t).data), frame).value);
  }

  /** A reader holding the same thread state opens the sealed frame into
      exactly the thread the writer built. */
  lemma DecryptEncrypt(c: Suite, t: Thread, entry: Bytes, link: Bytes)
    requires WellFormed(t)
    requires |link| == Chunks.LinkSize
    ensures Decrypt(c, t, Encrypt(c, t, entry, link).frame) == Success(Encrypt(c, t, entry, link).thread)
  {
    Chunks.DecryptEncrypt(c, DeriveKey(c, t.id, Last(t).data), entry, link);
  }

  lemma ExtendsTransitive(w: Thread, u: Thread, t: Thread)
    requires Extends(w, u) && Extends(u, t)
    ensures Extends(w, t)
  {
    assert w.chunks[..|t.chunks|] == w.chunks[..|u.chunks|][..|t.chunks|];
  }
}
