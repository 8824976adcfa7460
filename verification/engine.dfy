/** The session engine: follow the chain through the key-value storage until
    a lookup comes back empty, and append one message by pulling, sealing it
    onto the local chain and only then storing it. */
module Engine {
  import opened Prelude
  import opened Crypto
  import Chunks
  import opened Threads

  /** The storage service, keyed by raw link bytes and holding raw frames
      (the hex and base64 encodings around it are left out). */
  type Storage = map<Bytes, Bytes>

  /** A lookup. A missing key reads as the empty frame, as a 404 does. */
  function Fetch(s: Storage, key: Bytes): (r: Bytes)
    ensures key !in s ==> r == []
    ensures key in s ==> r == s[key]
  {
    if key in s then s[key] else []
  }

  /** A write. The service refuses a key that is already taken, even when it
      holds an empty frame. */
  function Store(s: Storage, key: Bytes, value: Bytes): (r: Result<Storage>)
    ensures r.Success? <==> key !in s
    ensures r.Failure? ==> r.error == AlreadyExists
    ensures r.Success? ==>
      && r.value.Keys == s.Keys + {key}
      && Fetch(r.value, key) == value
      && forall k | k != key :: Fetch(r.value, k) == Fetch(s, k)
  {
    if key in s then Failure(AlreadyExists) else Success(s[key := value])
  }

  datatype Status = Ok | Err(error: Error)

  datatype Pulled = Pulled(thread: Thread, status: Status)

  datatype Pushed = Pushed(thread: Thread, storage: Storage, status: Status)

  /** `next` is what a reader finds behind `prev`: a non-empty frame stored at
      `prev.link` that opens, under the key derived from `prev`'s plaintext,
      into `next`. */
  predicate Follows(c: Suite, id: Bytes, s: Storage, prev: Chunks.Chunk, next: Chunks.Chunk) {
    var frame := Fetch(s, prev.link);
    frame != [] && Chunks.Decrypt(c, DeriveKey(c, id, prev.data), frame) == Success(next)
  }

  /** Chunk `i + 1` of `t` is the one storage leads to from chunk `i`. */
  predicate LinkedAt(c: Suite, s: Storage, t: Thread, i: nat) {
    i + 1 < |t.chunks| && Follows(c, t.id, s, t.chunks[i], t.chunks[i + 1])
  }

  /** Every chunk of `t` after the genesis one is the one storage leads to. */
  predicate Chained(c: Suite, s: Storage, t: Thread) {
    forall i: nat | i + 1 < |t.chunks| :: LinkedAt(c, s, t, i)
  }

  /** Nothing is stored behind the tail: a pull stops here. */
  predicate Synced(s: Storage, t: Thread) {
    WellFormed(t) && Fetch(s, Last(t).link) == []
  }

  /** Follows links from the tail, appending one opened chunk per non-empty
      lookup, until a lookup is empty (`Ok`), a frame fails to open (`Err`
      with that error, keeping what was appended so far) or `fuel` lookups
      have been made. */
  function Pull(c: Suite, t: Thread, s: Storage, fuel: nat): (r: Pulled)
    requires WellFormed(t)
    ensures WellFormed(r.thread) && Extends(r.thread, t)
    ensures |r.thread.chunks| <= |t.chunks| + fuel
    ensures r.status == Ok ==> Synced(s, r.thread)
    ensures r.status == Err(OutOfFuel) ==> |r.thread.chunks| == |t.chunks| + fuel
    decreases fuel, 0
  {
    if fuel == 0 then Pulled(t, Err(OutOfFuel))
    else Follow(c, t, s, fuel - 1)
  }

  /** One lookup of a pull, with `fuel` more allowed after it: stop on an
      empty frame, fail on one that does not open, otherwise append the
      opened chunk and keep pulling. */
  function Follow(c: Suite, t: Thread, s: Storage, fuel: nat): (r: Pulled)
    requires WellFormed(t)
    ensures WellFormed(r.thread) && Extends(r.thread, t)
    ensures |r.thread.chunks| <= |t.chunks| + fuel + 1
    ensures r.status == Ok ==> Synced(s, r.thread)
    ensures r.status == Err(OutOfFuel) ==> |r.thread.chunks| == |t.chunks| + fuel + 1
    ensures Fetch(s, Last(t).link) == [] ==> r == Pulled(t, Ok)
    decreases fuel, 1
  {
    var frame := Fetch(s, Last(t).link);
    if frame == [] then Pulled(t, Ok)
    else
      match Threads.Decrypt(c, t, frame)
      case Failure(e) => Pulled(t, Err(e))
      case Success(next) =>
        var r := Pull(c, next, s, fuel);
        ExtendsTransitive(r.thread, next, t);
        r
  }

  /** The chunk a pull opens from the tail's frame is the one storage leads
      to from the tail. */
  lemma OpenedFollows(c: Suite, s: Storage, t: Thread, next: Thread)
    requires WellFormed(t) && Fetch(s, Last(t).link) != []
    requires Threads.Decrypt(c, t, Fetch(s, Last(t).link)) == Success(next)
    ensures LinkedAt(c, s, next, |t.chunks| - 1)
  {
    assert next.chunks[|t.chunks| - 1] == Last(t);
  }

  /** Every chunk a pull appends is the one storage leads to from its
      predecessor. */
  lemma {:induction false} PullLinks(c: Suite, t: Thread, s: Storage, fuel: nat)
    requires WellFormed(t)
    ensures forall i: nat | |t.chunks| <= i + 1 < |Pull(c, t, s, fuel).thread.chunks| ::
      LinkedAt(c, s, Pull(c, t, s, fuel).thread, i)
    decreases fuel
  {
    var frame := Fetch(s, Last(t).link);
    if fuel > 0 && frame != [] && Threads.Decrypt(c, t, frame).Success? {
      var next := Threads.Decrypt(c, t, frame).value;
      var r := Pull(c, next, s, fuel - 1).thread;
      assert Pull(c, t, s, fuel).thread == r;
      PullLinks(c, next, s, fuel - 1);
      forall i: nat | |t.chunks| <= i + 1 < |r.chunks|
        ensures LinkedAt(c, s, r, i)
      {
        if i + 1 == |t.chunks| {
          OpenedFollows(c, s, t, next);
          assert r.chunks[i] == next.chunks[i] && r.chunks[i + 1] == next.chunks[i + 1];
        } else {
          assert |next.chunks| <= i + 1;
        }
      }
    }
  }

  /** A pull that ends with an error other than running out of fuel stopped
      at a tail whose stored frame is non-empty and fails to open with
      exactly that error. */
  lemma {:induction false} PullFailsAtTail(c: Suite, t: Thread, s: Storage, fuel: nat)
    requires WellFormed(t)
    ensures Pull(c, t, s, fuel).status.Err? && Pull(c, t, s, fuel).status.error != OutOfFuel ==>
      && Fetch(s, Last(Pull(c, t, s, fuel).thread).link) != []
      && Threads.Decrypt(c, Pull(c, t, s, fuel).thread, Fetch(s, Last(Pull(c, t, s, fuel).thread).link))
         == Failure(Pull(c, t, s, fuel).status.error)
    decreases fuel
  {
    if fuel > 0 {
      assert Pull(c, t, s, fuel) == Follow(c, t, s, fuel - 1);
      var frame := Fetch(s, Last(t).link);
      if frame != [] && Threads.Decrypt(c, t, frame).Success? {
        PullFailsAtTail(c, Threads.Decrypt(c, t, frame).value, s, fuel - 1);
      }
    }
  }

  /** The salt a session uses when none is given: the ASCII bytes of
      "epiphyte". */
  const DefaultSalt: Bytes := [0x65, 0x70, 0x69, 0x70, 0x68, 0x79, 0x74, 0x65]

  /** A session on (thread id, salt): the genesis thread, synchronised
      against the storage. The salt is `DefaultSalt` unless given. */
  function Open(c: Suite, id: Bytes, s: Storage, fuel: nat, salt: Bytes := DefaultSalt): (r: Pulled)
    ensures WellFormed(r.thread) && r.thread.id == id
    ensures r.thread.chunks[0] == Chunks.Chunk(GenesisLink(c, id, salt), [], None)
    ensures Chained(c, s, r.thread)
    ensures r.status == Ok ==> Synced(s, r.thread)
  {
    PullLinks(c, New(c, id, salt), s, fuel);
    Pull(c, New(c, id, salt), s, fuel)
  }

  /** Appends one message: pull, seal the message onto the local chain behind
      the fresh `link`, then store the frame under the pre-push tail's link.
      A failed pull stores nothing; a refused store leaves the local chain
      advanced but the storage untouched. */
  function Push(c: Suite, t: Thread, s: Storage, message: Bytes, link: Bytes, fuel: nat): (r: Pushed)
    requires WellFormed(t)
    requires |link| == Chunks.LinkSize
    ensures WellFormed(r.thread)
    ensures var p := Pull(c, t, s, fuel);
      && (p.status != Ok ==> r == Pushed(p.thread, s, p.status))
      && (p.status == Ok ==>
            && Extends(r.thread, p.thread) && |r.thread.chunks| == |p.thread.chunks| + 1
            && Last(r.thread).link == link && Last(r.thread).data == message
            && Last(r.thread).frame.Some?
            && Messages(r.thread) == Messages(p.thread) + [message]
            && (Last(p.thread).link in s ==> r.status == Err(AlreadyExists) && r.storage == s)
            && (Last(p.thread).link !in s ==>
                  && r.status == Ok
                  && r.storage == s[Last(p.thread).link := Last(r.thread).frame.value]))
  {
    var p := Pull(c, t, s, fuel);
    if p.status != Ok then Pushed(p.thread, s, p.status)
    else
      var sealed := Threads.Encrypt(c, p.thread, message, link);
      match Store(s, sealed.key, sealed.frame)
      case Failure(e) => Pushed(sealed.thread, s, Err(e))
      case Success(s') => Pushed(sealed.thread, s', Ok)
  }
}
