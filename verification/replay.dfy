/** What a pull reconstructs: re-pulling changes nothing, a pull follows any
    chain that storage holds to its end, and whatever one session pushes a
    fresh session on the same thread replays, in order. */
module Replay {
  import opened Prelude
  import opened Crypto
  import Chunks
  import opened Threads
  import opened Engine

  /** A second pull against unchanged storage is a no-op. */
  lemma PullIdempotent(c: Suite, t: Thread, s: Storage, fuel: nat, fuel': nat)
    requires WellFormed(t)
    requires Pull(c, t, s, fuel).status == Ok
    requires fuel' > 0
    ensures Pull(c, Pull(c, t, s, fuel).thread, s, fuel') == Pulled(Pull(c, t, s, fuel).thread, Ok)
  {
  }

  /** The first `n` chunks of `t`. */
  function Prefix(t: Thread, n: nat): (r: Thread)
    requires 0 < n <= |t.chunks|
    ensures WellFormed(r) && Extends(t, r) && |r.chunks| == n
  {
    Thread(t.id, t.chunks[..n])
  }

  /** A pull from a thread whose tail storage has nothing behind stops at
      once, successfully and without appending. */
  lemma PullAtEnd(c: Suite, t: Thread, s: Storage, fuel: nat)
    requires Synced(s, t) && fuel > 0
    ensures Pull(c, t, s, fuel) == Pulled(t, Ok)
  {
  }

  /** From any prefix of a chain storage leads along, and with enough fuel,
      a pull arrives exactly at the chain's end. */
  lemma {:induction false} PullFollowsChain(c: Suite, t: Thread, s: Storage, n: nat, fuel: nat)
    requires 0 < n <= |t.chunks|
    requires Chained(c, s, t) && Synced(s, t)
    requires fuel > |t.chunks| - n
    ensures Pull(c, Prefix(t, n), s, fuel) == Pulled(t, Ok)
    decreases |t.chunks| - n
  {
    if n == |t.chunks| {
      assert Prefix(t, n) == t;
      PullAtEnd(c, t, s, fuel);
    } else {
      PullStep(c, t, s, n, fuel);
      PullFollowsChain(c, t, s, n + 1, fuel - 1);
    }
  }

  /** A pull from the first `n` chunks of a chain whose chunk `n` storage
      leads to takes one step to the first `n + 1`. */
  lemma PullStep(c: Suite, t: Thread, s: Storage, n: nat, fuel: nat)
    requires 0 < n < |t.chunks|
    requires LinkedAt(c, s, t, n - 1)
    requires fuel > 0
    ensures Pull(c, Prefix(t, n), s, fuel) == Pull(c, Prefix(t, n + 1), s, fuel - 1)
  {
    var u := Prefix(t, n);
    assert Last(u) == t.chunks[n - 1];
    assert Prefix(t, n + 1).chunks == u.chunks + [t.chunks[n]];
    assert Threads.Decrypt(c, u, Fetch(s, Last(u).link)) == Success(Prefix(t, n + 1));
  }

  /** The invariant a well-behaved writer keeps: its thread is the chain in
      storage, and the tail's link is still unused. */
  predicate Writable(c: Suite, s: Storage, t: Thread) {
    WellFormed(t) && Chained(c, s, t) && Last(t).link !in s
  }

  /** One push from a writable state with a fresh, unused link succeeds,
      writes exactly one record and leaves a writable state that carries
      the message as its newest chunk. */
  lemma PushKeepsWritable(c: Suite, t: Thread, s: Storage, message: Bytes, link: Bytes, fuel: nat)
    requires Writable(c, s, t)
    requires |link| == Chunks.LinkSize && link !in s && link != Last(t).link
    requires fuel > 0
    ensures var r := Push(c, t, s, message, link, fuel);
      && r.status == Ok
      && Writable(c, r.storage, r.thread)
      && Extends(r.thread, t) && |r.thread.chunks| == |t.chunks| + 1
      && Last(r.thread).link == link
      && Messages(r.thread) == Messages(t) + [message]
      && r.storage.Keys == s.Keys + {Last(t).link}
  {
    assert Pull(c, t, s, fuel) == Pulled(t, Ok);
    var sealed := Threads.Encrypt(c, t, message, link);
    var r := Push(c, t, s, message, link, fuel);
    assert r.thread == sealed.thread;
    var s' := s[Last(t).link := sealed.frame];
    assert r.storage == s';
    var u := r.thread;
    forall i: nat | i + 1 < |u.chunks|
      ensures LinkedAt(c, s', u, i)
    {
      if i + 1 < |t.chunks| {
        assert u.chunks[i] == t.chunks[i] && u.chunks[i + 1] == t.chunks[i + 1];
        assert LinkedAt(c, s, t, i);
        assert t.chunks[i].link in s;
        assert Fetch(s', t.chunks[i].link) == Fetch(s, t.chunks[i].link);
      } else {
        assert u.chunks[i] == Last(t) && u.chunks[i + 1] == Last(u);
        Chunks.DecryptEncrypt(c, DeriveKey(c, t.id, Last(t).data), message, link);
        assert Fetch(s', Last(t).link) == sealed.frame;
      }
    }
  }

  /** Pushes the messages one after another, the i-th behind `links[i]`,
      stopping at the first failure. */
  function PushAll(c: Suite, t: Thread, s: Storage, messages: seq<Bytes>, links: seq<Bytes>, fuel: nat): (r: Pushed)
    requires WellFormed(t)
    requires |links| == |messages|
    requires forall i | 0 <= i < |links| :: |links[i]| == Chunks.LinkSize
    ensures WellFormed(r.thread)
    ensures r.status == Ok ==> |r.thread.chunks| >= |t.chunks| + |messages|
    decreases |messages|
  {
    if |messages| == 0 then Pushed(t, s, Ok)
    else
      var r := Push(c, t, s, messages[0], links[0], fuel);
      if r.status != Ok then r
      else PushAll(c, r.thread, r.storage, messages[1..], links[1..], fuel)
  }

  /** Links that are pairwise distinct and unused: none is a key of `s` or
      the tail link `tail`. */
  predicate FreshLinks(s: Storage, tail: Bytes, links: seq<Bytes>) {
    && (forall i | 0 <= i < |links| :: |links[i]| == Chunks.LinkSize && links[i] !in s && links[i] != tail)
    && (forall i, j | 0 <= i < j < |links| :: links[i] != links[j])
  }

  lemma {:induction false} PushAllKeepsWritable(c: Suite, t: Thread, s: Storage, messages: seq<Bytes>, links: seq<Bytes>, fuel: nat)
    requires Writable(c, s, t)
    requires |links| == |messages| && FreshLinks(s, Last(t).link, links)
    requires fuel > 0
    ensures var r := PushAll(c, t, s, messages, links, fuel);
      && r.status == Ok
      && Writable(c, r.storage, r.thread)
      && Extends(r.thread, t)
      && Messages(r.thread) == Messages(t) + messages
    decreases |messages|
  {
    if |messages| > 0 {
      PushKeepsWritable(c, t, s, messages[0], links[0], fuel);
      var r := Push(c, t, s, messages[0], links[0], fuel);
      assert FreshLinks(r.storage, Last(r.thread).link, links[1..]) by {
        forall i | 0 <= i < |links[1..]|
          ensures links[1..][i] !in r.storage && links[1..][i] != Last(r.thread).link
        {
          assert links[1..][i] == links[i + 1];
          assert links[i + 1] != links[0];
        }
      }
      PushAllKeepsWritable(c, r.thread, r.storage, messages[1..], links[1..], fuel);
      var r' := PushAll(c, r.thread, r.storage, messages[1..], links[1..], fuel);
      assert PushAll(c, t, s, messages, links, fuel) == r';
      ExtendsTransitive(r'.thread, r.thread, t);
      ConcatStep(Messages(t), Messages(r.thread), Messages(r'.thread), messages);
    }
  }

  lemma ConcatStep<T>(a: seq<T>, b: seq<T>, c: seq<T>, xs: seq<T>)
    requires |xs| > 0 && b == a + [xs[0]] && c == b + xs[1..]
    ensures c == a + xs
  {
    assert xs == [xs[0]] + xs[1..];
  }

  /** Push-then-replay: a session that opened cleanly on an unused tail and
      pushes messages behind distinct unused links leaves storage from which
      a fresh session on the same (thread id, salt) replays everything the
      first one saw followed by exactly those messages, in order. */
  lemma ReplayAfterPushes(c: Suite, id: Bytes, salt: Bytes, s: Storage, fuel: nat,
                                             messages: seq<Bytes>, links: seq<Bytes>, fuel': nat)
    requires Open(c, id, s, fuel, salt).status == Ok
    requires Last(Open(c, id, s, fuel, salt).thread).link !in s
    requires |links| == |messages| && FreshLinks(s, Last(Open(c, id, s, fuel, salt).thread).link, links)
    requires fuel' > |Open(c, id, s, fuel, salt).thread.chunks| + |messages| - 1
    ensures var a := Open(c, id, s, fuel, salt).thread;
      var pushed := PushAll(c, a, s, messages, links, fuel');
      && pushed.status == Ok
      && Open(c, id, pushed.storage, fuel', salt) == Pulled(pushed.thread, Ok)
      && Messages(Open(c, id, pushed.storage, fuel', salt).thread) == Messages(a) + messages
  {
    var a := Open(c, id, s, fuel, salt).thread;
    PushAllKeepsWritable(c, a, s, messages, links, fuel');
    var pushed := PushAll(c, a, s, messages, links, fuel');
    assert Prefix(pushed.thread, 1) == New(c, id, salt);
    PullFollowsChain(c, pushed.thread, pushed.storage, 1, fuel');
  }
}
