/** The link-shortener adapter that serves as the storage: a value is kept as
    the fragment of the URL an alias redirects to, and read back from the
    `Location` header of that redirect. */
module TinyUrl {
  import opened Prelude
  import Engine

  /** The fixed target every stored value hangs off as a URL fragment. */
  const Target: string := "http://127.0.0.1"

  /** The parts of an HTTP response the adapter looks at. */
  datatype Response = Response(status: int, location: Option<string>, text: string)

  /** The `Location` header, or the empty string when it is absent. */
  function Location(resp: Response): (r: string)
    ensures resp.location.None? ==> r == ""
    ensures resp.location.Some? ==> r == resp.location.value
  {
    if resp.location.Some? then resp.location.value else ""
  }

  /** The URL registered under an alias to store `value`. */
  function SetUrl(value: string): (r: string)
    ensures |r| == |Target| + 1 + |value|
    ensures r[..|Target|] == Target && r[|Target|] == '#' && r[|Target| + 1..] == value
  {
    Target + "#" + value
  }

  /** What `rsplit("#", 1)[-1]` yields on a string holding a '#': the part
      after the last '#'. `None` when there is no '#'. */
  function AfterLastHash(s: string): (r: Option<string>)
    ensures r.None? <==> '#' !in s
    ensures r.Some? ==>
      && |r.value| < |s|
      && s[|s| - |r.value| - 1] == '#'
      && s[|s| - |r.value|..] == r.value
      && '#' !in r.value
    decreases |s|
  {
    if |s| == 0 then None
    else if s[|s| - 1] == '#' then Some([])
    else
      match AfterLastHash(s[..|s| - 1])
      case None => None
      case Some(tail) => Some(tail + [s[|s| - 1]])
  }

  /** Reads the value stored under an alias: a 404 is the empty value, any
      status other than 301 is an error, and so is a redirect whose
      `Location` has no fragment separator. */
  function Get(resp: Response): (r: Result<string>)
    ensures resp.status == 404 ==> r == Success("")
    ensures resp.status != 404 && resp.status != 301 ==> r == Failure(InvalidStatus)
    ensures resp.status == 301 ==>
      && (r.Failure? <==> '#' !in Location(resp))
      && (r.Failure? ==> r.error == InvalidHeader)
      && (r.Success? ==>
            && '#' !in r.value
            && |r.value| < |Location(resp)|
            && Location(resp)[|Location(resp)| - |r.value| - 1] == '#'
            && Location(resp)[|Location(resp)| - |r.value|..] == r.value)
  {
    var location := Location(resp);
    if resp.status == 404 then Success("")
    else if resp.status != 301 then Failure(InvalidStatus)
    else
      match AfterLastHash(location)
      case None => Failure(InvalidHeader)
      case Some(value) => Success(value)
  }

  /** The only '#'-free suffix of `p + "#" + v` that follows a '#' is `v`,
      when `v` itself holds no '#'. The proof reads this off
      `AfterLastHash`'s contract directly, so automatic induction over the
      recursive function is switched off. */
  lemma {:induction false} LastHashOfJoin(p: string, v: string)
    requires '#' !in v
    ensures AfterLastHash(p + "#" + v) == Some(v)
  {
    var s := p + "#" + v;
    assert s[|p|] == '#';
    assert '#' in s;
    var r := AfterLastHash(s).value;
    if |r| < |v| {
      assert false;
    } else if |r| > |v| {
      assert false;
    }
    assert s[|s| - |v|..] == v;
  }

  /** Set-then-get: a redirect to the URL stored for a value whose encoding
      holds no '#' (URL-safe base64 never does) reads back that value. */
  lemma GetSetUrl(value: string, text: string)
    requires '#' !in value
    ensures Get(Response(301, Some(SetUrl(value)), text)) == Success(value)
  {
    LastHashOfJoin(Target, value);
  }

  /** Get-from-storage: when the service answers a lookup the way the
      storage holds the key — 404 for a key it does not hold, otherwise a
      301 to the URL registered for the encoded frame — the adapter reads
      exactly the encoding of what `Engine.Fetch` returns, for any encoding
      whose outputs hold no '#' and that maps the empty frame to the empty
      string (as URL-safe base64 does). */
  lemma GetIsFetch(enc: Bytes -> string, resp: Response, s: Engine.Storage, key: Bytes)
    requires forall b :: '#' !in enc(b)
    requires enc([]) == ""
    requires key !in s ==> resp.status == 404
    requires key in s ==> resp.status == 301 && resp.location == Some(SetUrl(enc(s[key])))
    ensures Get(resp) == Success(enc(Engine.Fetch(s, key)))
  {
    if key in s {
      GetSetUrl(enc(s[key]), resp.text);
      assert resp == Response(301, Some(SetUrl(enc(s[key]))), resp.text);
    }
  }

  /** Python's `pattern in text` on strings: a prefix of `text` or of one of
      its suffixes. */
  predicate Contains(text: string, pattern: string)
    decreases |text|
  {
    pattern <= text || (|text| > 0 && Contains(text[1..], pattern))
  }

  /** `pattern in text` holds exactly when `pattern` starts at some index of
      `text`. */
  lemma {:induction false} ContainsAt(text: string, pattern: string)
    ensures Contains(text, pattern) <==> exists i | 0 <= i <= |text| :: pattern <= text[i..]
    decreases |text|
  {
    if pattern <= text {
      assert text[0..] == text;
    } else if |text| > 0 {
      ContainsAt(text[1..], pattern);
      if Contains(text[1..], pattern) {
        var j :| 0 <= j <= |text[1..]| && pattern <= text[1..][j..];
        assert text[1..][j..] == text[j + 1..];
      } else {
        assert text[0..] == text;
        forall i | 1 <= i <= |text|
          ensures !(pattern <= text[i..])
        {
          assert text[1..][i - 1..] == text[i..];
        }
      }
    }
  }

  /** The message the service answers with when an alias is taken. */
  const Taken: string := "not available"

  /** Interprets the response to registering an alias: anything but 200 is an
      error, and a page saying the alias is not available means the key is
      already taken. */
  function SetOutcome(resp: Response): (r: Result<()>)
    ensures r.Success? <==> resp.status == 200 && !Contains(resp.text, Taken)
    ensures resp.status != 200 ==> r == Failure(InvalidStatus)
    ensures resp.status == 200 && Contains(resp.text, Taken) ==> r == Failure(AlreadyExists)
  {
    if resp.status != 200 then Failure(InvalidStatus)
    else if Contains(resp.text, Taken) then Failure(AlreadyExists)
    else Success(())
  }

  /** When the service answers 200 and reports the alias as taken exactly
      when the storage already holds the key, the adapter's verdict is the
      storage's write verdict: success on a fresh key, `AlreadyExists` on a
      taken one. */
  lemma SetOutcomeIsStore(resp: Response, s: Engine.Storage, key: Bytes, value: Bytes)
    requires resp.status == 200
    requires Contains(resp.text, Taken) <==> key in s
    ensures SetOutcome(resp).Success? <==> Engine.Store(s, key, value).Success?
    ensures SetOutcome(resp).Failure? ==> SetOutcome(resp).error == Engine.Store(s, key, value).error
  {
  }
}
