# Epiphyte: a chained message thread over a key-value store

Epiphyte keeps a thread of messages in a public link shortener used as a
key-value store. Every message is a *chunk*. A chunk pairs a random 20-byte
*link* with the message *data*. The two are padded (PKCS#7, section 6.3 of
RFC 5652) and sealed with AES-128-CBC into a *frame*. The key and IV are the
two halves of the HMAC-SHA256, keyed by the previous chunk's data, of the
thread name. Each frame is stored under the link of the previous chunk.
The first, or genesis, chunk is never stored. Its link is the HMAC-RIPEMD160
of the thread name keyed by a salt, so anyone who knows the thread name and
the salt can start at the genesis link and follow the chain.

This project models that protocol in Dafny as pure functions over immutable
values:

- `Prelude`: bytes, Python-style clamping slices (`Take` and `Skip`) and the
  error vocabulary.
- `Crypto`: the cipher and the two HMACs, as function-valued fields of a
  `Primitives` record. The subset type `Suite` constrains them by their laws:
  - digest sizes of 32 and 20 bytes;
  - CBC decryption undoes CBC encryption under the same 16-byte key and IV;
  - CBC preserves length.
- `Padding`: `__pad` and `__cut`.
- `Chunks`: key splitting, chunk sealing and opening.
- `Threads`: the chain of chunks, its genesis chunk, key derivation, message
  iteration, and appending a chunk by sealing or by opening a frame.
- `Engine`: the storage as a `map`, the pull loop (following links until a
  lookup is empty), session opening, and push. `Open`'s salt parameter
  defaults to `DefaultSalt`, the bytes of `"epiphyte"`.
- `Replay`: facts across several operations:
  - a second pull is a no-op;
  - a pull follows any stored chain to its end;
  - a writer that pushes behind fresh links leaves storage from which a new
    session replays everything, in order.
- `TinyUrl`: the pure part of the storage adapter. It classifies `get`
  responses and takes the value after the last `#`. It builds the URL that
  `set` registers, and it interprets `set` responses.

The pull loop is fuel-bounded: `Pull` recurses at most `fuel` times and then
reports the model-only status `Err(OutOfFuel)`. The random link of a new
chunk is a parameter of `Threads.Encrypt` and `Engine.Push`.

## Model

| member | source | states |
|---|---|---|
| Prelude.Take | epiphyte.py:146 | `s[:n]` clamps: it has `n` items, or all of `s` when `n` reaches past the end. |
| Prelude.Skip | epiphyte.py:147 | `s[n:]` clamps: it has the `|s| - n` remaining items, or none when `n` reaches past the end. |
| Prelude.TakeSkip | epiphyte.py:146-147 | `s[:n]` is a prefix of `s`, and `s[:n] + s[n:] == s`. |
| Padding.Pad | epiphyte.py:128-130 | The padded length is a multiple of 16 and exceeds the input by 1 to 16 bytes. The input is kept as the prefix, and every added byte equals the number of bytes added. |
| Padding.Cut | epiphyte.py:125-126 | Removes as many bytes as the last byte says, with no validation. A count of 0, or one that reaches the start, yields the empty string (slice semantics). An empty input is excluded because `data[-1]` raises. |
| Padding.CutPrefix | epiphyte.py:125-126 | Stripping only removes bytes from the end: the result is a prefix of the input. |
| Padding.CutPad | epiphyte.py:125-130 | For every byte string `x`, `__cut(__pad(x)) == x`. |
| Chunks.SplitKey | epiphyte.py:122-123 | 32 bytes of key material split into a 16-byte AES key and a 16-byte IV. |
| Chunks.SplitKeyJoin | epiphyte.py:122-123 | The two halves concatenate back to the key material (`key[:16] + key[16:] == key`) for any length. |
| Chunks.Encrypt | epiphyte.py:149-156 | The chunk keeps the given link and data. Its frame is block aligned and longer than `link + data` by 1 to 16 bytes. |
| Chunks.Decrypt | epiphyte.py:140-147 | Opening fails with `MisalignedFrame` on a frame that is not block aligned, and with `EmptyFrame` on an empty one. It succeeds on every other frame. On success the chunk records the frame, the link has at most 20 bytes, and a short link comes with empty data. |
| Chunks.DecryptEncrypt | epiphyte.py:119-156 | Opening a frame under the key it was sealed with gives back exactly the sealed chunk: the same 20-byte link, data and frame. |
| Threads.GenesisLink | epiphyte.py:170-171 | The genesis link is HMAC-RIPEMD160 keyed by the salt over the thread id, and has 20 bytes. |
| Threads.DeriveKey | epiphyte.py:173-174 | Key material is HMAC-SHA256 keyed by the previous chunk's data over the thread id, and has 32 bytes. |
| Threads.LastAppend | epiphyte.py:176-177 | After a chunk is appended, `last()` is that chunk. |
| Threads.Messages | epiphyte.py:164-165 | Iteration yields one item per non-genesis chunk: item `i` is the data of chunk `i + 1`. |
| Threads.MessagesAppend | epiphyte.py:164-165 | Appending a chunk appends exactly its data to the iteration. |
| Threads.MessagesExtend | epiphyte.py:164-165 | A thread that extends another iterates the other's messages as a prefix. |
| Threads.New | epiphyte.py:160-171 | A fresh thread has exactly one chunk. Its link is HMAC-RIPEMD160(salt, thread) with 20 bytes, its data is empty, it has no frame, and the thread iterates nothing. |
| Threads.Encrypt | epiphyte.py:187-195 | Sealing appends exactly one chunk and leaves the earlier chunks unchanged. The new chunk is the one sealed under HMAC-SHA256(last.data, thread), and it carries the given link and message. The returned key is the previous tail's link, the returned frame is the new chunk's frame, and the iteration gains the message at its end. |
| Threads.Decrypt | epiphyte.py:179-185 | Opening a frame succeeds exactly when opening the chunk under HMAC-SHA256(last.data, thread) succeeds, and fails with the same error. On success it appends exactly that chunk and leaves the earlier chunks unchanged. |
| Threads.DecryptMessages | epiphyte.py:179-185 | After a successful open, the iteration gains the opened chunk's data at its end. |
| Threads.DecryptEncrypt | epiphyte.py:179-195 | A reader with the same thread state opens the writer's frame into exactly the thread the writer built. |
| Engine.Fetch | epiphyte.py:72-73 | A lookup of a key the storage does not hold yields the empty frame. A held key yields its stored frame. |
| Engine.Store | epiphyte.py:104-111 | A write succeeds exactly when the key is unused, and then it changes only that key. A write to a taken key fails with `AlreadyExists` and changes nothing. |
| Engine.Pull | epiphyte.py:210-218 | The pulled thread extends the local one and grows by at most one chunk per allowed lookup. A pull that ends `Ok` stops where storage holds nothing behind the tail. |
| Engine.Follow | epiphyte.py:211-218 | One loop iteration. On an empty lookup at the tail the pull stops `Ok` without appending. Otherwise the result extends the thread, within the remaining fuel, and is synced when it ends `Ok`. |
| Engine.PullFailsAtTail | epiphyte.py:210-218 | A pull that ends with an error other than running out of fuel stopped at a tail whose stored frame is non-empty and fails to open with exactly that error. Together with `Pull`'s `Ok` clause, a pull stops without error exactly at an empty lookup. |
| Engine.PullLinks | epiphyte.py:210-218 | Every chunk a pull appends is the one that the frame stored at its predecessor's link opens into, under the key derived from the predecessor. |
| Engine.Open | epiphyte.py:199-202 | A new session starts from the genesis chunk of (thread, salt), where the salt defaults to the bytes of `"epiphyte"`. It keeps only chunks that storage leads to, and when the pull ends `Ok` nothing is stored behind the tail. |
| Engine.Push | epiphyte.py:220-225 | Push pulls first: a failed pull ends the push with the pulled thread, its status and unchanged storage. Then it appends one sealed chunk carrying the message behind the fresh link, and only then writes. The write maps the pre-push tail link to the new frame and changes nothing else, or is refused with `AlreadyExists` when that link is taken. |
| Replay.PullIdempotent | epiphyte.py:210-218 | Pulling again against unchanged storage after an `Ok` pull appends nothing. |
| Replay.PullAtEnd | epiphyte.py:210-218 | A pull from a thread with nothing stored behind its tail stops at once, `Ok`. |
| Replay.PullStep | epiphyte.py:210-218 | From the first `n` chunks of a chain whose chunk `n` storage leads to, one loop iteration reaches the first `n + 1` chunks. |
| Replay.PullFollowsChain | epiphyte.py:210-218 | From any prefix of a stored chain, with enough fuel, a pull arrives exactly at the chain's end. |
| Replay.PushKeepsWritable | epiphyte.py:220-225 | From a thread that matches storage and whose tail link is unused, a push behind a fresh link succeeds. It adds exactly one storage key, the old tail link. The thread again matches storage, its tail link is unused, and the message is appended to the iteration. |
| Replay.PushAll | epiphyte.py:220-225 | Pushing messages one after another, stopping at the first failure, keeps the thread well formed. When every push succeeds, the thread has grown by at least one chunk per message. |
| Replay.PushAllKeepsWritable | epiphyte.py:220-225 | Pushing a sequence of messages behind pairwise distinct, unused links succeeds. The thread keeps matching storage and iterates the old messages followed by the new ones. |
| Replay.ReplayAfterPushes | epiphyte.py:199-225 | Push-then-replay: after a session that opened `Ok` pushes messages behind distinct unused links, a fresh session on the same (thread, salt) reconstructs the writer's thread. It iterates everything the writer first saw, then exactly the pushed messages, in order. |
| TinyUrl.Location | epiphyte.py:91 | `headers.get("Location", "")`: the header's value, or `""` when it is absent. |
| TinyUrl.SetUrl | epiphyte.py:85 | The registered URL is the fixed target, then `#`, then the value. |
| TinyUrl.AfterLastHash | epiphyte.py:102 | No result exactly when there is no `#`. Otherwise the result is the `#`-free suffix that follows a `#`, i.e. the part after the last `#`. |
| TinyUrl.Get | epiphyte.py:89-102 | Status 404 gives `""`. Any other status except 301 is `InvalidStatus`. A 301 whose `Location` has no `#` is `InvalidHeader`. Otherwise the result is the `#`-free suffix of `Location` after its last `#`. |
| TinyUrl.LastHashOfJoin | epiphyte.py:102 | For `p + "#" + v` with `v` free of `#`, the part after the last `#` is exactly `v`. |
| TinyUrl.GetSetUrl | epiphyte.py:81-102 | Set-then-get: a 301 redirect to the URL that `set` registers for a `#`-free value reads back that value. |
| TinyUrl.GetIsFetch | epiphyte.py:72-102 | Get-from-storage: when the service answers 404 for a key the storage does not hold and otherwise redirects to the URL registered for the encoded frame, `get` reads exactly the encoding of `Fetch`. This holds for any encoding that maps the empty frame to `""` and never produces `#`, as URL-safe base64 does. |
| TinyUrl.ContainsAt | epiphyte.py:110 | `"not available" in response.text`: the pattern occurs in the text exactly when it starts at some index of the text. |
| TinyUrl.SetOutcome | epiphyte.py:104-111 | A `set` succeeds exactly on status 200 with a page that does not say "not available". A non-200 status is `InvalidStatus`, and a 200 saying "not available" is `AlreadyExists`. |
| TinyUrl.SetOutcomeIsStore | epiphyte.py:104-111 | When the service answers 200 and says "not available" exactly for a taken key, the adapter's verdict is the storage write's verdict, with the same error. |

## Left out

- AES-CBC, HMAC-SHA256 and HMAC-RIPEMD160 internals (epiphyte.py:37-43, 132-138, 170-174) are foreign library code. They are parameters constrained only by the digest sizes, length preservation and the CBC round trip.
- `Random.get_random_bytes(20)` (epiphyte.py:120) is randomness. The link is a caller-supplied 20-byte parameter, and freshness is a precondition where it matters.
- HTTP requests and response objects (epiphyte.py:78-87) are network I/O. `TinyUrl` keeps only the status, the `Location` header and the page text. `Engine` uses a `map` from raw link bytes to raw frames.
- The hex and URL-safe base64 codecs (epiphyte.py:55-62, 72-76) are thin wrappers over standard libraries. Storage keys and values are raw bytes. `TinyUrl.GetSetUrl` assumes only what base64 guarantees: the encoded value holds no `#`.
- The Python 2/3 `encode`/`decode` shims, `__repr__`, `__delitem__` and the `main` command line (epiphyte.py:49-53, 69-70, 167-168, 207-208, 228-274) are plumbing.
- Engine.Pull: termination is bounded by fuel, and `Err(OutOfFuel)` exists only in the model. The source loops forever on a cyclic chain.
- Engine.Pull: the loop's exceptions on key material of the wrong length are not modelled. Key material always comes from HMAC-SHA256, which yields 32 bytes.
- Message fragmentation and padding validation: neither exists in this code (epiphyte.py:125-126, 223). `__cut` never raises, and `push` stores the whole message as one chunk.
- Engine.Push: a refused write still leaves the local thread advanced, as the source does. The model states this but does not model recovering from it.
- `Epiphyte.__iter__` (epiphyte.py:204-205) delegates to `Threads.Messages` on the session's thread. It has no separate member.
- Chunks.Decrypt: the contract states the lengths of link and data but not their contents. The contents come from the clamping slices of the stripped plaintext in the body, and `Chunks.DecryptEncrypt` pins them for every sealed frame.
- Engine.Fetch: the storage read cannot fail, so `Get`'s `InvalidStatus` and `InvalidHeader` never reach `Pull`. `TinyUrl.GetIsFetch` ties the two together only for a service that answers as the storage holds. Likewise `SetOutcome`'s `InvalidStatus` never reaches `Push`, whose write fails only with `AlreadyExists`.
