# rust-test-server: request capture, modelled in Dafny

`test_server` is an HTTP test double. A test starts a real server and points
an HTTP client at it. The server's capture middleware turns each inbound
request into a plain `Request` record and sends it down an unbounded
channel. The test thread then inspects the records through a
`RequestReceiver`, which offers `is_empty`, `len` and a non-blocking `next`.

This project models that capture path:

- **`channels.dfy`** holds the unbounded channel (`Channels.Channel<T>`). It
  is a class whose state is the sequence of messages sent but not yet
  received, the number of live sending handles, and a flag for "the
  receiving end was dropped". `Send` appends, or fails once the receiver is
  gone. `TryRecv` takes the oldest message without waiting; on an empty
  queue it reports `Empty`, or `Disconnected` once no sender is left. Beside the class sits `Run`, a functional
  account of any sequence of sends and receives. The FIFO and
  length-accounting lemmas are proved about it.
- **`requests.dfy`** holds the `Request` record, the `RequestReceiver`
  class, the `ShareRequest` producer end and the tests' `add_request`
  helper. `Next` turns `TryRecv`'s result into an `Option` with `.ok()`, so
  both errors become `None`. The unit tests of `src/requests.rs` are
  restated as client methods whose postconditions are the tests'
  assertions.
- **`middleware.dfy`** holds the capture middleware:
  - `extract_headers` and `extract_query` become functions over pair
    sequences. Both collect into a map where the last value wins. This is
    characterised by `IsLastWriteMap` and proved unique.
  - The payload fold is a loop that appends each chunk to a buffer.
  - `Capture` is the snapshot as a function, with its two panic cases as
    `Failure` values.
  - `Start` converts headers and query, folds the body, and only then sends
    one snapshot.
- **`text.dfy`** holds the two text checks. `from_utf8` becomes a
  well-formed-UTF-8 predicate following table 3-7 of the Unicode Standard.
  `HeaderValue::to_str` becomes the `http` crate's visible-ASCII rule.
- **`scenarios.dfy`** restates what the integration tests in
  `tests/server.rs` observe about captured requests. The network is
  replaced by the request the client sends: `FetchSecondRequest` calls
  `Start` directly, and `ValidateClientRequest` is a lemma about `Capture`.
  Those tests use a different interface from src/requests.rs:
  `server.requests()` returns a vector, and their `Request` has no `query`
  field (tests/server.rs:47-56). They serve as evidence for the behaviour,
  not as client code of the model.

Some modelling choices:

- A Rust `String` is its UTF-8 bytes, so `Request.body` is the byte
  sequence `seq<byte>`. `String::from_utf8` succeeds exactly when
  `ValidUtf8` holds.
- The record field `method` is called `httpMethod`, because `method` is a
  reserved word in Dafny.
- A panic from `expect` is modelled as the outcome `Started.Panic(cause)`.
  In that case nothing is sent. The normal outcome, `Proceed`, stands for
  the future that resolves to `Ok(None)`. It produces no response, so the
  request always goes on to the user's handler.
- The framework's request is replaced by plain inputs (`Inbound`):
  - the method and path as text;
  - the header pairs in iteration order, where a name may repeat and the
    values are raw bytes;
  - the query pairs;
  - the payload as a list of chunks.

- A header value that is not text (src/middleware.rs:48) or a body that is
  not UTF-8 (src/middleware.rs:28) makes `start` panic; `Capture` reports
  it as a `Failure` and `Start` returns `Panic`.
- Sending handles are counted because Rust's ownership decides when they
  go away: `start` clones one and drops it after its send
  (src/middleware.rs:12), and the tests' `add_request` takes one by value
  and drops it (src/requests.rs:85). The receiving end lives as long as the
  `RequestReceiver` that owns it, which its `Valid()` records.

## Model

| member | source | states |
|---|---|---|
| `Channels.Channel.Unbounded` | src/requests.rs:51 | a fresh channel is empty, with one sending handle and a live receiver |
| `Channels.Channel.CloneSender` | src/middleware.rs:12 | cloning a sender adds one sending handle and changes nothing else |
| `Channels.Channel.DropSender` | src/requests.rs:85-96 | dropping a sender removes one sending handle and changes nothing else |
| `Channels.Channel.DropReceiver` | src/requests.rs:86-95 | once the receiving end is dropped, it stays dropped and the queue is unchanged; this is what makes a send fail |
| `Channels.Channel.Send` | src/middleware.rs:27-33 | a send appends the message at the back while the receiver lives; once it is dropped the send fails, returns the message and leaves the queue unchanged |
| `Channels.Channel.Len` | src/requests.rs:23-25 | the channel length is the number of messages waiting |
| `Channels.Channel.TryRecv` | src/requests.rs:27-29 | a receive never waits: it takes the oldest message and leaves the rest; on an empty queue it fails with `Disconnected` when no sender is left and `Empty` otherwise, and leaves the queue empty |
| `Channels.Receive` | src/requests.rs:27-29 | one receive yields `None` exactly on an empty queue, otherwise the head and the remaining tail |
| `Channels.Run` | src/requests.rs:27-29 | a run of sends and receives from a queue yields one result per receive, and leaves at most the initial queue plus what was sent |
| `Channels.RunConserves` | src/requests.rs:27-29 | over any sequence of sends and receives, the delivered messages followed by those still queued equal the initial queue followed by everything sent: nothing is lost, duplicated or reordered |
| `Channels.FifoOrder` | tests/server.rs:79-85 | after sending `xs` to an empty channel, as many receives as `xs` has elements return exactly `xs` in sending order and leave it empty |
| `Channels.RunPushes` | src/middleware.rs:27-33 | a run of sends appends its values to the queue in order and delivers nothing |
| `Channels.RunPops` | src/requests.rs:27-29 | `n` receives on a queue of at least `n` deliver its first `n` elements and leave the rest |
| `Channels.PopsOnEmpty` | src/requests.rs:73-83 | every receive on an empty queue gives `None` and the queue stays empty |
| `Channels.LenAccounting` | src/requests.rs:61-71 | the final length is the initial length plus the number sent minus the number delivered |
| `Requests.RequestReceiver.constructor` | src/requests.rs:13-16 | the receiver wraps the given channel, whose receiving end is live |
| `Requests.RequestReceiver.IsEmpty` | src/requests.rs:19-21 | `is_empty` is true exactly when no request is waiting (length 0) |
| `Requests.RequestReceiver.Len` | src/requests.rs:23-25 | `len` is the number of captured requests not yet taken |
| `Requests.RequestReceiver.Next` | src/requests.rs:27-29 | `next` gives `None` on an empty queue, whichever error `try_recv` reports; otherwise it removes and returns the oldest request, lowers the length by one and keeps the rest in order |
| `Requests.ShareRequest.New` | src/requests.rs:36-40 | the producer end holds the given live sender |
| `Requests.EmptyRequest` | src/requests.rs:86-92 | the tests' request has an empty body, method, path, header map and query map |
| `Requests.AddRequest` | src/requests.rs:85-96 | the helper sends one empty request and drops its sender; a failed send is swallowed and leaves the queue unchanged |
| `Requests.IsEmptyScenario` | src/requests.rs:49-59 | a fresh receiver is empty, and after one send it is not |
| `Requests.LenScenario` | src/requests.rs:61-71 | a fresh receiver has length 0, and after one send length 1 |
| `Requests.NextScenario` | src/requests.rs:73-83 | `next` on a fresh receiver is `None`, and after one send it is `Some` of the request sent |
| `Requests.DisconnectedScenario` | src/requests.rs:73-85 | after the helper has dropped the only sender and the request is taken, `try_recv` reports `Disconnected` and `next` gives `None` |
| `Requests.DroppedReceiverScenario` | src/requests.rs:85-95 | after the receiver is dropped, the helper's send is lost without failing |
| `Wrappers.Result.ToOption` | src/requests.rs:28 | `.ok()` keeps a success value and turns every error into `None` |
| `Text.ValidUtf8` | src/middleware.rs:28 | `String::from_utf8` accepts exactly a concatenation of well-formed UTF-8 sequences; the bytes C0, C1 and F5..FF never occur in one |
| `Text.LeadingSequenceLength` | src/middleware.rs:28 | the length of the leading well-formed UTF-8 sequence is between 0 and 4 and never past the end |
| `Text.AsciiIsUtf8` | tests/server.rs:40-45 | a body of ASCII bytes, such as the tests' alphanumeric strings, is valid UTF-8 |
| `Text.HeaderToStr` | src/middleware.rs:47-49 | `to_str` succeeds exactly when every byte is visible ASCII or TAB, and then gives one character per byte, with the same code |
| `Middleware.FoldPayload` | src/middleware.rs:20-25 | the fold starts from an empty buffer and yields the in-order concatenation of all chunks |
| `Middleware.FlattenAppend` | src/middleware.rs:23-25 | joining chunks is compatible with splitting the chunk list anywhere |
| `Middleware.ChunkInPlace` | src/middleware.rs:23-25 | chunk `k` appears in the body right after the bytes of the chunks before it |
| `Middleware.FlattenLength` | src/middleware.rs:23-25 | the body is exactly as long as all chunks together |
| `Middleware.Collect` | src/middleware.rs:51 | collecting pairs into a map gives one entry per distinct key, holding the value of that key's last pair |
| `Middleware.LastWriteInsert` | src/middleware.rs:51 | inserting the last pair into the last-write-wins map of all earlier pairs gives the last-write-wins map of the whole list |
| `Middleware.LastWriteMapUnique` | src/middleware.rs:51 | the last-write-wins characterisation determines the map completely |
| `Middleware.LastIndexOf` | src/middleware.rs:51 | every key present among the pairs has a last pair that carries it |
| `Middleware.CollectSize` | src/middleware.rs:41-52 | the map never has more entries than there are pairs |
| `Middleware.Decoded` | src/middleware.rs:44-50 | when every value is text, each pair keeps its name and position and gets its value as text |
| `Middleware.ExtractHeaders` | src/middleware.rs:41-52 | header extraction succeeds exactly when every value is text; it then maps each name to the text of its last value; otherwise it fails with `HeaderValueNotText` |
| `Middleware.ExtractQuery` | src/middleware.rs:54-59 | the query map has one entry per key, holding that key's last value unchanged |
| `Middleware.Capture` | src/middleware.rs:11-38 | the snapshot exists exactly when the headers are text and the joined body is UTF-8. It then copies method and path unchanged, takes the joined chunks as its body, and has the last-write header and query maps. A bad header wins over a bad body |
| `Middleware.Start` | src/middleware.rs:11-38 | `start` proceeds (`Ok(None)`) exactly when capture succeeds, and then sends exactly one snapshot, the whole captured request, unless the receiver is gone; on a panic nothing is sent; the number of sending handles is the same afterwards |
| `Scenarios.Bytes` | tests/server.rs:80 | a test literal's ASCII bytes, one per character |
| `Scenarios.ValidateClientRequest` | tests/server.rs:36-62 | a POST of a 100-byte ASCII body to "/", chunked in any way, with a last `content-length` of "100", is captured with that body, that header, method "POST" and path "/" |
| `Scenarios.FetchSecondRequest` | tests/server.rs:75-86 | after a GET and a POST with body "2", the length is 2, the first request taken is the GET and the second the POST with body "2" |

## Left out

- src/server.rs is not part of this model. It covers the server thread, the
  actix `System`, socket binding, the start-up handshake over a channel,
  `StopServer`, shutdown on `Drop`, and `url()` (a format over a foreign
  address type). All of this is concurrency and network I/O.
- src/middlware.rs is not part of this model. It is not compiled: src/lib.rs
  declares `middleware`. It also relies on a global mutex map keyed by
  random ids.
- src/helper.rs is not part of this model. It is randomness and file I/O.
- The channel is modelled through its observable behaviour. There is no
  concurrency and no internal synchronisation.
  - Sending handles are a count and the receiving end a flag; which
    handle is which is not tracked.
- `Rc` sharing of the receiver is a Rust ownership detail and does not
  appear.
- Logging of a failed send (`error!`, `debug!`) is left out. Only the fact
  that the failure is swallowed is kept.
- The payload stream is a finite list of chunks that always arrives
  whole. A transport error in the stream is not modelled. In the source
  such an error would fail the future before anything is sent.
- Some framework behaviour is taken as input rather than modelled:
  - how actix parses the query string into pairs;
  - how `Method` and the path turn into text;
  - that `http` header names are lower-case.
- `Requests.RequestReceiver.Len`: the result is an unbounded `nat`, not a
  `usize`, because the queue cannot hold anywhere near 2^64 entries.
- The ordering of requests handled concurrently is not modelled. The
  model's sends happen one after another.
