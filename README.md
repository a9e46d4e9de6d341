# WebsocketConn: a byte stream over a message connection

`WebsocketConn` wraps a WebSocket connection, which exchanges whole
messages, and presents it as a `net.Conn`, an ordered byte stream. A
`Read` fills the caller's buffer from the carry-over buffer `rb`. When `rb`
is empty, `Read` first receives one whole message into it. The part of a
message that does not fit stays in `rb` for later calls. A `Write` sends the
caller's buffer as one binary message (a data frame with opcode 0x2, section
5.6 of RFC 6455). `SetDeadline` sets the read deadline and then the write
deadline, and stops at the first failure.

The project has two modules:

- `MessageTransport` (`transport.dfy`) is the connection being wrapped, seen
  only through the calls the adapter makes. Class `Conn` holds a queue of the
  results its receives will return, and the error that a send or a deadline
  set currently yields. It records every call it serves, with its outcome, in
  a call `log`. `ReceivedIn` and `SentIn` read the received results and the
  sent payloads back out of that log, and `Payloads` concatenates payloads.
- `WebsocketConn` (`websocket_conn.dfy`) is the adapter. Class
  `WebsocketConn` has the connection `conn`, the carry-over `rb` and a ghost
  record `delivered` of every byte `Read` has handed out. Its invariant
  `Valid()` says that `delivered + rb` is the concatenation of the payloads
  received on `conn` so far. Every method keeps this invariant, so it holds
  across any sequence of calls. `Read` is proved against the pure function
  `ReadStep`, which gives the result of one call. `Reads` folds `ReadStep` over
  a sequence of buffer capacities, and the lemmas about `Reads` state the
  stream properties for every choice of capacities.

A receive that fails can still return a payload. `Read` then copies from
that payload and keeps its tail in `rb`, because the copy and the reslice at
misc/websocketConn/websocketConn.go:38-39 run whatever the error is. Two
consequences follow:

- A failed receive leaves `rb` empty only when the connection returns an
  empty payload with its error.
- Reads keep returning errors after the connection fails only when failed
  receives carry no payload. `FailurePropagation` proves this case.
  `PayloadWithErrorIsDelivered` shows a failed receive that returns one byte,
  followed by a Read that returns that byte and no error.

## Model

| member | source | states |
|---|---|---|
| `WebsocketConn.ReadStep` | misc/websocketConn/websocketConn.go:34-41 | One Read returns `n <= len(b)`, and the bytes copied are exactly `n`. The copied bytes followed by the new `rb` are the pending data: the old `rb`, or the next received payload when `rb` was empty. A short read happens only when the pending data is used up. With `rb` non-empty, nothing is received and the error is nil. With `rb` empty, exactly one result is taken off the queue, and its error is returned. |
| `WebsocketConn.Reads` | misc/websocketConn/websocketConn.go:34-41 | A run of Reads makes one call per capacity given, unless it stops because no carry-over and no receive result is left. |
| `WebsocketConn.ReadStepKeepsStream` | misc/websocketConn/websocketConn.go:35-39 | One Read takes at most the head of the receive queue. The copied bytes followed by the new `rb` equal the old `rb` followed by that head's payload. |
| `WebsocketConn.ReadsPreserveStream` | misc/websocketConn/websocketConn.go:34-41 | For any sequence of buffer capacities, the received results are a prefix of the queue. The bytes handed out, followed by the final `rb`, equal the starting `rb` followed by the received payloads in arrival order. Nothing is dropped, duplicated or reordered. |
| `WebsocketConn.ZeroLengthMessage` | misc/websocketConn/websocketConn.go:35-39 | A zero-length message received without error makes that Read return `(0, nil)` and leaves `rb` empty. The next Read therefore receives the following message. |
| `WebsocketConn.EmptyBufferRead` | misc/websocketConn/websocketConn.go:35-39 | A Read with an empty buffer and an empty `rb` still receives a message. It returns 0 and keeps the whole payload in `rb`. |
| `WebsocketConn.DrainCarryOver` | misc/websocketConn/websocketConn.go:38-39 | Reads of a non-empty `rb` through buffers of one capacity return full buffers and then the remainder. They report no error, receive nothing, and hand out exactly `rb`. |
| `WebsocketConn.FirstChunk` | misc/websocketConn/websocketConn.go:35-39 | The first Read of a message copies the first chunk and reports the receive's error. What it leaves in `rb` drains in the remaining chunks with no error. |
| `WebsocketConn.DrainMessage` | misc/websocketConn/websocketConn.go:34-41 | A non-empty message read from an empty `rb` through buffers of one capacity comes out in the chunks `cap, …, cap, rest`. Only the first Read reports the receive's error. The whole payload is handed out, and `rb` ends empty. |
| `WebsocketConn.SmallBufferDraining` | misc/websocketConn/websocketConn.go:34-41 | A 10-byte message read through a 3-byte buffer returns 3, 3, 3, 1 with no errors and hands out the whole message. Afterwards `rb` is empty, so the fifth Read receives again. |
| `WebsocketConn.FailurePropagation` | misc/websocketConn/websocketConn.go:35-37 | When every receive fails with an empty payload, every Read of a run that starts with an empty `rb` returns an error and hands out nothing. |
| `WebsocketConn.PayloadWithErrorIsDelivered` | misc/websocketConn/websocketConn.go:36-39 | A failed receive that returns one byte makes that Read return the error. The next Read returns the byte with no error. |
| `WebsocketConn.Copy` | misc/websocketConn/websocketConn.go:38 | Go's `copy` writes `min(len(b), len(src))` bytes into `b`: the first bytes of `src`. The rest of `b` is untouched. |
| `WebsocketConn.WebsocketConn.Valid` | misc/websocketConn/websocketConn.go:34-41 | The object invariant every method keeps: the bytes handed out, followed by `rb`, are the payloads received on the connection so far, in order. So `rb` is exactly the received bytes not yet handed out. |
| `WebsocketConn.WebsocketConn.constructor` | misc/websocketConn/websocketConn.go:29 | Wrapping a fresh connection gives an empty `rb` and establishes `Valid()`. |
| `WebsocketConn.WebsocketConn.Read` | misc/websocketConn/websocketConn.go:34-41 | `n`, `b[..n]`, the new `rb`, the remaining queue and `err` are those of `ReadStep(old rb, old queue, len(b))`. The rest of `b` is untouched. The log gains a receive exactly when `rb` was empty. `delivered` grows by `b[..n]`, and `Valid()` is kept. |
| `WebsocketConn.WebsocketConn.Write` | misc/websocketConn/websocketConn.go:43-47 | The log gains exactly one binary send of `b`, and the sent messages grow by `b`. `n = len(b)` whether or not the send failed, and `err` is the send's error. |
| `WebsocketConn.WebsocketConn.SetDeadline` | misc/websocketConn/websocketConn.go:61-66 | The read deadline is set first. If that fails, its error is returned, the write deadline is never attempted and stays as it was. Otherwise the write deadline is set, and its result is returned. |
| `WebsocketConn.WebsocketConn.SetReadDeadline` | misc/websocketConn/websocketConn.go:67-69 | Forwards to the connection's read-deadline setter and returns its error. |
| `WebsocketConn.WebsocketConn.SetWriteDeadline` | misc/websocketConn/websocketConn.go:71-73 | Forwards to the connection's write-deadline setter and returns its error. |
| `MessageTransport.ReceiveExtendsPayloads` | misc/websocketConn/websocketConn.go:36 | Logging a receive appends its payload to the concatenation of the received payloads. |
| `MessageTransport.SentInAppend` | misc/websocketConn/websocketConn.go:43-47 | In the call log, the messages sent over two stretches of calls are those of the first stretch followed by those of the second, each kept separate. |
| `MessageTransport.TwoSendsStaySeparate` | misc/websocketConn/websocketConn.go:43-47 | Two binary sends logged one after the other, as two Writes produce them, add two messages in call order, never one merged message. |
| `MessageTransport.Conn.ReadMessage` | misc/websocketConn/websocketConn.go:36 | A receive returns the head of the queue (kind, payload, error) and logs it. |
| `MessageTransport.Conn.WriteMessage` | misc/websocketConn/websocketConn.go:44 | A send logs one message of the given kind and data, and returns the current send error. |
| `MessageTransport.Conn.SetReadDeadline` | misc/websocketConn/websocketConn.go:68 | Setting the read deadline returns the current error for that call. The deadline changes only on success, and the call is logged. |
| `MessageTransport.Conn.SetWriteDeadline` | misc/websocketConn/websocketConn.go:72 | Setting the write deadline returns the current error for that call. The deadline changes only on success, and the call is logged. |

## Left out

- `NewWebsocketServerConn`, the package-level `upgrader` and its `CheckOrigin` policy (misc/websocketConn/websocketConn.go:10-32). These are the HTTP upgrade handshake and calls into gorilla/websocket. Construction is modelled as wrapping a connection with an empty call log and an empty `rb`.
- `EnableWriteCompression(true)` (line 27) is a library option with no behaviour of the adapter to state.
- `Close`, `LocalAddr` and `RemoteAddr` (lines 49-59) pass straight through to the library and touch no state of the adapter.
- The WebSocket framing, the library's handling of control frames, and the network are not modelled. The connection is a queue of receive results, scripted errors for sends and deadline sets, and a call log.
- Deadline expiry and timeouts are not modelled: `time.Time` is an opaque value, and a deadline set only records the value or fails.
- Blocking is not modelled. A receive waits until the connection has a result, so `WebsocketConn.WebsocketConn.Read` requires a non-empty `rb` or a non-empty receive queue. `Reads` stops a run before the first call that would wait.
- The message kind that a receive returns is dropped by `Read`, as in the source. Text messages are handed out as stream bytes like binary ones.
- Concurrency between one reader and one writer is not modelled. The source has no locking, and the two directions touch disjoint state of the adapter.
- Go's `int` width is not modelled. Counts are unbounded naturals, and no buffer in a real program reaches the 64-bit limit.
