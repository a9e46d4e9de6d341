/** A byte-stream connection on top of a message connection: `Read` hands
    out the bytes of the received messages in order, across as many calls as
    the caller's buffers need, and `Write` sends each buffer as one binary
    message. The carry-over buffer `rb` holds the unread tail of the last
    message received. */
module WebsocketConn {
  import opened MessageTransport

  function Min(a: nat, b: nat): (m: nat)
  {
    if a <= b then a else b
  }

  /** The bytes a Read copies from: the carried-over tail when there is one,
      otherwise the payload of the next receive. */
  function Pending(rb: seq<byte>, incoming: seq<Received>): (p: seq<byte>)
    requires rb != [] || incoming != []
  {
    if rb == [] then incoming[0].payload else rb
  }

  /** The outcome of one Read: the count returned, the bytes copied into the
      caller's buffer, the new carry-over, the receive queue left over and
      the error returned. */
  datatype Step = Step(n: nat, bytes: seq<byte>, rb: seq<byte>, incoming: seq<Received>, err: Option<Error>)

  /** One Read with a buffer of capacity `cap`, carry-over `rb` and pending
      receive results `incoming`. A receive happens exactly when `rb` is
      empty; the payload it returns is used whether or not an error came
      with it. */
  function ReadStep(rb: seq<byte>, incoming: seq<Received>, cap: nat): (s: Step)
    requires rb != [] || incoming != []
    // never more than the buffer holds, and exactly what was copied
    ensures s.n == |s.bytes| <= cap
    // the copied prefix and the new carry-over split the pending data
    ensures s.bytes + s.rb == Pending(rb, incoming)
    // a short read only when the pending data is used up
    ensures s.n == cap || s.rb == []
    // with carry-over left: no receive, no error
    ensures rb != [] ==> s.incoming == incoming && s.err == None
    // without: one receive, and its error is the call's error
    ensures rb == [] ==> s.incoming == incoming[1..] && s.err == incoming[0].err
  {
    var p := Pending(rb, incoming);
    var n := Min(cap, |p|);
    Step(n, p[..n], p[n..],
         if rb == [] then incoming[1..] else incoming,
         if rb == [] then incoming[0].err else None)
  }

  /** What a sequence of Read calls returns: per call the count and the
      error, all the bytes handed out, the receive results consumed, and the
      final carry-over and receive queue. */
  datatype Run = Run(counts: seq<nat>, errs: seq<Option<Error>>, delivered: seq<byte>,
                     received: seq<Received>, rb: seq<byte>, incoming: seq<Received>)

  /** Successive Reads with buffers of capacities `caps`. The run stops
      before a call that would wait for ever: one with no carry-over and no
      receive result left. */
  function Reads(rb: seq<byte>, incoming: seq<Received>, caps: seq<nat>): (r: Run)
    ensures |r.counts| == |r.errs| <= |caps|
    // every call returns unless the run ran out of data to hand out
    ensures |r.counts| == |caps| || (r.rb == [] && r.incoming == [])
    decreases |caps|
  {
    if caps == [] || (rb == [] && incoming == []) then
      Run([], [], [], [], rb, incoming)
    else
      var s := ReadStep(rb, incoming, caps[0]);
      var rest := Reads(s.rb, s.incoming, caps[1..]);
      Run([s.n] + rest.counts, [s.err] + rest.errs, s.bytes + rest.delivered,
          (if rb == [] then [incoming[0]] else []) + rest.received,
          rest.rb, rest.incoming)
  }

  /** The bytes handed out and the carry-over left by a run, against the
      carry-over it started from and the receive results it consumed. */
  ghost predicate KeepsStream(rb: seq<byte>, incoming: seq<Received>, r: Run)
  {
    incoming == r.received + r.incoming && r.delivered + r.rb == rb + Payloads(r.received)
  }

  /** One Read keeps the stream: it takes at most the next receive result
      off the queue, and the bytes it copies followed by the new carry-over
      are the old carry-over followed by that result's payload. */
  lemma ReadStepKeepsStream(rb: seq<byte>, incoming: seq<Received>, cap: nat)
    requires rb != [] || incoming != []
    ensures var s := ReadStep(rb, incoming, cap);
            var taken := if rb == [] then [incoming[0]] else [];
            incoming == taken + s.incoming && s.bytes + s.rb == rb + Payloads(taken)
  {
    if rb == [] {
      assert incoming == [incoming[0]] + incoming[1..];
      assert Payloads([incoming[0]]) == incoming[0].payload + Payloads([]);
    }
  }

  /** The stream property: whatever the buffer sizes, the bytes handed out
      followed by the carry-over are the starting carry-over followed by the
      payloads of the messages received, in arrival order, and the messages
      received are a prefix of the queue. Nothing is dropped, duplicated or
      reordered. */
  lemma {:induction false} ReadsPreserveStream(rb: seq<byte>, incoming: seq<Received>, caps: seq<nat>)
    ensures KeepsStream(rb, incoming, Reads(rb, incoming, caps))
    decreases |caps|
  {
    if caps != [] && (rb != [] || incoming != []) {
      var s := ReadStep(rb, incoming, caps[0]);
      ReadStepKeepsStream(rb, incoming, caps[0]);
      ReadsPreserveStream(s.rb, s.incoming, caps[1..]);
      ReadsCons(rb, incoming, caps);
      KeepsStreamCompose(rb, incoming, if rb == [] then [incoming[0]] else [], s,
                         Reads(s.rb, s.incoming, caps[1..]), Reads(rb, incoming, caps));
    }
  }

  /** A run that makes at least one call: that call's step, then the rest. */
  lemma ReadsCons(rb: seq<byte>, incoming: seq<Received>, caps: seq<nat>)
    requires caps != [] && (rb != [] || incoming != [])
    ensures var s := ReadStep(rb, incoming, caps[0]);
            var rest := Reads(s.rb, s.incoming, caps[1..]);
            var r := Reads(rb, incoming, caps);
            r.counts == [s.n] + rest.counts && r.errs == [s.err] + rest.errs
            && r.delivered == s.bytes + rest.delivered && r.rb == rest.rb && r.incoming == rest.incoming
            && r.received == (if rb == [] then [incoming[0]] else []) + rest.received
  {
  }

  /** A step `s` that takes `taken` off the queue and keeps the stream,
      followed by a run `rest` that keeps it: the combined run `r` keeps the
      stream too. */
  lemma KeepsStreamCompose(rb: seq<byte>, incoming: seq<Received>, taken: seq<Received>,
                           s: Step, rest: Run, r: Run)
    requires incoming == taken + s.incoming && s.bytes + s.rb == rb + Payloads(taken)
    requires KeepsStream(s.rb, s.incoming, rest)
    requires r.delivered == s.bytes + rest.delivered && r.rb == rest.rb && r.incoming == rest.incoming
    requires r.received == taken + rest.received
    ensures KeepsStream(rb, incoming, r)
  {
    PayloadsAppend(taken, rest.received);
    Regroup(s.bytes, s.rb, rest.delivered, rest.rb, rb, Payloads(taken), Payloads(rest.received));
  }

  /** Regrouping concatenations: if `a + b` is `x + y` and `c + d` is
      `b + z`, then `(a + c) + d` is `x + (y + z)`. */
  lemma Regroup<T>(a: seq<T>, b: seq<T>, c: seq<T>, d: seq<T>, x: seq<T>, y: seq<T>, z: seq<T>)
    requires a + b == x + y && c + d == b + z
    ensures (a + c) + d == x + (y + z)
  {
    calc {
      (a + c) + d;
      a + (c + d);
      a + (b + z);
      (a + b) + z;
      (x + y) + z;
    }
  }

  /** A receive of a zero-length message makes that Read return 0 and no
      error and leaves nothing carried over, so the next Read receives the
      following message instead of returning without one. */
  lemma ZeroLengthMessage(incoming: seq<Received>, cap1: nat, cap2: nat)
    requires |incoming| >= 2 && incoming[0].payload == [] && incoming[0].err == None
    ensures ReadStep([], incoming, cap1).n == 0
    ensures ReadStep([], incoming, cap1).err == None
    ensures ReadStep([], incoming, cap1).rb == []
    ensures ReadStep([], incoming, cap1).incoming == incoming[1..]
    ensures ReadStep(ReadStep([], incoming, cap1).rb, incoming[1..], cap2).incoming == incoming[2..]
  {
  }

  /** A Read with an empty buffer and no carry-over still receives a
      message; it returns 0 and keeps the whole payload. */
  lemma EmptyBufferRead(incoming: seq<Received>)
    requires incoming != []
    ensures ReadStep([], incoming, 0).n == 0
    ensures ReadStep([], incoming, 0).rb == incoming[0].payload
    ensures ReadStep([], incoming, 0).incoming == incoming[1..]
  {
  }

  /** `k` copies of `x`. */
  function Repeat<T>(x: T, k: nat): (r: seq<T>)
    ensures |r| == k && forall i :: 0 <= i < k ==> r[i] == x
  {
    if k == 0 then [] else [x] + Repeat(x, k - 1)
  }

  /** The sizes of the pieces `len` bytes come out in through a buffer of
      capacity `cap`: full buffers, then what is left. */
  function Chunks(len: nat, cap: nat): (r: seq<nat>)
    requires len > 0 && cap > 0
    decreases len
  {
    if len <= cap then [len] else [cap] + Chunks(len - cap, cap)
  }

  /** Draining a carry-over through buffers of one capacity: the Reads
      return full buffers and then the rest, with no error and no receive,
      and leave nothing carried over. */
  lemma {:induction false} DrainCarryOver(t: seq<byte>, incoming: seq<Received>, cap: nat)
    requires t != [] && cap > 0
    ensures var k := |Chunks(|t|, cap)|;
            Reads(t, incoming, Repeat(cap, k)) == Run(Chunks(|t|, cap), Repeat<Option<Error>>(None, k), t, [], [], incoming)
    decreases |t|
  {
    var k := |Chunks(|t|, cap)|;
    var caps := Repeat(cap, k);
    var s := ReadStep(t, incoming, cap);
    ReadsCons(t, incoming, caps);
    if |t| <= cap {
      assert s.rb == [] && s.bytes == t;
      assert caps[1..] == [];
    } else {
      assert s.bytes == t[..cap] && s.rb == t[cap..];
      DrainCarryOver(t[cap..], incoming, cap);
      assert caps[1..] == Repeat(cap, k - 1);
      assert Repeat<Option<Error>>(None, k) == [None] + Repeat<Option<Error>>(None, k - 1);
      assert t == t[..cap] + t[cap..];
    }
  }

  /** The first Read of a message through a buffer of capacity `cap`
      copies the first chunk; the carry-over it leaves drains in the
      remaining chunks with no error. */
  lemma FirstChunk(m: Received, rest: seq<Received>, cap: nat)
    requires m.payload != [] && cap > 0
    ensures var chunks := Chunks(|m.payload|, cap);
            var s := ReadStep([], [m] + rest, cap);
            s.n == chunks[0] && s.err == m.err && s.incoming == rest
            && Reads(s.rb, rest, Repeat(cap, |chunks| - 1))
               == Run(chunks[1..], Repeat<Option<Error>>(None, |chunks| - 1), s.rb, [], [], rest)
  {
    var p := m.payload;
    var chunks := Chunks(|p|, cap);
    var s := ReadStep([], [m] + rest, cap);
    assert ([m] + rest)[1..] == rest;
    if |p| <= cap {
      assert s.rb == [];
    } else {
      assert chunks == [cap] + Chunks(|p| - cap, cap);
      assert s.rb == p[cap..];
      DrainCarryOver(p[cap..], rest, cap);
    }
  }

  /** Reading one non-empty message through buffers of one capacity, from
      no carry-over: the first Read receives it and reports the receive's
      error, the Reads return full buffers and then the rest, and afterwards
      nothing is carried over. */
  lemma DrainMessage(m: Received, rest: seq<Received>, cap: nat)
    requires m.payload != [] && cap > 0
    ensures var k := |Chunks(|m.payload|, cap)|;
            Reads([], [m] + rest, Repeat(cap, k))
            == Run(Chunks(|m.payload|, cap), [m.err] + Repeat<Option<Error>>(None, k - 1), m.payload, [m], [], rest)
  {
    var p := m.payload;
    var chunks := Chunks(|p|, cap);
    var k := |chunks|;
    var q := [m] + rest;
    var caps := Repeat(cap, k);
    assert caps[1..] == Repeat(cap, k - 1);
    var s := ReadStep([], q, cap);
    FirstChunk(m, rest, cap);
    ReadStepKeepsStream([], q, cap);
    ReadsCons([], q, caps);
    assert [s.n] + chunks[1..] == chunks;
    assert [q[0]] + [] == [m];
  }

  /** A ten-byte message read through a three-byte buffer comes out as
      3, 3, 3 and 1 bytes, after which nothing is carried over, so the fifth
      Read receives the next message. */
  lemma SmallBufferDraining(m: Received, rest: seq<Received>)
    requires |m.payload| == 10 && m.err == None
    ensures Reads([], [m] + rest, [3, 3, 3, 3]).counts == [3, 3, 3, 1]
    ensures Reads([], [m] + rest, [3, 3, 3, 3]).errs == [None, None, None, None]
    ensures Reads([], [m] + rest, [3, 3, 3, 3]).delivered == m.payload
    ensures Reads([], [m] + rest, [3, 3, 3, 3]).rb == []
    ensures Reads([], [m] + rest, [3, 3, 3, 3]).incoming == rest
  {
    assert Chunks(10, 3) == [3, 3, 3, 1] by {
      assert Chunks(4, 3) == [3] + Chunks(1, 3);
    }
    assert Repeat(3, 4) == [3, 3, 3, 3];
    assert Repeat<Option<Error>>(None, 3) == [None, None, None];
    DrainMessage(m, rest, 3);
  }

  /** When every receive fails and brings no payload, every Read of a run
      that starts without carry-over returns an error and hands out nothing. */
  lemma {:induction false} FailurePropagation(incoming: seq<Received>, caps: seq<nat>)
    requires forall i :: 0 <= i < |incoming| ==> incoming[i].err.Some? && incoming[i].payload == []
    ensures forall k :: 0 <= k < |Reads([], incoming, caps).errs| ==> Reads([], incoming, caps).errs[k].Some?
    ensures Reads([], incoming, caps).delivered == []
    decreases |caps|
  {
    if caps != [] && incoming != [] {
      var s := ReadStep([], incoming, caps[0]);
      assert s.rb == [] && s.incoming == incoming[1..];
      FailurePropagation(incoming[1..], caps[1..]);
    }
  }

  /** The payload that comes with a failed receive is still handed out: the
      Read after a failure that returned one byte returns that byte and no
      error. */
  lemma PayloadWithErrorIsDelivered(e: Error)
    ensures Reads([], [Received(BinaryMessage, [7], Some(e))], [0, 1]).errs == [Some(e), None]
    ensures Reads([], [Received(BinaryMessage, [7], Some(e))], [0, 1]).delivered == [7]
  {
    var q := [Received(BinaryMessage, [7], Some(e))];
    var s1 := ReadStep([], q, 0);
    assert s1.rb == [7] && s1.incoming == [];
    assert [0, 1][1..] == [1];
    var s2 := ReadStep([7], [], 1);
    assert s2.n == 1 && s2.rb == [] && s2.err == None;
    assert [1][1..] == [];
  }

  /** Handing out `x` from pending data `x + y` keeps the stream. */
  lemma SplitAfter<T>(d: seq<T>, x: seq<T>, y: seq<T>)
    ensures (d + x) + y == d + (x + y)
    ensures (x + y)[..|x|] == x && (x + y)[|x|..] == y
  {
  }

  /** Go's built-in `copy` into the caller's buffer: copies as many bytes as
      both sides have and leaves the rest of the buffer as it was. */
  method Copy(dst: array<byte>, src: seq<byte>) returns (n: nat)
    modifies dst
    ensures n == Min(dst.Length, |src|)
    ensures dst[..n] == src[..n]
    ensures forall k :: n <= k < dst.Length ==> dst[k] == old(dst[k])
  {
    n := Min(dst.Length, |src|);
    var i := 0;
    while i < n
      invariant 0 <= i <= n
      invariant forall k :: 0 <= k < i ==> dst[k] == src[k]
      invariant forall k :: i <= k < dst.Length ==> dst[k] == old(dst[k])
    {
      dst[i] := src[i];
      i := i + 1;
    }
  }

  /** The adapter. `delivered` is the ghost record of every byte Read has
      handed out. */
  class WebsocketConn {
    const conn: Conn
    var rb: seq<byte>
    ghost var delivered: seq<byte>

    /** The bytes handed out, followed by the carry-over, are the payloads
        received on the connection so far, in order. */
    ghost predicate Valid()
      reads this, conn
      // the carry-over is exactly the received bytes not handed out yet
      ensures Valid() ==> |delivered| <= |Payloads(ReceivedIn(conn.log))|
                          && rb == Payloads(ReceivedIn(conn.log))[|delivered|..]
    {
      delivered + rb == Payloads(ReceivedIn(conn.log))
    }

    /** Wraps a freshly upgraded connection on which nothing has been
        received yet. */
    constructor (conn: Conn)
      requires conn.log == []
      ensures this.conn == conn && rb == [] && delivered == []
      ensures Valid()
    {
      this.conn := conn;
      rb := [];
      delivered := [];
    }

    method Read(b: array<byte>) returns (n: nat, err: Option<Error>)
      requires Valid()
      // a receive waits until the connection has a result to hand back
      requires rb != [] || conn.incoming != []
      modifies this`rb, this`delivered, conn`incoming, conn`log, b
      ensures Valid()
      ensures var s := ReadStep(old(rb), old(conn.incoming), b.Length);
              n == s.n && b[..n] == s.bytes && rb == s.rb && conn.incoming == s.incoming && err == s.err
      ensures forall k :: n <= k < b.Length ==> b[k] == old(b[k])
      ensures conn.log == if old(rb) == [] then old(conn.log) + [Receive(old(conn.incoming[0]))]
                          else old(conn.log)
      ensures delivered == old(delivered) + b[..n]
    {
      ghost var step := ReadStep(rb, conn.incoming, b.Length);
      err := None;
      if |rb| == 0 {
        var kind;
        kind, rb, err := conn.ReadMessage();
        ReceiveExtendsPayloads(old(conn.log), delivered, old(conn.incoming[0]));
      }
      assert rb == step.bytes + step.rb;
      n := Copy(b, rb);
      SplitAfter(delivered, step.bytes, step.rb);
      delivered := delivered + b[..n];
      rb := rb[n..];
    }

    method Write(b: array<byte>) returns (n: nat, err: Option<Error>)
      requires Valid()
      modifies conn`log
      ensures Valid()
      ensures n == b.Length && err == conn.sendErr
      ensures conn.log == old(conn.log) + [Send(BinaryMessage, b[..], err)]
      ensures SentIn(conn.log) == SentIn(old(conn.log)) + [b[..]]
    {
      err := conn.WriteMessage(BinaryMessage, b[..]);
      n := b.Length;
      ReceivedInSnoc(old(conn.log), Send(BinaryMessage, b[..], err));
      SentInSnoc(old(conn.log), Send(BinaryMessage, b[..], err));
      assert ReceivedIn(conn.log) == ReceivedIn(old(conn.log));
    }

    method SetDeadline(t: Time) returns (err: Option<Error>)
      requires Valid()
      modifies conn`readDeadline, conn`writeDeadline, conn`log
      ensures Valid()
      ensures conn.readDeadlineErr.Some? ==>
                err == conn.readDeadlineErr
                && conn.log == old(conn.log) + [ReadDeadlineSet(t, err)]
                && conn.readDeadline == old(conn.readDeadline)
                && conn.writeDeadline == old(conn.writeDeadline)
      ensures conn.readDeadlineErr.None? ==>
                err == conn.writeDeadlineErr
                && conn.log == old(conn.log) + [ReadDeadlineSet(t, None), WriteDeadlineSet(t, err)]
                && conn.readDeadline == t
                && conn.writeDeadline == (if err.None? then t else old(conn.writeDeadline))
    {
      err := SetReadDeadline(t);
      if err.Some? {
        return;
      }
      err := SetWriteDeadline(t);
    }

    method SetReadDeadline(t: Time) returns (err: Option<Error>)
      requires Valid()
      modifies conn`readDeadline, conn`log
      ensures Valid()
      ensures err == conn.readDeadlineErr
      ensures conn.readDeadline == if err.None? then t else old(conn.readDeadline)
      ensures conn.log == old(conn.log) + [ReadDeadlineSet(t, err)]
    {
      err := conn.SetReadDeadline(t);
      ReceivedInSnoc(old(conn.log), ReadDeadlineSet(t, err));
      assert ReceivedIn(conn.log) == ReceivedIn(old(conn.log));
    }

    method SetWriteDeadline(t: Time) returns (err: Option<Error>)
      requires Valid()
      modifies conn`writeDeadline, conn`log
      ensures Valid()
      ensures err == conn.writeDeadlineErr
      ensures conn.writeDeadline == if err.None? then t else old(conn.writeDeadline)
      ensures conn.log == old(conn.log) + [WriteDeadlineSet(t, err)]
    {
      err := conn.SetWriteDeadline(t);
      ReceivedInSnoc(old(conn.log), WriteDeadlineSet(t, err));
      assert ReceivedIn(conn.log) == ReceivedIn(old(conn.log));
    }
  }
}
