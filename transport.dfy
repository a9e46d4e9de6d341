/** The message-oriented connection that the stream adapter wraps.
    Only the interface the adapter uses is modelled: receiving one whole
    message, sending one message, and the two deadline setters. What the
    connection does on the wire is not modelled; instead the results it will
    hand back are fixed up front (a queue of receive results, the error a
    send or a deadline set currently yields) and every call it serves is
    recorded, with its outcome, in a call log. */
module MessageTransport {

  newtype byte = x: int | 0 <= x < 256

  datatype Option<+T> = None | Some(value: T)

  /** An error value passed through verbatim; `None` plays the role of nil. */
  datatype Error = Error(message: string)

  /** An opaque point in time, as given to the deadline setters. */
  datatype Time = Time(unixNanos: int)

  /** The data-frame kinds a receive can report (opcodes 0x1 and 0x2 of
      RFC 6455, section 5.6). */
  datatype MessageKind = TextMessage | BinaryMessage

  /** What one receive hands back: the kind, the payload and the error. The
      payload need not be empty when the error is set. */
  datatype Received = Received(kind: MessageKind, payload: seq<byte>, err: Option<Error>)

  /** One call served by the connection, with its outcome. */
  datatype Call =
    | Receive(got: Received)
    | Send(kind: MessageKind, data: seq<byte>, sendErr: Option<Error>)
    | ReadDeadlineSet(readAt: Time, readErr: Option<Error>)
    | WriteDeadlineSet(writeAt: Time, writeErr: Option<Error>)

  /** The results of the receive calls in a log, in call order. */
  function ReceivedIn(log: seq<Call>): (rs: seq<Received>)
    ensures |rs| <= |log|
  {
    if log == [] then []
    else
      var last := log[|log| - 1];
      ReceivedIn(log[..|log| - 1]) + (if last.Receive? then [last.got] else [])
  }

  /** The payloads of the send calls in a log, in call order. */
  function SentIn(log: seq<Call>): (ms: seq<seq<byte>>)
    ensures |ms| <= |log|
  {
    if log == [] then []
    else
      var last := log[|log| - 1];
      SentIn(log[..|log| - 1]) + (if last.Send? then [last.data] else [])
  }

  /** The payloads of a sequence of receive results, concatenated in order. */
  function Payloads(rs: seq<Received>): (s: seq<byte>)
  {
    if rs == [] then [] else rs[0].payload + Payloads(rs[1..])
  }

  /** Logging one more call adds its receive result, if any, at the end. */
  lemma ReceivedInSnoc(log: seq<Call>, c: Call)
    ensures ReceivedIn(log + [c]) == ReceivedIn(log) + (if c.Receive? then [c.got] else [])
  {
    assert (log + [c])[..|log|] == log;
  }

  /** A receive logged after the calls whose payloads are `d` appends its
      payload to `d`. */
  lemma ReceiveExtendsPayloads(log: seq<Call>, d: seq<byte>, got: Received)
    requires d == Payloads(ReceivedIn(log))
    ensures Payloads(ReceivedIn(log + [Receive(got)])) == d + got.payload
  {
    ReceivedInSnoc(log, Receive(got));
    PayloadsAppend(ReceivedIn(log), [got]);
    assert Payloads([got]) == got.payload + Payloads([]);
  }

  /** Logging one more call adds its sent payload, if any, at the end. */
  lemma SentInSnoc(log: seq<Call>, c: Call)
    ensures SentIn(log + [c]) == SentIn(log) + (if c.Send? then [c.data] else [])
  {
    assert (log + [c])[..|log|] == log;
  }

  /** The sends of a log split across two parts of it: each part's messages
      stay separate and in order. */
  lemma {:induction false} SentInAppend(a: seq<Call>, b: seq<Call>)
    ensures SentIn(a + b) == SentIn(a) + SentIn(b)
    decreases |b|
  {
    if b == [] {
      assert a + b == a;
    } else {
      var init := b[..|b| - 1];
      var last := b[|b| - 1];
      assert b == init + [last];
      assert a + b == (a + init) + [last];
      SentInAppend(a, init);
      SentInSnoc(a + init, last);
      SentInSnoc(init, last);
    }
  }

  /** Two sends logged one after the other are two messages, in order,
      never one merged message. */
  lemma TwoSendsStaySeparate(log: seq<Call>, first: seq<byte>, second: seq<byte>,
                             err1: Option<Error>, err2: Option<Error>)
    ensures SentIn(log + [Send(BinaryMessage, first, err1), Send(BinaryMessage, second, err2)])
         == SentIn(log) + [first, second]
  {
    var sends := [Send(BinaryMessage, first, err1), Send(BinaryMessage, second, err2)];
    SentInAppend(log, sends);
    assert sends == [sends[0]] + [sends[1]];
    SentInSnoc([sends[0]], sends[1]);
    SentInSnoc([], sends[0]);
    assert [] + [sends[0]] == [sends[0]];
  }

  /** Concatenating payloads distributes over appending results. */
  lemma {:induction false} PayloadsAppend(a: seq<Received>, b: seq<Received>)
    ensures Payloads(a + b) == Payloads(a) + Payloads(b)
    decreases |a|
  {
    if a == [] {
      assert a + b == b;
    } else {
      assert (a + b)[1..] == a[1..] + b;
      PayloadsAppend(a[1..], b);
    }
  }

  /** The connection. Its receive queue and scripted errors are set by the
      environment; the adapter only consumes the queue and adds to the log. */
  class Conn {
    /** The results the next receive calls will return, in order. */
    var incoming: seq<Received>
    /** The error every send currently returns (`None`: the send succeeds). */
    var sendErr: Option<Error>
    /** The error setting the read deadline currently returns. */
    var readDeadlineErr: Option<Error>
    /** The error setting the write deadline currently returns. */
    var writeDeadlineErr: Option<Error>
    var readDeadline: Time
    var writeDeadline: Time
    /** Every call served so far, with its outcome, in call order. */
    var log: seq<Call>

    constructor (incoming: seq<Received>, sendErr: Option<Error>,
                 readDeadlineErr: Option<Error>, writeDeadlineErr: Option<Error>)
      ensures this.incoming == incoming && this.sendErr == sendErr
      ensures this.readDeadlineErr == readDeadlineErr && this.writeDeadlineErr == writeDeadlineErr
      ensures readDeadline == Time(0) && writeDeadline == Time(0)
      ensures log == []
    {
      this.incoming := incoming;
      this.sendErr := sendErr;
      this.readDeadlineErr := readDeadlineErr;
      this.writeDeadlineErr := writeDeadlineErr;
      readDeadline, writeDeadline := Time(0), Time(0);
      log := [];
    }

    /** Receives one whole message: the head of the queue. */
    method ReadMessage() returns (kind: MessageKind, payload: seq<byte>, err: Option<Error>)
      requires incoming != []
      modifies this`incoming, this`log
      ensures Received(kind, payload, err) == old(incoming[0])
      ensures incoming == old(incoming[1..])
      ensures log == old(log) + [Receive(old(incoming[0]))]
    {
      var got := incoming[0];
      kind, payload, err := got.kind, got.payload, got.err;
      incoming := incoming[1..];
      log := log + [Receive(got)];
    }

    /** Sends `data` as one message of the given kind. */
    method WriteMessage(kind: MessageKind, data: seq<byte>) returns (err: Option<Error>)
      modifies this`log
      ensures err == sendErr
      ensures log == old(log) + [Send(kind, data, err)]
    {
      err := sendErr;
      log := log + [Send(kind, data, err)];
    }

    /** Sets the read deadline; a failed set leaves it as it was. */
    method SetReadDeadline(t: Time) returns (err: Option<Error>)
      modifies this`readDeadline, this`log
      ensures err == readDeadlineErr
      ensures readDeadline == if err.None? then t else old(readDeadline)
      ensures log == old(log) + [ReadDeadlineSet(t, err)]
    {
      err := readDeadlineErr;
      if err.None? {
        readDeadline := t;
      }
      log := log + [ReadDeadlineSet(t, err)];
    }

    /** Sets the write deadline; a failed set leaves it as it was. */
    method SetWriteDeadline(t: Time) returns (err: Option<Error>)
      modifies this`writeDeadline, this`log
      ensures err == writeDeadlineErr
      ensures writeDeadline == if err.None? then t else old(writeDeadline)
      ensures log == old(log) + [WriteDeadlineSet(t, err)]
    {
      err := writeDeadlineErr;
      if err.None? {
        writeDeadline := t;
      }
      log := log + [WriteDeadlineSet(t, err)];
    }
  }
}
