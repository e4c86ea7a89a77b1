/** TcpTransport: whole messages over a byte stream that arrives, and is accepted, in pieces. */
module Framing {
  import opened Bytes

  const HEADER_SIZE: nat := 16
  const MAX_PAYLOAD: nat := 0x100_0000

  /** The payload_size field, at offset 8 of a header. */
  function PayloadSize(b: bytes): nat
    requires |b| >= HEADER_SIZE
  {
    FromLe(b[8..12])
  }

  /** A header whose size field is right for the bytes that follow, as every message constructor makes it. */
  predicate Framed(msg: bytes) {
    |msg| >= HEADER_SIZE && |msg| == HEADER_SIZE + PayloadSize(msg)
  }

  predicate WellFormed(msg: bytes) {
    Framed(msg) && PayloadSize(msg) <= MAX_PAYLOAD
  }

  /** What the kernel answers to one recv: some non-empty bytes, EINTR, or another error. When the list of
      answers is used up the peer has closed the connection. */
  datatype RecvEvent = Data(b: bytes) | Interrupted | Failed

  /** What the kernel answers to one send: how many bytes it takes at most, EINTR, or another error. */
  datatype SendEvent = Takes(n: nat) | SendInterrupted | SendFailed

  function Flatten(events: seq<RecvEvent>): bytes {
    if events == [] then []
    else (if events[0].Data? then events[0].b else []) + Flatten(events[1..])
  }

  predicate NoFailures(events: seq<RecvEvent>) {
    Failed !in events
  }

  /** receive: a message, "no more" (false), or an exception. */
  datatype Received = Message(b: bytes) | Closed | Broken

  /** What receive does to the byte stream, however the stream is cut up. */
  function Frame(b: bytes): (r: Received)
    ensures r.Message? ==> WellFormed(r.b)
  {
    if |b| < HEADER_SIZE then Closed
    else if PayloadSize(b) > MAX_PAYLOAD || |b| < HEADER_SIZE + PayloadSize(b) then Broken
    else
      var m := b[..HEADER_SIZE + PayloadSize(b)];
      assert m[8..12] == b[8..12];
      Message(m)
  }

  function AfterFrame(b: bytes): bytes {
    if |b| < HEADER_SIZE then []
    else if PayloadSize(b) > MAX_PAYLOAD then b[HEADER_SIZE..]
    else if |b| < HEADER_SIZE + PayloadSize(b) then []
    else b[HEADER_SIZE + PayloadSize(b)..]
  }

  datatype Filled = Full | Eof | RecvError

  class TcpTransport {
    var incoming: seq<RecvEvent>
    var answers: seq<SendEvent>
    var outgoing: bytes

    ghost predicate Valid()
      reads this
    {
      forall e :: e in incoming && e.Data? ==> e.b != []
    }

    ghost function Pending(): bytes
      reads this
    {
      Flatten(incoming)
    }

    constructor (incoming: seq<RecvEvent>, answers: seq<SendEvent>)
      requires forall e :: e in incoming && e.Data? ==> e.b != []
      ensures Valid() && this.incoming == incoming && this.answers == answers && outgoing == []
    {
      this.incoming, this.answers, this.outgoing := incoming, answers, [];
    }

    /** One recv call for at most n bytes; no bytes at all means the peer closed. */
    method Recv(n: nat) returns (e: RecvEvent)
      requires Valid() && n > 0
      modifies this`incoming
      ensures Valid()
      ensures e.Data? ==> |e.b| <= n && old(Pending()) == e.b + Pending()
      ensures !e.Data? ==> Pending() == old(Pending()) && e in old(incoming)
      ensures e.Data? && e.b == [] <==> old(incoming) == []
      ensures e.Data? && e.b == [] ==> Pending() == []
      ensures forall x :: x in incoming && !x.Data? ==> x in old(incoming)
      ensures old(incoming) != [] ==> |Pending()| + |incoming| < |old(Pending())| + |old(incoming)|
    {
      if incoming == [] {
        return Data([]);
      }
      e := incoming[0];
      if e.Data? && |e.b| > n {
        e := Data(incoming[0].b[..n]);
        var left := [Data(incoming[0].b[n..])] + incoming[1..];
        assert left[1..] == incoming[1..];
        incoming := left;
      } else {
        incoming := incoming[1..];
      }
    }

    /** The recv loop for a header or a payload: asks for the missing bytes until all n are there. */
    method Fill(n: nat) returns (status: Filled, b: bytes)
      requires Valid()
      modifies this`incoming
      ensures Valid() && old(Pending()) == b + Pending() && |b| <= n
      ensures status.Full? <==> |b| == n
      ensures status.Eof? ==> Pending() == []
      ensures NoFailures(old(incoming)) ==> !status.RecvError? && NoFailures(incoming)
    {
      b := [];
      while |b| < n
        invariant Valid() && |b| <= n
        invariant old(Pending()) == b + Pending()
        invariant NoFailures(old(incoming)) ==> NoFailures(incoming)
        decreases |Pending()| + |incoming|
      {
        var e := Recv(n - |b|);
        match e {
          case Interrupted =>
          case Failed => return RecvError, b;
          case Data(d) =>
            if d == [] {
              return Eof, b;
            }
            b := b + d;
        }
      }
      status := Full;
    }

    /** One whole message. Without recv errors the outcome depends on the bytes alone, not on how they arrive. */
    method Receive() returns (r: Received)
      requires Valid()
      modifies this`incoming
      ensures Valid()
      ensures (r == Frame(old(Pending())) && Pending() == AfterFrame(old(Pending()))) || (r.Broken? && !NoFailures(old(incoming)))
      ensures NoFailures(old(incoming)) ==> NoFailures(incoming)
    {
      var status, header := Fill(HEADER_SIZE);
      if status.Eof? {
        return Closed;
      }
      if status.RecvError? {
        return Broken;
      }
      var size := PayloadSize(header);
      ghost var stream := old(Pending());
      assert stream[..HEADER_SIZE] == header && stream[HEADER_SIZE..] == Pending();
      assert stream[8..12] == header[8..12];
      if size > MAX_PAYLOAD {
        return Broken;
      }
      var payload;
      status, payload := Fill(size);
      if !status.Full? {
        return Broken;
      }
      assert stream == header + payload + Pending();
      r := Message(header + payload);
    }

    /** The send loop: what the kernel has taken is always a prefix, and all of it when no error was reported. */
    method Send(msg: bytes) returns (ok: bool)
      modifies this`answers, this`outgoing
      ensures ok ==> outgoing == old(outgoing) + msg
      ensures !ok ==> exists k :: 0 <= k < |msg| && outgoing == old(outgoing) + msg[..k]
      ensures SendFailed !in old(answers) && Takes(0) !in old(answers) ==> ok
    {
      var offset := 0;
      ok := true;
      while offset < |msg|
        invariant 0 <= offset <= |msg| && ok
        invariant outgoing == old(outgoing) + msg[..offset]
        invariant forall a :: a in answers ==> a in old(answers)
        decreases |msg| - offset, |answers|
      {
        var taken := |msg| - offset;
        if answers != [] {
          var a := answers[0];
          answers := answers[1..];
          match a {
            case SendInterrupted => continue;
            case SendFailed => return false;
            case Takes(n) =>
              if n == 0 {
                return false;
              }
              taken := if n < taken then n else taken;
          }
        }
        assert msg[..offset] + msg[offset..offset + taken] == msg[..offset + taken];
        outgoing := outgoing + msg[offset..offset + taken];
        offset := offset + taken;
      }
    }
  }

  // ---------------------------------------------------------------- sequences of messages

  function Concat(msgs: seq<bytes>): bytes {
    if msgs == [] then [] else msgs[0] + Concat(msgs[1..])
  }

  predicate AllWellFormed(msgs: seq<bytes>) {
    forall k :: 0 <= k < |msgs| ==> WellFormed(msgs[k])
  }

  lemma FrameOfMessage(msg: bytes, rest: bytes)
    requires WellFormed(msg)
    ensures Frame(msg + rest) == Message(msg) && AfterFrame(msg + rest) == rest
  {
    assert (msg + rest)[8..12] == msg[8..12];
    assert (msg + rest)[..|msg|] == msg && (msg + rest)[|msg|..] == rest;
  }

  /** A message is accepted exactly as framed, or its declared size is wrong for it or over 16 MB. */
  lemma FrameExactlyIff(msg: bytes, rest: bytes)
    requires |msg| >= HEADER_SIZE
    ensures (Frame(msg + rest) == Message(msg)) <==> WellFormed(msg)
  {
    assert (msg + rest)[8..12] == msg[8..12];
    if WellFormed(msg) {
      FrameOfMessage(msg, rest);
    }
  }

  /** The messages repeated receive finds in a byte stream, and how it stops. */
  function Frames(b: bytes): (r: (seq<bytes>, Received))
    ensures !r.1.Message?
  {
    match Frame(b)
    case Message(m) => var rest := Frames(AfterFrame(b)); ([m] + rest.0, rest.1)
    case other => ([], other)
  }

  /** Concatenated well-formed messages come back one by one, in order, followed by the clean end. */
  lemma {:induction false} FramesOfConcat(msgs: seq<bytes>)
    requires AllWellFormed(msgs)
    ensures Frames(Concat(msgs)) == (msgs, Closed)
  {
    if msgs != [] {
      FrameOfMessage(msgs[0], Concat(msgs[1..]));
      FramesOfConcat(msgs[1..]);
      assert [msgs[0]] + msgs[1..] == msgs;
    }
  }

  /** A stream that ends inside a message: the messages ahead of the break come back, then a clean end when not even
      the header of the next one is complete, and an exception behind its header. */
  lemma {:induction false} StreamCutShort(msgs: seq<bytes>, msg: bytes, k: nat)
    requires AllWellFormed(msgs) && WellFormed(msg) && k < |msg|
    ensures Frames(Concat(msgs) + msg[..k]) == (msgs, if k < 16 then Closed else Broken)
  {
    if msgs == [] {
      assert Concat(msgs) + msg[..k] == msg[..k];
      if k >= 16 {
        assert msg[..k][8..12] == msg[8..12];
      }
    } else {
      var rest := Concat(msgs[1..]) + msg[..k];
      assert Concat(msgs) + msg[..k] == msgs[0] + rest;
      FrameOfMessage(msgs[0], rest);
      StreamCutShort(msgs[1..], msg, k);
      assert [msgs[0]] + msgs[1..] == msgs;
    }
  }

  /** Repeated receive: its result depends only on the bytes, whatever the sizes of the pieces they arrive in. */
  method ReceiveAll(t: TcpTransport) returns (got: seq<bytes>, last: Received)
    requires t.Valid()
    modifies t`incoming
    ensures NoFailures(old(t.incoming)) ==> (got, last) == Frames(old(t.Pending()))
  {
    got := [];
    ghost var whole := Frames(t.Pending());
    assert [] + whole.0 == whole.0;
    while true
      invariant t.Valid() && (NoFailures(old(t.incoming)) ==> NoFailures(t.incoming))
      invariant NoFailures(old(t.incoming)) ==>
          var rest := Frames(t.Pending()); whole == (got + rest.0, rest.1)
      decreases |t.Pending()|
    {
      ghost var before := t.Pending();
      last := t.Receive();
      if !last.Message? {
        assert got + [] == got;
        break;
      }
      ghost var rest := Frames(t.Pending());
      assert got + ([last.b] + rest.0) == (got + [last.b]) + rest.0;
      got := got + [last.b];
    }
  }

  /** Sending messages one after the other, with partial sends, puts exactly their concatenation on the wire. */
  method SendAll(t: TcpTransport, msgs: seq<bytes>) returns (ok: bool)
    modifies t`answers, t`outgoing
    ensures ok ==> t.outgoing == old(t.outgoing) + Concat(msgs)
  {
    ok := true;
    ghost var start := t.outgoing;
    var i := 0;
    while i < |msgs|
      invariant 0 <= i <= |msgs| && ok
      invariant start + Concat(msgs) == t.outgoing + Concat(msgs[i..])
    {
      ok := t.Send(msgs[i]);
      if !ok {
        return;
      }
      assert msgs[i..][1..] == msgs[i + 1..];
      i := i + 1;
    }
  }
}
