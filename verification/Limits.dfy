/** What the size limits do to a connection: a peer reads back exactly the messages ahead of the first one it cannot
    take, and from then on reads from inside that message's payload. */
module Limits {
  import opened Bytes
  import opened Framing
  import opened Wire

  /** encode_string refuses longer texts. */
  const MAX_TEXT: nat := 0x10_0000

  function RequestSize(r: Request): nat {
    match r
    case Call(_, _, args) => 4 + |args|
    case Create(_, _, args) => 8 + |args|
    case PropGet(_, _, _) => 12
    case PropSet(_, _, _, value) => 12 + |value|
    case ObjectCall(_, _, _, args) => 12 + |args|
  }

  /** The payload size of a message. */
  function UpSize(m: ToServer): nat {
    match m
    case Ask(_, r) => RequestSize(r)
    case Release(_, _) => 8
    case Subscribe(_, _, _) => 12
    case Unsubscribe(_, _, _) => 12
    case Shutdown => 0
    case InitAck(_, _, _) => 16
  }

  function DownSize(m: ToClient): nat {
    match m
    case Result(_, payload) => |payload|
    case Error(_, _, text) => 6 + |text|
    case Stream(_, chunk) => |chunk|
    case StreamEnd(_) => 0
    case Notify(_, _, _, value) => 12 + |value|
  }

  /** Messages the service can take. */
  predicate SendableUp(m: ToServer) { ToServerFits(m) && UpSize(m) <= MAX_PAYLOAD }

  /** Messages the client can take. */
  predicate Sendable(m: ToClient) { ToClientFits(m) && DownSize(m) <= MAX_PAYLOAD }

  predicate AllSendable(ms: seq<ToClient>) { forall k :: 0 <= k < |ms| ==> Sendable(ms[k]) }

  /** Fields in range, and less than 4 GB, so that the size field does not wrap. */
  predicate Encodable(m: ToClient) { ToClientFits(m) && DownSize(m) < U32_COUNT }

  predicate EncodableUp(m: ToServer) { ToServerFits(m) && UpSize(m) < U32_COUNT }

  /** What the client can still take in: everything ahead of the first message that is too large. */
  function Readable(ms: seq<ToClient>): (r: seq<ToClient>)
    ensures |r| <= |ms| && r == ms[..|r|] && AllSendable(r)
    ensures |r| < |ms| ==> !Sendable(ms[|r|])
  {
    if ms == [] || !Sendable(ms[0]) then [] else [ms[0]] + Readable(ms[1..])
  }

  function ReadableUp(ms: seq<ToServer>): (r: seq<ToServer>)
    ensures |r| <= |ms| && r == ms[..|r|]
    ensures |r| < |ms| ==> !SendableUp(ms[|r|])
  {
    if ms == [] || !SendableUp(ms[0]) then [] else [ms[0]] + ReadableUp(ms[1..])
  }

  // ---------------------------------------------------------------- one message

  lemma RequestPayloadSize(r: Request)
    requires RequestFits(r)
    ensures |RequestPayload(r)| == RequestSize(r)
  {
    Sizes();
  }

  lemma FrameSize(kind: nat, seqId: nat, payload: bytes)
    requires kind < 256 && U32(seqId)
    ensures var b := FrameOf(kind, seqId, payload);
            |b| == HEADER_SIZE + |payload| && PayloadSize(b) == |payload| % U32_COUNT && b[HEADER_SIZE..] == payload
  {
    HeaderRoundTrip(kind, seqId, payload);
  }

  lemma DownFrameSize(m: ToClient)
    requires ToClientFits(m)
    ensures var b := EncodeToClient(m); |b| == HEADER_SIZE + DownSize(m) && PayloadSize(b) == DownSize(m) % U32_COUNT
  {
    hide FrameOf, PayloadSize;
    Sizes();
    match m
    case Result(s, payload) => FrameSize(0x03, s, payload);
    case Error(s, c, text) => FrameSize(0x04, s, Pack(ERROR_HEADER, [c, |text|]) + text);
    case Stream(s, chunk) => FrameSize(0x05, s, chunk);
    case StreamEnd(s) => FrameSize(0x06, s, []);
    case Notify(t, o, p, value) => FrameSize(0x10, 0, PropertyPayload(t, o, p, value));
  }

  lemma UpFrameSize(m: ToServer)
    requires ToServerFits(m)
    ensures var b := EncodeToServer(m); |b| == HEADER_SIZE + UpSize(m) && PayloadSize(b) == UpSize(m) % U32_COUNT
  {
    hide FrameOf, PayloadSize, RequestPayload;
    Sizes();
    match m
    case Ask(s, r) =>
      RequestPayloadSize(r);
      FrameSize(RequestKind(r), s, RequestPayload(r));
    case Release(t, o) => FrameSize(0x0A, 0, Pack(RELEASE_HEADER, [t, ObjectBits(o)]));
    case Subscribe(t, o, p) => FrameSize(0x0E, 0, PropertyPayload(t, o, p, []));
    case Unsubscribe(t, o, p) => FrameSize(0x0F, 0, PropertyPayload(t, o, p, []));
    case Shutdown => FrameSize(0x08, 0, []);
    case InitAck(f, c, caps) => FrameSize(0x0D, 0, Pack(INIT_HEADER, InitFields(f, c, caps, 0)));
  }

  /** A message crosses the wire as itself if and only if it is within the limit; a larger one makes receive throw behind
      the header, with the payload left to be read. */
  lemma CrossesIff(m: ToClient, rest: bytes)
    requires Encodable(m)
    ensures |EncodeToClient(m)| >= HEADER_SIZE
    ensures Sendable(m) ==> Frame(EncodeToClient(m) + rest) == Message(EncodeToClient(m)) && AfterFrame(EncodeToClient(m) + rest) == rest
                            && DecodeToClient(EncodeToClient(m)) == Good(m)
    ensures !Sendable(m) ==> Frame(EncodeToClient(m) + rest) == Broken
                             && AfterFrame(EncodeToClient(m) + rest) == EncodeToClient(m)[HEADER_SIZE..] + rest
  {
    hide EncodeToClient, DecodeToClient;
    DownFrameSize(m);
    var b := EncodeToClient(m);
    ToClientRoundTripIff(m);
    if Sendable(m) {
      FrameOfMessage(b, rest);
    } else {
      assert (b + rest)[8..12] == b[8..12] && (b + rest)[HEADER_SIZE..] == b[HEADER_SIZE..] + rest;
    }
  }

  lemma CrossesUpIff(m: ToServer, rest: bytes)
    requires EncodableUp(m)
    ensures |EncodeToServer(m)| >= HEADER_SIZE
    ensures SendableUp(m) ==> Frame(EncodeToServer(m) + rest) == Message(EncodeToServer(m))
                              && AfterFrame(EncodeToServer(m) + rest) == rest && DecodeToServer(EncodeToServer(m)) == Good(m)
    ensures !SendableUp(m) ==> Frame(EncodeToServer(m) + rest) == Broken
  {
    hide EncodeToServer, DecodeToServer;
    UpFrameSize(m);
    var b := EncodeToServer(m);
    ToServerRoundTrip(m);
    if SendableUp(m) {
      FrameOfMessage(b, rest);
    } else {
      assert (b + rest)[8..12] == b[8..12];
    }
  }

  // ---------------------------------------------------------------- whole channels

  function EncodeAll(ms: seq<ToClient>): (bs: seq<bytes>)
    requires forall k :: 0 <= k < |ms| ==> Encodable(ms[k])
    ensures |bs| == |ms|
  {
    if ms == [] then []
    else assert Encodable(ms[0]); [EncodeToClient(ms[0])] + EncodeAll(ms[1..])
  }

  function EncodeAllUp(ms: seq<ToServer>): (bs: seq<bytes>)
    requires forall k :: 0 <= k < |ms| ==> EncodableUp(ms[k])
    ensures |bs| == |ms|
  {
    if ms == [] then []
    else assert EncodableUp(ms[0]); [EncodeToServer(ms[0])] + EncodeAllUp(ms[1..])
  }

  function DecodeAll(bs: seq<bytes>): seq<Incoming<ToClient>> {
    if bs == [] then []
    else [if |bs[0]| < HEADER_SIZE then Malformed else DecodeToClient(bs[0])] + DecodeAll(bs[1..])
  }

  function DecodeAllUp(bs: seq<bytes>): seq<Incoming<ToServer>> {
    if bs == [] then []
    else [if |bs[0]| < HEADER_SIZE then Malformed else DecodeToServer(bs[0])] + DecodeAllUp(bs[1..])
  }

  function Goods<M>(ms: seq<M>): seq<Incoming<M>> { if ms == [] then [] else [Good(ms[0])] + Goods(ms[1..]) }

  /** Whatever a service sends, framing and decoding its bytes gives back exactly the messages ahead of the first one over
      the limit, and then a clean end if there is none, an exception if there is. */
  lemma {:induction false} ChannelReadsBack(ms: seq<ToClient>)
    requires forall k :: 0 <= k < |ms| ==> Encodable(ms[k])
    ensures var f := Frames(Concat(EncodeAll(ms)));
            DecodeAll(f.0) == Goods(Readable(ms)) && f.1 == if AllSendable(ms) then Closed else Broken
  {
    hide EncodeToClient, DecodeToClient, Frame, AfterFrame, Sendable, ToClientFits, DownSize;
    if ms == [] {
      assert Concat(EncodeAll(ms)) == [] && Frame([]) == Closed by { EmptyFrame(); }
    } else {
      var rest := Concat(EncodeAll(ms[1..]));
      CrossesIff(ms[0], rest);
      if Sendable(ms[0]) {
        ChannelReadsBack(ms[1..]);
        AllSendableStep(ms);
        assert EncodeAll(ms)[1..] == EncodeAll(ms[1..]);
        FramesStep(EncodeToClient(ms[0]), rest);
        var f := Frames(rest).0;
        assert ([EncodeToClient(ms[0])] + f)[1..] == f;
        assert ([ms[0]] + Readable(ms[1..]))[1..] == Readable(ms[1..]);
      } else {
        assert EncodeAll(ms)[1..] == EncodeAll(ms[1..]);
      }
    }
  }

  lemma EmptyFrame()
    ensures Frame([]) == Closed
  {
  }

  lemma FramesStep(b: bytes, rest: bytes)
    requires Frame(b + rest) == Message(b) && AfterFrame(b + rest) == rest
    ensures Frames(b + rest) == ([b] + Frames(rest).0, Frames(rest).1)
  {
    hide Frame, AfterFrame;
  }

  lemma AllSendableStep(ms: seq<ToClient>)
    requires ms != []
    ensures AllSendable(ms) <==> Sendable(ms[0]) && AllSendable(ms[1..])
  {
    hide Sendable;
    if Sendable(ms[0]) && AllSendable(ms[1..]) {
      forall k | 0 <= k < |ms|
        ensures Sendable(ms[k])
      {
        assert k > 0 ==> ms[k] == ms[1..][k - 1];
      }
    }
  }

  /** The same for what a client sends. */
  lemma {:induction false} UpChannelReadsBack(ms: seq<ToServer>)
    requires forall k :: 0 <= k < |ms| ==> EncodableUp(ms[k])
    ensures var f := Frames(Concat(EncodeAllUp(ms)));
            DecodeAllUp(f.0) == Goods(ReadableUp(ms)) && f.1 == if ReadableUp(ms) == ms then Closed else Broken
  {
    hide EncodeToServer, DecodeToServer, Frame, AfterFrame, SendableUp, ToServerFits, UpSize;
    if ms == [] {
      assert Concat(EncodeAllUp(ms)) == [] && Frame([]) == Closed by { EmptyFrame(); }
    } else {
      var rest := Concat(EncodeAllUp(ms[1..]));
      CrossesUpIff(ms[0], rest);
      assert EncodeAllUp(ms)[1..] == EncodeAllUp(ms[1..]);
      if SendableUp(ms[0]) {
        UpChannelReadsBack(ms[1..]);
        FramesStep(EncodeToServer(ms[0]), rest);
        var f := Frames(rest).0;
        assert ([EncodeToServer(ms[0])] + f)[1..] == f;
        assert ([ms[0]] + ReadableUp(ms[1..]))[1..] == ReadableUp(ms[1..]);
        assert [ms[0]] + ms[1..] == ms;
      }
    }
  }

  /** Behind a result over the limit the next receive reads from inside its payload: a frame put there is taken for a
      reply, whatever sequence id it carries. */
  lemma EmbeddedFrameIsRead(q: nat, next: nat, evil: bytes, pad: bytes, rest: bytes)
    requires U32(q) && Sendable(Result(next, evil))
    requires MAX_PAYLOAD < |EncodeToClient(Result(next, evil)) + pad| < U32_COUNT
    ensures var embedded := EncodeToClient(Result(next, evil));
            var wire := EncodeToClient(Result(q, embedded + pad)) + rest;
            && Frame(wire) == Broken && Frame(AfterFrame(wire)) == Message(embedded)
            && |embedded| >= HEADER_SIZE && DecodeToClient(embedded) == Good(Result(next, evil))
  {
    hide EncodeToClient, DecodeToClient, Frame, AfterFrame, PayloadSize;
    var embedded := EncodeToClient(Result(next, evil));
    var payload := embedded + pad;
    var m := Result(q, payload);
    CrossesIff(m, rest);
    ResultPayload(q, payload);
    assert payload + rest == embedded + (pad + rest);
    CrossesIff(Result(next, evil), pad + rest);
  }

  lemma ResultPayload(q: nat, payload: bytes)
    requires U32(q)
    ensures |EncodeToClient(Result(q, payload))| >= HEADER_SIZE && EncodeToClient(Result(q, payload))[HEADER_SIZE..] == payload
  {
    hide FrameOf;
    FrameSize(0x03, q, payload);
  }
}
