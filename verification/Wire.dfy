/** The message formats of src/wire.cpp: every frame a client or a service can build, byte for byte, and the
    decoders that read them back. */
module Wire {
  import opened Bytes
  import opened Framing

  const MAGIC: nat := 0x534F4E47

  // ---------------------------------------------------------------- fixed-width field lists

  predicate FieldsFit(widths: seq<nat>, values: seq<nat>) {
    |widths| == |values| && forall k :: 0 <= k < |widths| ==> values[k] < Pow256(widths[k])
  }

  function Size(widths: seq<nat>): nat {
    if widths == [] then 0 else widths[0] + Size(widths[1..])
  }

  function Pack(widths: seq<nat>, values: seq<nat>): (b: bytes)
    requires |widths| == |values|
    ensures |b| == Size(widths)
  {
    if widths == [] then [] else Le(values[0], widths[0]) + Pack(widths[1..], values[1..])
  }

  function Unpack(widths: seq<nat>, b: bytes): (values: seq<nat>)
    requires |b| >= Size(widths)
    ensures |values| == |widths|
  {
    if widths == [] then [] else [FromLe(b[..widths[0]])] + Unpack(widths[1..], b[widths[0]..])
  }

  lemma {:induction false} UnpackPack(widths: seq<nat>, values: seq<nat>, rest: bytes)
    requires FieldsFit(widths, values)
    ensures Unpack(widths, Pack(widths, values) + rest) == values
  {
    hide Le, FromLe;
    if widths != [] {
      var head, tail := Le(values[0], widths[0]), Pack(widths[1..], values[1..]);
      var b := Pack(widths, values) + rest;
      assert b[..widths[0]] == head;
      assert b[widths[0]..] == tail + rest;
      LeRoundTrip(values[0], widths[0]);
      UnpackPack(widths[1..], values[1..], rest);
    }
  }

  // ---------------------------------------------------------------- messages

  datatype Request =
    | Call(service: nat, method_: nat, args: bytes)
    | Create(typeId: nat, constructor_: nat, args: bytes)
    | PropGet(typeId: nat, object_: int, property: nat)
    | PropSet(typeId: nat, object_: int, property: nat, value: bytes)
    | ObjectCall(typeId: nat, object_: int, method_: nat, args: bytes)

  /** Client to service. Only requests carry a sequence id and are answered. */
  datatype ToServer =
    | Ask(seqId: nat, request: Request)
    | Release(typeId: nat, object_: int)
    | Subscribe(typeId: nat, object_: int, property: nat)
    | Unsubscribe(typeId: nat, object_: int, property: nat)
    | Shutdown
    | InitAck(first: nat, current: nat, capabilities: nat)

  /** Service to client. */
  datatype ToClient =
    | Result(seqId: nat, payload: bytes)
    | Error(seqId: nat, code: nat, text: bytes)
    | Stream(seqId: nat, chunk: bytes)
    | StreamEnd(seqId: nat)
    | Notify(typeId: nat, object_: int, property: nat, value: bytes)

  const HEADER: seq<nat> := [4, 1, 1, 2, 4, 4]
  const CALL_HEADER: seq<nat> := [2, 2]
  const CREATE_HEADER: seq<nat> := [4, 2, 2]
  const RELEASE_HEADER: seq<nat> := [4, 4]
  const PROPERTY_HEADER: seq<nat> := [4, 4, 2, 2]
  const INIT_HEADER: seq<nat> := [4, 2, 2, 4, 4]
  const ERROR_HEADER: seq<nat> := [2, 4]

  function HeaderFields(kind: nat, size: nat, seqId: nat): (f: seq<nat>)
    ensures |f| == 6
  {
    [MAGIC, 0, kind, 0, size, seqId]
  }

  function InitFields(first: nat, current: nat, capabilities: nat, count: nat): (f: seq<nat>)
    ensures |f| == 5
  {
    [MAGIC, first, current, capabilities, count]
  }

  /** Any frame: 16 bytes of header, then the payload. payload_size is a 32-bit cast. */
  function FrameOf(kind: nat, seqId: nat, payload: bytes): bytes {
    Pack(HEADER, HeaderFields(kind, |payload| % U32_COUNT, seqId)) + payload
  }

  function ObjectBits(id: int): nat
    requires FitsSigned(id, 4)
  {
    ToUnsigned(id, 4)
  }

  predicate U16(n: nat) { n < U16_COUNT }

  predicate U32(n: nat) { n < U32_COUNT }

  predicate RequestFits(r: Request) {
    match r
    case Call(s, m, _) => U16(s) && U16(m)
    case Create(t, c, _) => U32(t) && U16(c)
    case PropGet(t, o, p) => U32(t) && FitsSigned(o, 4) && U16(p)
    case PropSet(t, o, p, _) => U32(t) && FitsSigned(o, 4) && U16(p)
    case ObjectCall(t, o, m, _) => U32(t) && FitsSigned(o, 4) && U16(m)
  }

  /** Field values have the C++ types' ranges. */
  predicate ToServerFits(m: ToServer) {
    match m
    case Ask(s, r) => U32(s) && RequestFits(r)
    case Release(t, o) => U32(t) && FitsSigned(o, 4)
    case Subscribe(t, o, p) => U32(t) && FitsSigned(o, 4) && U16(p)
    case Unsubscribe(t, o, p) => U32(t) && FitsSigned(o, 4) && U16(p)
    case Shutdown => true
    case InitAck(f, c, caps) => U16(f) && U16(c) && U32(caps)
  }

  predicate ToClientFits(m: ToClient) {
    match m
    case Result(s, _) => U32(s)
    case Error(s, c, text) => U32(s) && U16(c) && |text| <= 0x10_0000
    case Stream(s, _) => U32(s)
    case StreamEnd(s) => U32(s)
    case Notify(t, o, p, _) => U32(t) && FitsSigned(o, 4) && U16(p)
  }

  /** Message kinds, as numbered in wire.hpp. */
  function RequestKind(r: Request): (k: nat) {
    match r
    case Call(_, _, _) => 0x02
    case Create(_, _, _) => 0x09
    case PropGet(_, _, _) => 0x0B
    case PropSet(_, _, _, _) => 0x0C
    case ObjectCall(_, _, _, _) => 0x11
  }

  /** The payload shared by property and object-method frames. */
  function PropertyPayload(t: nat, o: int, p: nat, rest: bytes): (b: bytes)
    requires FitsSigned(o, 4)
  {
    Pack(PROPERTY_HEADER, [t, ObjectBits(o), p, 0]) + rest
  }

  function RequestPayload(r: Request): bytes
    requires RequestFits(r)
  {
    match r
    case Call(s, m, args) => Pack(CALL_HEADER, [s, m]) + args
    case Create(t, c, args) => Pack(CREATE_HEADER, [t, c, 0]) + args
    case PropGet(t, o, p) => PropertyPayload(t, o, p, [])
    case PropSet(t, o, p, value) => PropertyPayload(t, o, p, value)
    case ObjectCall(t, o, m, args) => PropertyPayload(t, o, m, args)
  }

  function EncodeToServer(m: ToServer): bytes
    requires ToServerFits(m)
  {
    match m
    case Ask(s, r) => FrameOf(RequestKind(r), s, RequestPayload(r))
    case Release(t, o) => FrameOf(0x0A, 0, Pack(RELEASE_HEADER, [t, ObjectBits(o)]))
    case Subscribe(t, o, p) => FrameOf(0x0E, 0, PropertyPayload(t, o, p, []))
    case Unsubscribe(t, o, p) => FrameOf(0x0F, 0, PropertyPayload(t, o, p, []))
    case Shutdown => FrameOf(0x08, 0, [])
    case InitAck(f, c, caps) => FrameOf(0x0D, 0, Pack(INIT_HEADER, InitFields(f, c, caps, 0)))
  }

  function EncodeToClient(m: ToClient): bytes
    requires ToClientFits(m)
  {
    match m
    case Result(s, payload) => FrameOf(0x03, s, payload)
    case Error(s, c, text) => FrameOf(0x04, s, Pack(ERROR_HEADER, [c, |text|]) + text)
    case Stream(s, chunk) => FrameOf(0x05, s, chunk)
    case StreamEnd(s) => FrameOf(0x06, s, [])
    case Notify(t, o, p, value) => FrameOf(0x10, 0, PropertyPayload(t, o, p, value))
  }

  // ---------------------------------------------------------------- reading them back

  /** What a peer makes of a received frame: a message, a bad magic number, an exception while decoding the
      payload, or a kind that its handler has no branch for. */
  datatype Incoming<+M> = Good(m: M) | BadMagic | Malformed | Ignored

  function ObjectId(bits: nat): int { ToSigned(bits, 4) }

  function DecodeToServer(b: bytes): Incoming<ToServer>
    requires |b| >= HEADER_SIZE
  {
    var h := Unpack(HEADER, b);
    if h[0] != MAGIC then BadMagic else ServerBody(h[2], h[5], b[HEADER_SIZE..])
  }

  function ServerBody(kind: nat, seqId: nat, body: bytes): Incoming<ToServer> {
    if kind == 0x08 then Good(Shutdown)
    else if kind == 0x0D then
      // consumed without reading the payload
      if |body| < Size(INIT_HEADER) then Ignored
      else var f := Unpack(INIT_HEADER, body); Good(InitAck(f[1], f[2], f[3]))
    else if kind == 0x02 then
      if |body| < Size(CALL_HEADER) then Malformed
      else var f := Unpack(CALL_HEADER, body); Good(Ask(seqId, Call(f[0], f[1], body[Size(CALL_HEADER)..])))
    else if kind == 0x09 then
      if |body| < Size(CREATE_HEADER) then Malformed
      else var f := Unpack(CREATE_HEADER, body); Good(Ask(seqId, Create(f[0], f[1], body[Size(CREATE_HEADER)..])))
    else if kind == 0x0A then
      if |body| < Size(RELEASE_HEADER) then Malformed
      else var f := Unpack(RELEASE_HEADER, body); Good(Release(f[0], ObjectId(f[1])))
    else if kind == 0x0B || kind == 0x0C || kind == 0x0E || kind == 0x0F || kind == 0x11 then
      if |body| < Size(PROPERTY_HEADER) then Malformed else Good(PropertyBody(kind, seqId, body))
    else Ignored
  }

  function PropertyBody(kind: nat, seqId: nat, body: bytes): ToServer
    requires |body| >= Size(PROPERTY_HEADER)
  {
    var f := Unpack(PROPERTY_HEADER, body);
    PropertyMessage(kind, seqId, f[0], ObjectId(f[1]), f[2], body[Size(PROPERTY_HEADER)..])
  }

  function PropertyMessage(kind: nat, seqId: nat, t: nat, o: int, p: nat, rest: bytes): ToServer {
    if kind == 0x0B then Ask(seqId, PropGet(t, o, p))
    else if kind == 0x0C then Ask(seqId, PropSet(t, o, p, rest))
    else if kind == 0x11 then Ask(seqId, ObjectCall(t, o, p, rest))
    else if kind == 0x0E then Subscribe(t, o, p)
    else Unsubscribe(t, o, p)
  }

  function DecodeToClient(b: bytes): Incoming<ToClient>
    requires |b| >= HEADER_SIZE
  {
    var h := Unpack(HEADER, b);
    if h[0] != MAGIC then BadMagic
    else if h[4] > MAX_PAYLOAD then Malformed
    else ClientBody(h[2], h[5], b[HEADER_SIZE..])
  }

  function ClientBody(kind: nat, seqId: nat, body: bytes): Incoming<ToClient> {
    if kind == 0x03 then Good(Result(seqId, body))
    else if kind == 0x04 then
      if |body| < Size(ERROR_HEADER) then Malformed
      else
        var f := Unpack(ERROR_HEADER, body);
        var text := body[Size(ERROR_HEADER)..];
        if f[1] > 0x10_0000 || f[1] > |text| then Malformed else Good(Error(seqId, f[0], text[..f[1]]))
    else if kind == 0x05 then Good(Stream(seqId, body))
    else if kind == 0x06 then Good(StreamEnd(seqId))
    else if kind == 0x10 then
      if |body| < Size(PROPERTY_HEADER) then Malformed
      else
        var f := Unpack(PROPERTY_HEADER, body);
        Good(Notify(f[0], ObjectId(f[1]), f[2], body[Size(PROPERTY_HEADER)..]))
    else Ignored
  }

  lemma Sizes()
    ensures Size(HEADER) == HEADER_SIZE && Size(CALL_HEADER) == 4 && Size(CREATE_HEADER) == 8
    ensures Size(RELEASE_HEADER) == 8 && Size(PROPERTY_HEADER) == 12 && Size(INIT_HEADER) == 16
    ensures Size(ERROR_HEADER) == 6
  {
    SizeOf2(4, 4);
    SizeOf2(2, 2);
    SizeOf2(2, 4);
    assert CREATE_HEADER[1..] == [2, 2] && PROPERTY_HEADER[1..] == [4, 2, 2] && INIT_HEADER[1..] == [2, 2, 4, 4];
    assert [4, 2, 2][1..] == [2, 2] && [2, 2, 4, 4][1..] == [2, 4, 4] && [2, 4, 4][1..] == [4, 4];
    assert HEADER[1..] == [1, 1, 2, 4, 4] && [1, 1, 2, 4, 4][1..] == [1, 2, 4, 4] && [1, 2, 4, 4][1..] == [2, 4, 4];
  }

  lemma SizeOf2(a: nat, b: nat)
    ensures Size([a, b]) == a + b
  {
    var last: seq<nat> := [b];
    assert [a, b][1..] == last && last[1..] == [];
    assert Size(last) == b;
  }

  /** Every frame's header reads back, and the payload starts right behind it. */
  lemma HeaderRoundTrip(kind: nat, seqId: nat, payload: bytes)
    requires kind < 256 && U32(seqId)
    ensures Size(HEADER) == HEADER_SIZE
    ensures var b := FrameOf(kind, seqId, payload);
            && |b| == HEADER_SIZE + |payload| && b[HEADER_SIZE..] == payload
            && DecodeToServer(b) == ServerBody(kind, seqId, payload)
            && DecodeToClient(b) == (if |payload| % U32_COUNT > MAX_PAYLOAD then Malformed else ClientBody(kind, seqId, payload))
            && Unpack(HEADER, b) == HeaderFields(kind, |payload| % U32_COUNT, seqId)
            && PayloadSize(b) == |payload| % U32_COUNT
  {
    Sizes();
    Pow256Values();
    var values := HeaderFields(kind, |payload| % U32_COUNT, seqId);
    UnpackPack(HEADER, values, payload);
    var b := FrameOf(kind, seqId, payload);
    SizeFieldAt8(values, payload);
    LeRoundTrip(|payload| % U32_COUNT, 4);
  }

  lemma SizeFieldAt8(values: seq<nat>, payload: bytes)
    requires |values| == 6
    ensures |Pack(HEADER, values)| == 16
    ensures (Pack(HEADER, values) + payload)[8..12] == Le(values[4], 4)
  {
    hide Le, Pack;
    Sizes();
    var v1, v2 := values[..4], values[4..];
    assert HEADER == [4, 1, 1, 2] + [4, 4] && values == v1 + v2;
    PackSplit([4, 1, 1, 2], v1, [4, 4], v2);
    SizeOf4();
    PackSplit([4], [v2[0]], [4], [v2[1]]);
    assert [4, 4] == [4] + [4] && v2 == [v2[0]] + [v2[1]];
    PackOne(4, v2[0]);
    var head, last := Pack([4, 1, 1, 2], v1), Pack([4], [v2[1]]);
    assert Pack(HEADER, values) + payload == head + Le(values[4], 4) + (last + payload);
    Middle(head, Le(values[4], 4), last + payload);
  }

  lemma Middle(a: bytes, b: bytes, c: bytes)
    ensures (a + b + c)[|a|..|a| + |b|] == b
  {
  }

  lemma SizeOf4()
    ensures Size([4, 1, 1, 2]) == 8
  {
    assert [4, 1, 1, 2][1..] == [1, 1, 2] && [1, 1, 2][1..] == [1, 2];
    SizeOf2(1, 2);
  }

  lemma PackOne(width: nat, value: nat)
    ensures Pack([width], [value]) == Le(value, width)
  {
    assert [width][1..] == [] && [value][1..] == [];
    assert Le(value, width) + [] == Le(value, width);
  }

  lemma {:induction false} PackSplit(w1: seq<nat>, v1: seq<nat>, w2: seq<nat>, v2: seq<nat>)
    requires |w1| == |v1| && |w2| == |v2|
    ensures Pack(w1 + w2, v1 + v2) == Pack(w1, v1) + Pack(w2, v2)
  {
    hide Le;
    if w1 == [] {
      assert w1 + w2 == w2 && v1 + v2 == v2;
    } else {
      PackSplit(w1[1..], v1[1..], w2, v2);
      assert (w1 + w2)[1..] == w1[1..] + w2 && (v1 + v2)[1..] == v1[1..] + v2;
    }
  }

  lemma BodyRoundTrip(widths: seq<nat>, values: seq<nat>, rest: bytes)
    requires FieldsFit(widths, values)
    ensures var body := Pack(widths, values) + rest;
            |body| >= Size(widths) && Unpack(widths, body) == values && body[Size(widths)..] == rest
  {
    UnpackPack(widths, values, rest);
  }

  lemma PropertyRoundTrip(kind: nat, seqId: nat, t: nat, o: int, p: nat, rest: bytes)
    requires U32(t) && FitsSigned(o, 4) && U16(p)
    ensures |PropertyPayload(t, o, p, rest)| >= Size(PROPERTY_HEADER) == 12
    ensures PropertyBody(kind, seqId, PropertyPayload(t, o, p, rest)) == PropertyMessage(kind, seqId, t, o, p, rest)
    ensures Unpack(PROPERTY_HEADER, PropertyPayload(t, o, p, rest)) == [t, ObjectBits(o), p, 0]
    ensures ObjectId(ObjectBits(o)) == o && PropertyPayload(t, o, p, rest)[12..] == rest
  {
    Sizes();
    Pow256Values();
    BodyRoundTrip(PROPERTY_HEADER, [t, ObjectBits(o), p, 0], rest);
    SignedRoundTrip(o, 4);
  }

  lemma PropertyFrameRoundTrip(kind: nat, seqId: nat, t: nat, o: int, p: nat, rest: bytes)
    requires kind == 0x0B || kind == 0x0C || kind == 0x0E || kind == 0x0F || kind == 0x11
    requires U32(seqId) && U32(t) && FitsSigned(o, 4) && U16(p)
    ensures var b := FrameOf(kind, seqId, PropertyPayload(t, o, p, rest));
            |b| >= HEADER_SIZE && DecodeToServer(b) == Good(PropertyMessage(kind, seqId, t, o, p, rest))
  {
    hide FrameOf, DecodeToServer, DecodeToClient, ClientBody, PropertyPayload, PropertyBody, Unpack, HeaderFields, PayloadSize;
    HeaderRoundTrip(kind, seqId, PropertyPayload(t, o, p, rest));
    PropertyRoundTrip(kind, seqId, t, o, p, rest);
  }

  lemma RequestRoundTrip(seqId: nat, r: Request)
    requires RequestFits(r)
    ensures ServerBody(RequestKind(r), seqId, RequestPayload(r)) == Good(Ask(seqId, r))
  {
    if r.Call? || r.Create? {
      HeadRoundTrip(seqId, r);
    } else {
      hide PropertyPayload, PropertyBody, Unpack, ObjectBits, ObjectId;
      Sizes();
      match r
      case PropGet(t, o, p) => PropertyRoundTrip(0x0B, seqId, t, o, p, []);
      case PropSet(t, o, p, value) => PropertyRoundTrip(0x0C, seqId, t, o, p, value);
      case ObjectCall(t, o, m, args) => PropertyRoundTrip(0x11, seqId, t, o, m, args);
    }
  }

  lemma HeadRoundTrip(seqId: nat, r: Request)
    requires RequestFits(r) && (r.Call? || r.Create?)
    ensures ServerBody(RequestKind(r), seqId, RequestPayload(r)) == Good(Ask(seqId, r))
  {
    hide Pack, Unpack, PropertyBody;
    Sizes();
    Pow256Values();
    if r.Call? {
      BodyRoundTrip(CALL_HEADER, [r.service, r.method_], r.args);
    } else {
      BodyRoundTrip(CREATE_HEADER, [r.typeId, r.constructor_, 0], r.args);
    }
  }

  /** Every frame a client builds is read back by the service as the same message. */
  lemma ToServerRoundTrip(m: ToServer)
    requires ToServerFits(m)
    ensures |EncodeToServer(m)| >= HEADER_SIZE
    ensures DecodeToServer(EncodeToServer(m)) == Good(m)
  {
    hide FrameOf, DecodeToServer, DecodeToClient, Unpack, Pack, HeaderFields, RequestPayload, PropertyBody, ClientBody, PayloadSize;
    Sizes();
    match m
    case Ask(s, r) =>
      HeaderRoundTrip(RequestKind(r), s, RequestPayload(r));
      RequestRoundTrip(s, r);
    case Shutdown => HeaderRoundTrip(0x08, 0, []);
    case InitAck(f, c, caps) =>
      Pow256Values();
      var payload := Pack(INIT_HEADER, InitFields(f, c, caps, 0));
      HeaderRoundTrip(0x0D, 0, payload);
      BodyRoundTrip(INIT_HEADER, InitFields(f, c, caps, 0), []);
      assert payload + [] == payload;
    case _ => FireAndForgetRoundTrip(m);
  }

  lemma FireAndForgetRoundTrip(m: ToServer)
    requires ToServerFits(m) && (m.Release? || m.Subscribe? || m.Unsubscribe?)
    ensures |EncodeToServer(m)| >= HEADER_SIZE
    ensures DecodeToServer(EncodeToServer(m)) == Good(m)
  {
    match m
    case Release(t, o) => ReleaseRoundTrip(t, o);
    case Subscribe(t, o, p) =>
      PropertyFrameRoundTrip(0x0E, 0, t, o, p, []);
    case Unsubscribe(t, o, p) =>
      PropertyFrameRoundTrip(0x0F, 0, t, o, p, []);
  }

  lemma ReleaseRoundTrip(t: nat, o: int)
    requires U32(t) && FitsSigned(o, 4)
    ensures |EncodeToServer(Release(t, o))| >= HEADER_SIZE
    ensures DecodeToServer(EncodeToServer(Release(t, o))) == Good(Release(t, o))
  {
    Sizes();
    Pow256Values();
    var values := [t, ObjectBits(o)];
    var payload := Pack(RELEASE_HEADER, values);
    HeaderRoundTrip(0x0A, 0, payload);
    BodyRoundTrip(RELEASE_HEADER, values, []);
    assert payload + [] == payload;
    SignedRoundTrip(o, 4);
  }

  /** Every frame a service builds is read back by the client as the same message, if and only if its payload is
      within the 16 MB limit (the size field must not wrap either). */
  lemma ToClientRoundTripIff(m: ToClient)
    requires ToClientFits(m)
    ensures |EncodeToClient(m)| >= HEADER_SIZE
    ensures DecodeToClient(EncodeToClient(m)) == Good(m) <==>
            (|EncodeToClient(m)| - HEADER_SIZE) % U32_COUNT <= MAX_PAYLOAD
  {
    hide FrameOf, DecodeToServer, DecodeToClient, Unpack, Pack, HeaderFields, PropertyPayload, ServerBody, PayloadSize;
    match m
    case Result(s, payload) => HeaderRoundTrip(0x03, s, payload);
    case Error(s, c, text) => ErrorRoundTripIff(s, c, text);
    case Stream(s, chunk) => HeaderRoundTrip(0x05, s, chunk);
    case StreamEnd(s) => HeaderRoundTrip(0x06, s, []);
    case Notify(t, o, p, value) =>
      HeaderRoundTrip(0x10, 0, PropertyPayload(t, o, p, value));
      PropertyRoundTrip(0x10, 0, t, o, p, value);
  }

  lemma ErrorRoundTripIff(s: nat, c: nat, text: bytes)
    requires ToClientFits(Error(s, c, text))
    ensures var b := EncodeToClient(Error(s, c, text));
            && |b| >= HEADER_SIZE
            && (DecodeToClient(b) == Good(Error(s, c, text)) <==> (|b| - HEADER_SIZE) % U32_COUNT <= MAX_PAYLOAD)
  {
    hide FrameOf, DecodeToServer, DecodeToClient, Unpack, Pack, HeaderFields, ServerBody, PayloadSize;
    Sizes();
    Pow256Values();
    HeaderRoundTrip(0x04, s, Pack(ERROR_HEADER, [c, |text|]) + text);
    BodyRoundTrip(ERROR_HEADER, [c, |text|], text);
    assert text[..|text|] == text;
  }
}
