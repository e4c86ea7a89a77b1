/** The init handshake: the service announces its versions, capabilities and methods; the client negotiates. */
module Handshake {
  import opened Bytes
  import opened Framing
  import opened Wire

  const FIRST_VERSION: nat := 0x0100
  const CURRENT_VERSION: nat := 0x0101

  datatype Descriptor = Descriptor(service: nat, method_: nat, flags: nat, reserved: nat)

  const DESCRIPTOR: seq<nat> := [2, 2, 2, 2]
  const DESCRIPTOR_SIZE: nat := 8

  predicate DescriptorFits(d: Descriptor) {
    U16(d.service) && U16(d.method_) && U16(d.flags) && U16(d.reserved)
  }

  lemma DescriptorSize()
    ensures Size(DESCRIPTOR) == DESCRIPTOR_SIZE
  {
    SizeOf2(2, 2);
    assert DESCRIPTOR[1..] == [2, 2, 2] && [2, 2, 2][1..] == [2, 2];
  }

  function Fields(d: Descriptor): (f: seq<nat>)
    ensures |f| == 4
  {
    [d.service, d.method_, d.flags, d.reserved]
  }

  function EncodeMethods(methods: seq<Descriptor>): (b: bytes)
    ensures |b| == DESCRIPTOR_SIZE * |methods|
  {
    DescriptorSize();
    if methods == [] then []
    else
      Pack(DESCRIPTOR, Fields(methods[0])) + EncodeMethods(methods[1..])
  }

  function InitPayload(first: nat, current: nat, capabilities: nat, methods: seq<Descriptor>): bytes {
    Pack(INIT_HEADER, InitFields(first, current, capabilities, |methods| % U32_COUNT)) + EncodeMethods(methods)
  }

  /** create_init_message: the count and the payload size are 32-bit casts. */
  function InitMessage(first: nat, current: nat, capabilities: nat, methods: seq<Descriptor>): bytes {
    FrameOf(0x01, 0, InitPayload(first, current, capabilities, methods))
  }

  function DecodeMethods(count: nat, b: bytes): (r: Option<seq<Descriptor>>)
    ensures r.Some? ==> |r.value| == count && |b| >= DESCRIPTOR_SIZE * count
  {
    DescriptorSize();
    if count == 0 then Some([])
    else if |b| < DESCRIPTOR_SIZE then None
    else
      var f := Unpack(DESCRIPTOR, b);
      match DecodeMethods(count - 1, b[DESCRIPTOR_SIZE..])
      case None => None
      case Some(rest) => Some([Descriptor(f[0], f[1], f[2], f[3])] + rest)
  }

  // ---------------------------------------------------------------- capability words

  /** Bitwise AND, a bit at a time. */
  function And(a: nat, b: nat): nat {
    if a == 0 then 0 else (if a % 2 == 1 && b % 2 == 1 then 1 else 0) + 2 * And(a / 2, b / 2)
  }

  predicate Bit(a: nat, k: nat) {
    if k == 0 then a % 2 == 1 else Bit(a / 2, k - 1)
  }

  /** A capability is negotiated exactly when both peers advertise it. */
  lemma {:induction false} NegotiatedIffBoth(a: nat, b: nat, k: nat)
    ensures Bit(And(a, b), k) <==> Bit(a, k) && Bit(b, k)
  {
    if a > 0 {
      assert And(a, b) / 2 == And(a / 2, b / 2);
    }
    if k > 0 {
      NegotiatedIffBoth(a / 2, b / 2, k - 1);
    }
  }

  function SetBit(a: nat, k: nat): nat {
    if k == 0 then a - a % 2 + 1 else a % 2 + 2 * SetBit(a / 2, k - 1)
  }

  /** Setting one bit changes no other. */
  lemma SetBitSets(a: nat, k: nat)
    ensures forall j :: Bit(SetBit(a, k), j) <==> j == k || Bit(a, j)
  {
    forall j: nat
      ensures Bit(SetBit(a, k), j) <==> j == k || Bit(a, j)
    {
      SetBitAt(a, k, j);
    }
  }

  lemma {:induction false} SetBitAt(a: nat, k: nat, j: nat)
    ensures Bit(SetBit(a, k), j) <==> j == k || Bit(a, j)
  {
    if k == 0 {
      assert (a - a % 2 + 1) / 2 == a / 2;
    } else {
      assert SetBit(a, k) / 2 == SetBit(a / 2, k - 1);
      if j > 0 {
        SetBitAt(a / 2, k - 1, j - 1);
      }
    }
  }

  // ---------------------------------------------------------------- the client's side

  datatype Outcome =
    | Connected(version: nat, peer: nat, negotiated: nat, methods: seq<Descriptor>)
    | VersionMismatch
    | ProtocolError

  function Min(a: nat, b: nat): nat { if a < b then a else b }

  /** What init_handshake makes of the byte stream from the service. */
  function Negotiate(local: nat, stream: bytes): Outcome {
    match Frame(stream)
    case Message(m) => NegotiateMessage(local, m)
    case _ => ProtocolError
  }

  function NegotiateMessage(local: nat, m: bytes): Outcome
    requires Framed(m)
  {
    var h := Unpack(HEADER, m);
    var body := m[HEADER_SIZE..];
    if h[0] != MAGIC || h[4] > MAX_PAYLOAD || h[2] != 0x01 || |body| < Size(INIT_HEADER) then ProtocolError
    else NegotiateInit(local, Unpack(INIT_HEADER, body), body[Size(INIT_HEADER)..])
  }

  function NegotiateInit(local: nat, f: seq<nat>, list: bytes): Outcome
    requires |f| == |INIT_HEADER|
  {
    if f[0] != MAGIC then ProtocolError
    else if f[2] < FIRST_VERSION || f[1] > CURRENT_VERSION then VersionMismatch
    else match DecodeMethods(f[4], list)
      case None => ProtocolError
      case Some(methods) => Connected(Min(CURRENT_VERSION, f[2]), f[3], And(local, f[3]), methods)
  }

  lemma {:induction false} MethodsRoundTrip(methods: seq<Descriptor>, rest: bytes)
    requires forall k :: 0 <= k < |methods| ==> DescriptorFits(methods[k])
    ensures DecodeMethods(|methods|, EncodeMethods(methods) + rest) == Some(methods)
  {
    if methods != [] {
      hide Pack, Unpack, Pow256;
      DescriptorSize();
      Pow256Values();
      var d := methods[0];
      var fields := Fields(d);
      var tail := EncodeMethods(methods[1..]) + rest;
      assert EncodeMethods(methods) + rest == Pack(DESCRIPTOR, fields) + tail;
      BodyRoundTrip(DESCRIPTOR, fields, tail);
      assert DescriptorFits(methods[0]);
      MethodsRoundTrip(methods[1..], rest);
      assert [d] + methods[1..] == methods;
    }
  }

  predicate VersionsMeet(first: nat, current: nat) {
    FIRST_VERSION <= current && first <= CURRENT_VERSION
  }

  /** The framed init message, as the client's transport delivers it. */
  lemma InitArrives(first: nat, current: nat, capabilities: nat, methods: seq<Descriptor>)
    requires U16(first) && U16(current) && U32(capabilities)
    ensures var p := InitPayload(first, current, capabilities, methods); var m := InitMessage(first, current, capabilities, methods);
            && Size(INIT_HEADER) == 16 && Size(HEADER) == HEADER_SIZE && |p| == 16 + DESCRIPTOR_SIZE * |methods|
            && |m| == HEADER_SIZE + |p| && m[HEADER_SIZE..] == p
            && PayloadSize(m) == |p| % U32_COUNT
            && Unpack(HEADER, m) == HeaderFields(0x01, |p| % U32_COUNT, 0)
            && Unpack(INIT_HEADER, p) == InitFields(first, current, capabilities, |methods| % U32_COUNT)
            && p[16..] == EncodeMethods(methods)
  {
    Sizes();
    Pow256Values();
    HeaderRoundTrip(0x01, 0, InitPayload(first, current, capabilities, methods));
    BodyRoundTrip(INIT_HEADER, InitFields(first, current, capabilities, |methods| % U32_COUNT), EncodeMethods(methods));
  }

  lemma SmallMod(n: nat)
    requires n < U32_COUNT
    ensures n % U32_COUNT == n
  {
  }

  lemma InitFramed(first: nat, current: nat, capabilities: nat, methods: seq<Descriptor>)
    requires U16(first) && U16(current) && U32(capabilities)
    requires 16 + DESCRIPTOR_SIZE * |methods| <= MAX_PAYLOAD
    ensures var m := InitMessage(first, current, capabilities, methods); Frame(m) == Message(m)
  {
    var m := InitMessage(first, current, capabilities, methods);
    InitArrives(first, current, capabilities, methods);
    SmallMod(|InitPayload(first, current, capabilities, methods)|);
    FrameOfMessage(m, []);
    assert m + [] == m;
  }

  /** An init message of at most 16 MB reaches the negotiation field by field. */
  lemma InitDecoded(local: nat, first: nat, current: nat, capabilities: nat, methods: seq<Descriptor>)
    requires U16(first) && U16(current) && U32(capabilities)
    requires 16 + DESCRIPTOR_SIZE * |methods| <= MAX_PAYLOAD
    ensures Negotiate(local, InitMessage(first, current, capabilities, methods)) ==
            NegotiateInit(local, InitFields(first, current, capabilities, |methods|), EncodeMethods(methods))
  {
    hide EncodeMethods, DecodeMethods, InitPayload, InitMessage, NegotiateInit, Frame, Unpack, Size, PayloadSize, InitFields;
    InitFramed(first, current, capabilities, methods);
    InitArrives(first, current, capabilities, methods);
    SmallMod(|InitPayload(first, current, capabilities, methods)|);
    SmallMod(|methods|);
  }

  /** With a method list that fits the 16 MB payload and versions that meet, the handshake succeeds and the client
      holds exactly the service's list, the lower current version and the AND of the capabilities. */
  lemma HandshakeSucceeds(local: nat, first: nat, current: nat, capabilities: nat, methods: seq<Descriptor>)
    requires U16(first) && U16(current) && U32(capabilities) && VersionsMeet(first, current)
    requires forall k :: 0 <= k < |methods| ==> DescriptorFits(methods[k])
    requires 16 + DESCRIPTOR_SIZE * |methods| <= MAX_PAYLOAD
    ensures Negotiate(local, InitMessage(first, current, capabilities, methods)) ==
            Connected(Min(CURRENT_VERSION, current), capabilities, And(local, capabilities), methods)
  {
    InitDecoded(local, first, current, capabilities, methods);
    MethodsRoundTrip(methods, []);
    assert EncodeMethods(methods) + [] == EncodeMethods(methods);
  }

  /** Versions that do not meet are reported as that, whatever the rest of the message holds. */
  lemma VersionsMustMeet(local: nat, first: nat, current: nat, capabilities: nat, methods: seq<Descriptor>)
    requires U16(first) && U16(current) && U32(capabilities)
    requires 16 + DESCRIPTOR_SIZE * |methods| <= MAX_PAYLOAD
    ensures Negotiate(local, InitMessage(first, current, capabilities, methods)) == VersionMismatch
            <==> current < 0x0100 || first > 0x0101
  {
    InitDecoded(local, first, current, capabilities, methods);
  }

  /** Any list the client ends up with came out of one message of at most 16 MB. */
  lemma ClientListIsShort(local: nat, stream: bytes)
    requires Negotiate(local, stream).Connected?
    ensures 16 + DESCRIPTOR_SIZE * |Negotiate(local, stream).methods| <= MAX_PAYLOAD
  {
    Sizes();
    var m := Frame(stream).b;
    var f := Unpack(INIT_HEADER, m[HEADER_SIZE..]);
    var r := DecodeMethods(f[4], m[HEADER_SIZE..][16..]);
  }

  predicate Speaks(first: nat, current: nat, v: nat) { first <= v <= current }

  /** The version check accepts exactly when some version lies in both ranges. */
  lemma VersionsMeetIff(first: nat, current: nat)
    requires first <= current
    ensures VersionsMeet(first, current) <==>
            exists v: nat :: Speaks(first, current, v) && Speaks(FIRST_VERSION, CURRENT_VERSION, v)
  {
    if VersionsMeet(first, current) {
      var v := Min(CURRENT_VERSION, current);
      assert Speaks(first, current, v) && Speaks(FIRST_VERSION, CURRENT_VERSION, v);
    }
  }

  /** For a method list of any length: the client ends up with exactly the service's list if and only if the
      version ranges meet and the list fits one 16 MB message. */
  lemma ListsAgreeIff(local: nat, first: nat, current: nat, capabilities: nat, methods: seq<Descriptor>)
    requires U16(first) && U16(current) && U32(capabilities)
    requires forall k :: 0 <= k < |methods| ==> DescriptorFits(methods[k])
    ensures var r := Negotiate(local, InitMessage(first, current, capabilities, methods));
            r.Connected? && r.methods == methods
            <==> VersionsMeet(first, current) && 16 + DESCRIPTOR_SIZE * |methods| <= MAX_PAYLOAD
  {
    var m := InitMessage(first, current, capabilities, methods);
    var r := Negotiate(local, m);
    if VersionsMeet(first, current) && 16 + DESCRIPTOR_SIZE * |methods| <= MAX_PAYLOAD {
      HandshakeSucceeds(local, first, current, capabilities, methods);
    } else if 16 + DESCRIPTOR_SIZE * |methods| <= MAX_PAYLOAD {
      InitDecoded(local, first, current, capabilities, methods);
    } else if r.Connected? {
      ClientListIsShort(local, m);
    }
  }

  /** The negotiated version lies in both peers' ranges. */
  lemma VersionInBothRanges(local: nat, stream: bytes)
    requires Negotiate(local, stream).Connected?
    ensures Size(INIT_HEADER) == 16
    ensures Frame(stream).Message? && |Frame(stream).b| >= 32
    ensures var r := Negotiate(local, stream); var f := Unpack(INIT_HEADER, Frame(stream).b[HEADER_SIZE..]);
            && FIRST_VERSION <= r.version <= CURRENT_VERSION
            && (f[1] <= f[2] ==> f[1] <= r.version <= f[2])
            && r.negotiated == And(local, f[3])
  {
    Sizes();
  }

  /** supports and has_method ask the same question of the two lists. */
  predicate Lists(methods: seq<Descriptor>, service: nat, method_: nat) {
    exists k :: 0 <= k < |methods| && methods[k].service == service && methods[k].method_ == method_
  }
}
