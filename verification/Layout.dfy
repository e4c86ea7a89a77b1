/** The formats, byte for byte and with their numbers written out: what a peer that was not generated from this code has to
    send and can expect (src/wire.cpp, include/song/wire.hpp, src/buffer.cpp). */
module Layout {
  import opened Ast
  import opened Bytes
  import opened Framing
  import opened Wire
  import opened Codec
  import Handshake

  // ---------------------------------------------------------------- integers

  /** Byte k of an integer is its k-th digit to the base 256. */
  lemma {:induction false} DigitAt(n: nat, w: nat, k: nat)
    requires k < w
    ensures Le(n, w)[k] == n / Pow256(k) % 256
  {
    if k > 0 {
      DigitAt(n / 256, w - 1, k - 1);
      Quotients(n, Pow256(k - 1));
    }
  }

  lemma Quotients(n: nat, d: nat)
    requires d > 0
    ensures n / 256 / d == n / (256 * d)
  {
    var q, rest := n / 256 / d, n / 256 % d;
    assert n / 256 == d * q + rest;
    var low := 256 * rest + n % 256;
    assert n == 256 * (d * q + rest) + n % 256 == 256 * d * q + low;
    assert rest <= d - 1 && 256 * rest <= 256 * (d - 1) && low < 256 * d;
    Divides(n, 256 * d, q, low);
  }

  lemma Divides(n: nat, d: nat, q: nat, rest: nat)
    requires n == d * q + rest && rest < d
    ensures n / d == q
  {
    var other := n / d;
    assert n == d * other + n % d;
    assert other < q ==> d * (other + 1) <= d * q;
    assert other > q ==> d * other >= d * (q + 1);
  }

  /** Two's complement: the image of an integer is its remainder modulo 256^w, and the only integer of that width with it. */
  lemma SignedImage(n: int, w: nat, u: nat)
    requires FitsSigned(n, w) && u < Pow256(w)
    ensures ToUnsigned(n, w) == u <==> u == n || u == n + Pow256(w)
    ensures ToSigned(u, w) == n <==> u == n || u == n + Pow256(w)
  {
  }

  lemma Le1(n: nat)
    ensures Le(n, 1) == [n % 256]
  {
    assert Le(n / 256, 0) == [];
  }

  lemma Le2(n: nat)
    ensures Le(n, 2) == [n % 256, n / 256 % 256]
  {
    Le1(n / 256);
    assert Le(n, 2) == [n % 256] + Le(n / 256, 1);
  }

  lemma LeStep(n: nat, w: nat)
    ensures Le(n, w + 1) == [n % 256] + Le(n / 256, w)
  {
  }

  lemma Le4(n: nat)
    ensures Le(n, 4) == [n % 256, n / 256 % 256, n / 65536 % 256, n / 16777216 % 256]
  {
    hide Le;
    LeStep(n, 3);
    LeStep(n / 256, 2);
    Le2(n / 256 / 256);
    Quotients(n, 256);
    Quotients(n / 256, 256);
    Quotients(n, 65536);
  }

  // ---------------------------------------------------------------- frames

  lemma Pack2(w: seq<nat>, v: seq<nat>)
    requires |w| == 2 && |v| == 2
    ensures Pack(w, v) == Le(v[0], w[0]) + Le(v[1], w[1])
  {
    hide Le;
    assert w[1..] == [w[1]] && v[1..] == [v[1]];
    PackOne(w[1], v[1]);
  }

  lemma PackMore(w: seq<nat>, v: seq<nat>)
    requires |w| == |v| && |w| > 0
    ensures Pack(w, v) == Le(v[0], w[0]) + Pack(w[1..], v[1..])
  {
    hide Le;
  }

  lemma Pack3(w: seq<nat>, v: seq<nat>)
    requires |w| == 3 && |v| == 3
    ensures Pack(w, v) == Le(v[0], w[0]) + Le(v[1], w[1]) + Le(v[2], w[2])
  {
    hide Le, Pack;
    PackMore(w, v);
    Pack2(w[1..], v[1..]);
    assert Le(v[0], w[0]) + (Le(v[1], w[1]) + Le(v[2], w[2])) == Le(v[0], w[0]) + Le(v[1], w[1]) + Le(v[2], w[2]);
  }

  lemma Pack4(w: seq<nat>, v: seq<nat>)
    requires |w| == 4 && |v| == 4
    ensures Pack(w, v) == Le(v[0], w[0]) + Le(v[1], w[1]) + Le(v[2], w[2]) + Le(v[3], w[3])
  {
    hide Le, Pack;
    PackMore(w, v);
    Pack3(w[1..], v[1..]);
    var a, b, c, d := Le(v[0], w[0]), Le(v[1], w[1]), Le(v[2], w[2]), Le(v[3], w[3]);
    assert a + (b + c + d) == a + b + c + d;
  }

  /** The 16 bytes of a header, and where each field of it stands. */
  lemma FrameLayout(kind: nat, seqId: nat, payload: bytes)
    requires kind < 256
    ensures FrameOf(kind, seqId, payload) ==
            [0x47, 0x4E, 0x4F, 0x53, 0, kind, 0, 0] + Le(|payload| % 0x1_0000_0000, 4) + Le(seqId, 4) + payload
  {
    hide Le, Pack;
    var f := HeaderFields(kind, |payload| % U32_COUNT, seqId);
    assert HEADER == [4, 1, 1, 2] + [4, 4] && f == f[..4] + f[4..];
    PackSplit([4, 1, 1, 2], f[..4], [4, 4], f[4..]);
    Pack4([4, 1, 1, 2], f[..4]);
    Pack2([4, 4], f[4..]);
    Le4(0x534F4E47);
    Le1(0);
    Le1(kind);
    Le2(0);
    var head := Le(0x534F4E47, 4) + Le(0, 1) + Le(kind, 1) + Le(0, 2);
    assert head == [0x47, 0x4E, 0x4F, 0x53, 0, kind, 0, 0];
    var size, id := Le(|payload| % U32_COUNT, 4), Le(seqId, 4);
    assert head + (size + id) + payload == head + size + id + payload;
  }

  function Frame_(kind: nat, seqId: nat, payload: bytes): bytes
    requires kind < 256
  {
    [0x47, 0x4E, 0x4F, 0x53, 0, kind, 0, 0] + Le(|payload| % 0x1_0000_0000, 4) + Le(seqId, 4) + payload
  }

  /** Every message of a service. */
  lemma ToClientLayout(m: ToClient)
    requires ToClientFits(m)
    ensures EncodeToClient(m) ==
            match m
            case Result(s, payload) => Frame_(3, s, payload)
            case Error(s, c, text) => Frame_(4, s, Le(c, 2) + Le(|text|, 4) + text)
            case Stream(s, chunk) => Frame_(5, s, chunk)
            case StreamEnd(s) => Frame_(6, s, [])
            case Notify(t, o, p, value) => Frame_(16, 0, Le(t, 4) + Le(ToUnsigned(o, 4), 4) + Le(p, 2) + Le(0, 2) + value)
  {
    hide Le, Pack, FrameOf;
    match m
    case Result(s, payload) => FrameLayout(3, s, payload);
    case Error(s, c, text) =>
      Pack2(ERROR_HEADER, [c, |text|]);
      FrameLayout(4, s, Le(c, 2) + Le(|text|, 4) + text);
    case Stream(s, chunk) => FrameLayout(5, s, chunk);
    case StreamEnd(s) => FrameLayout(6, s, []);
    case Notify(t, o, p, value) =>
      Pack4(PROPERTY_HEADER, [t, ObjectBits(o), p, 0]);
      FrameLayout(16, 0, Le(t, 4) + Le(ToUnsigned(o, 4), 4) + Le(p, 2) + Le(0, 2) + value);
  }

  function Property_(t: nat, o: int, p: nat, rest: bytes): bytes
    requires FitsSigned(o, 4)
  {
    Le(t, 4) + Le(ToUnsigned(o, 4), 4) + Le(p, 2) + Le(0, 2) + rest
  }

  lemma PropertyLayout(t: nat, o: int, p: nat, rest: bytes)
    requires FitsSigned(o, 4)
    ensures PropertyPayload(t, o, p, rest) == Property_(t, o, p, rest)
  {
    hide Le, Pack;
    Pack4(PROPERTY_HEADER, [t, ObjectBits(o), p, 0]);
  }

  /** Every request. */
  lemma RequestLayout(s: nat, r: Request)
    requires ToServerFits(Ask(s, r))
    ensures EncodeToServer(Ask(s, r)) ==
            match r
            case Call(service, m, args) => Frame_(2, s, Le(service, 2) + Le(m, 2) + args)
            case Create(t, c, args) => Frame_(9, s, Le(t, 4) + Le(c, 2) + Le(0, 2) + args)
            case PropGet(t, o, p) => Frame_(11, s, Property_(t, o, p, []))
            case PropSet(t, o, p, value) => Frame_(12, s, Property_(t, o, p, value))
            case ObjectCall(t, o, m, args) => Frame_(17, s, Property_(t, o, m, args))
  {
    hide Le, Pack, FrameOf, PropertyPayload, Property_;
    FrameLayout(RequestKind(r), s, RequestPayload(r));
    match r
    case Call(service, m, args) => Pack2(CALL_HEADER, [service, m]);
    case Create(t, c, args) => Pack3(CREATE_HEADER, [t, c, 0]);
    case PropGet(t, o, p) => PropertyLayout(t, o, p, []);
    case PropSet(t, o, p, value) => PropertyLayout(t, o, p, value);
    case ObjectCall(t, o, m, args) => PropertyLayout(t, o, m, args);
  }

  /** Every other message of a client. */
  lemma ControlLayout(m: ToServer)
    requires ToServerFits(m) && !m.Ask?
    ensures EncodeToServer(m) ==
            match m
            case Release(t, o) => Frame_(10, 0, Le(t, 4) + Le(ToUnsigned(o, 4), 4))
            case Subscribe(t, o, p) => Frame_(14, 0, Property_(t, o, p, []))
            case Unsubscribe(t, o, p) => Frame_(15, 0, Property_(t, o, p, []))
            case Shutdown => Frame_(8, 0, [])
            case InitAck(f, c, caps) => Frame_(13, 0, [0x47, 0x4E, 0x4F, 0x53] + Le(f, 2) + Le(c, 2) + Le(caps, 4) + Le(0, 4))
            case Ask(_, _) => []
  {
    hide Le, Pack, FrameOf, PropertyPayload, Property_;
    match m
    case Release(t, o) =>
      Pack2(RELEASE_HEADER, [t, ObjectBits(o)]);
      FrameLayout(10, 0, Le(t, 4) + Le(ToUnsigned(o, 4), 4));
    case Subscribe(t, o, p) =>
      PropertyLayout(t, o, p, []);
      FrameLayout(14, 0, Property_(t, o, p, []));
    case Unsubscribe(t, o, p) =>
      PropertyLayout(t, o, p, []);
      FrameLayout(15, 0, Property_(t, o, p, []));
    case Shutdown => FrameLayout(8, 0, []);
    case InitAck(f, c, caps) =>
      InitLayout(f, c, caps, 0);
      FrameLayout(13, 0, Pack(INIT_HEADER, InitFields(f, c, caps, 0)));
  }

  lemma InitLayout(f: nat, c: nat, caps: nat, count: nat)
    ensures Pack(INIT_HEADER, InitFields(f, c, caps, count)) ==
            [0x47, 0x4E, 0x4F, 0x53] + Le(f, 2) + Le(c, 2) + Le(caps, 4) + Le(count, 4)
  {
    hide Le, Pack;
    var v := InitFields(f, c, caps, count);
    PackMore(INIT_HEADER, v);
    assert INIT_HEADER[1..] == [2, 2, 4, 4] && v[1..] == [f, c, caps, count];
    Pack4([2, 2, 4, 4], [f, c, caps, count]);
    Le4(0x534F4E47);
    var a, b, x, y := Le(f, 2), Le(c, 2), Le(caps, 4), Le(count, 4);
    assert [0x47, 0x4E, 0x4F, 0x53] + (a + b + x + y) == [0x47, 0x4E, 0x4F, 0x53] + a + b + x + y;
  }

  /** The init message; each method takes eight bytes. */
  lemma InitMessageLayout(first: nat, current: nat, caps: nat, methods: seq<Handshake.Descriptor>)
    ensures Handshake.InitMessage(first, current, caps, methods) ==
            Frame_(1, 0, [0x47, 0x4E, 0x4F, 0x53] + Le(first, 2) + Le(current, 2) + Le(caps, 4)
                         + Le(|methods| % 0x1_0000_0000, 4) + Handshake.EncodeMethods(methods))
    ensures Handshake.EncodeMethods(methods) == if methods == [] then [] else
              var d := methods[0];
              Le(d.service, 2) + Le(d.method_, 2) + Le(d.flags, 2) + Le(d.reserved, 2) + Handshake.EncodeMethods(methods[1..])
  {
    hide Le, Pack, FrameOf;
    InitLayout(first, current, caps, |methods| % U32_COUNT);
    FrameLayout(1, 0, Handshake.InitPayload(first, current, caps, methods));
    if methods != [] {
      Pack4(Handshake.DESCRIPTOR, Handshake.Fields(methods[0]));
    }
  }

  // ---------------------------------------------------------------- what is not a message

  lemma UnpackMore(w: seq<nat>, b: bytes)
    requires |b| >= Size(w) && w != []
    ensures |b| >= w[0] && |b[w[0]..]| >= Size(w[1..]) && Unpack(w, b) == [FromLe(b[..w[0]])] + Unpack(w[1..], b[w[0]..])
  {
    hide FromLe;
  }

  lemma FromLe1(b: bytes)
    requires |b| == 1
    ensures FromLe(b) == b[0]
  {
    assert b[1..] == [] && FromLe([]) == 0;
  }

  /** Where a header's fields are read from. */
  lemma HeaderAt(b: bytes)
    requires |b| >= HEADER_SIZE
    ensures |b| >= Size(HEADER)
    ensures var h := Unpack(HEADER, b); h[0] == FromLe(b[..4]) && h[2] == b[5] && h[4] == FromLe(b[8..12]) && h[5] == FromLe(b[12..16])
  {
    hide FromLe, Unpack, Size;
    Sizes();
    UnpackMore(HEADER, b);
    assert HEADER[1..] == [1, 1, 2, 4, 4];
    var b1 := b[4..];
    UnpackMore([1, 1, 2, 4, 4], b1);
    assert [1, 1, 2, 4, 4][1..] == [1, 2, 4, 4];
    var b2 := b1[1..];
    UnpackMore([1, 2, 4, 4], b2);
    assert [1, 2, 4, 4][1..] == [2, 4, 4];
    var b3 := b2[1..];
    UnpackMore([2, 4, 4], b3);
    assert [2, 4, 4][1..] == [4, 4];
    var b4 := b3[2..];
    UnpackMore([4, 4], b4);
    assert [4, 4][1..] == [4];
    var b5 := b4[4..];
    UnpackMore([4], b5);
    FromLe1(b2[..1]);
    assert b2[..1][0] == b[5] && b4[..4] == b[8..12] && b5[..4] == b[12..16];
  }

  /** What a service does with bytes that no client builds: it drops a connection with the wrong magic number, passes over
      kinds it has no branch for, and throws on a payload too short for its header. */
  lemma ServerRefuses(b: bytes)
    requires |b| >= 16
    ensures FromLe(b[..4]) != 0x534F4E47 <==> DecodeToServer(b) == BadMagic
    ensures FromLe(b[..4]) == 0x534F4E47 ==>
        (DecodeToServer(b) == Malformed <==>
           |b| - 16 < if b[5] == 2 then 4 else if b[5] == 9 || b[5] == 10 then 8
                      else if b[5] == 11 || b[5] == 12 || b[5] == 14 || b[5] == 15 || b[5] == 17 then 12 else 0)
    ensures FromLe(b[..4]) == 0x534F4E47 && b[5] != 13 ==>
        (DecodeToServer(b) == Ignored <==> b[5] < 2 || 2 < b[5] < 8 || b[5] == 16 || b[5] > 17)
  {
    hide FromLe, Unpack, PropertyBody;
    HeaderAt(b);
    Sizes();
  }

  /** A client throws on the wrong magic number, on a size over 16 MB, and on a payload too short for what it announces. */
  lemma ClientRefuses(b: bytes)
    requires |b| >= 16
    ensures FromLe(b[..4]) != 0x534F4E47 <==> DecodeToClient(b) == BadMagic
    ensures FromLe(b[..4]) == 0x534F4E47 ==>
        (DecodeToClient(b) == Malformed <==>
           || FromLe(b[8..12]) > 0x100_0000
           || (b[5] == 4 && (|b| < 22 || FromLe(b[18..22]) > 0x10_0000 || FromLe(b[18..22]) > |b| - 22))
           || (b[5] == 16 && |b| < 28))
    ensures FromLe(b[..4]) == 0x534F4E47 && FromLe(b[8..12]) <= 0x100_0000 ==>
        (DecodeToClient(b) == Ignored <==> b[5] < 3 || 6 < b[5] < 16 || b[5] > 16)
  {
    hide FromLe, Unpack;
    HeaderAt(b);
    Sizes();
    if |b| >= 22 {
      var body := b[16..];
      UnpackMore(ERROR_HEADER, body);
      assert ERROR_HEADER[1..] == [4];
      UnpackMore([4], body[2..]);
      assert body[2..][..4] == b[18..22];
    }
  }

  // ---------------------------------------------------------------- values of a type

  /** Lists nested this deep, with such values inside. */
  predicate Nested(depth: nat, v: Value, inside: Value -> bool)
    decreases depth
  {
    if depth == 0 then inside(v) else v.VList? && forall k :: 0 <= k < |v.items| ==> Nested(depth - 1, v.items[k], inside)
  }

  predicate OfBase(env: Env, base: Base, v: Value) {
    match base
    case Prim(p) => HasPrimitive(p, v)
    case User(name) => HasType(env, Named(name), v)
  }

  predicate OfElement(env: Env, t: Type, v: Value) {
    if t.isOptional then v.VNone? || (v.VSome? && OfBase(env, t.base, v.v)) else OfBase(env, t.base, v)
  }

  /** A value of a type: lists as deep as its dimensions, at least one for an array, of its elements. */
  predicate OfType(env: Env, t: Type, v: Value) {
    Nested(if !t.isArray then 0 else if t.dims == 0 then 1 else t.dims, v, w => OfElement(env, t, w))
  }

  lemma {:induction false} HaveTypesIff(env: Env, c: Call, vs: seq<Value>)
    ensures HaveTypes(env, Repeat(c, |vs|), vs) <==> forall k :: 0 <= k < |vs| ==> HasType(env, c, vs[k])
  {
    hide HasType;
    if vs != [] {
      HaveTypesIff(env, c, vs[1..]);
      assert Repeat(c, |vs|)[1..] == Repeat(c, |vs[1..]|);
      assert forall k :: 1 <= k < |vs| ==> vs[k] == vs[1..][k - 1];
    }
  }

  /** What the calls emitted for a type can be given are exactly the values of that type (arrays of optionals aside). */
  lemma {:induction false} TypeOfCallIff(env: Env, t: Type, v: Value)
    requires t.isArray ==> !t.isOptional
    ensures HasType(env, CallFor(t), v) <==> OfType(env, t, v)
    decreases if t.isArray then t.dims + 2 else if t.isOptional then 1 else 0
  {
    hide HasPrimitive;
    if t.isArray {
      var dims: nat := if t.dims > 0 then t.dims else 1;
      var elem := t.(dims := dims - 1, isArray := dims - 1 > 0);
      ElementsIff(env, t, dims, elem, v);
    } else if t.isOptional {
      assert CallFor(t) == Maybe(CallFor(t.(isOptional := false)));
    }
  }

  lemma {:induction false} ElementsIff(env: Env, t: Type, dims: nat, elem: Type, v: Value)
    requires t.isArray && !t.isOptional && dims == (if t.dims > 0 then t.dims else 1)
    requires elem == t.(dims := dims - 1, isArray := dims - 1 > 0)
    ensures HasType(env, CallFor(t), v) <==> OfType(env, t, v)
    decreases t.dims + 2, 0
  {
    hide HasPrimitive, OfElement;
    var call := if !elem.isArray && elem.base.User? then Named(elem.base.name) else CallFor(elem);
    assert HasType(env, CallFor(t), v) <==> v.VList? && HaveTypes(env, Repeat(call, |v.items|), v.items);
    if v.VList? {
      HaveTypesIff(env, call, v.items);
      forall k | 0 <= k < |v.items|
        ensures HasType(env, call, v.items[k]) <==> Nested(dims - 1, v.items[k], w => OfElement(env, t, w))
      {
        assert CallFor(elem) == call by { ElementCall(elem); }
        ElementIff(env, elem, v.items[k]);
        SameElements(env, t, elem, dims - 1, v.items[k]);
      }
    }
  }

  lemma ElementCall(elem: Type)
    requires !elem.isOptional
    ensures !elem.isArray && elem.base.User? ==> CallFor(elem) == Named(elem.base.name)
  {
  }

  lemma {:induction false} ElementIff(env: Env, elem: Type, v: Value)
    requires !elem.isOptional
    ensures HasType(env, CallFor(elem), v) <==> OfType(env, elem, v)
    decreases if elem.isArray then elem.dims + 2 else 0, 1
  {
    if elem.isArray {
      var dims: nat := if elem.dims > 0 then elem.dims else 1;
      ElementsIff(env, elem, dims, elem.(dims := dims - 1, isArray := dims - 1 > 0), v);
    } else {
      hide HasPrimitive;
    }
  }

  lemma {:induction false} SameElements(env: Env, t: Type, elem: Type, depth: nat, v: Value)
    requires elem == t.(dims := depth, isArray := depth > 0)
    ensures OfType(env, elem, v) <==> Nested(depth, v, w => OfElement(env, t, w))
  {
    hide OfBase;
    assert forall w :: OfElement(env, elem, w) == OfElement(env, t, w);
    SameInside(depth, v, w => OfElement(env, elem, w), w => OfElement(env, t, w));
  }

  lemma {:induction false} SameInside(depth: nat, v: Value, f: Value -> bool, g: Value -> bool)
    requires forall w :: f(w) == g(w)
    ensures Nested(depth, v, f) == Nested(depth, v, g)
    decreases depth
  {
    if depth > 0 && v.VList? {
      forall k | 0 <= k < |v.items| { SameInside(depth - 1, v.items[k], f, g); }
    }
  }

  // ---------------------------------------------------------------- encoded values

  /** Every scalar: one byte for a flag, the two's complement or plain little-endian integer, the raw word of a
      floating-point number, and a 32-bit length ahead of text. */
  lemma ScalarLayout(p: Primitive, v: Value)
    requires HasPrimitive(p, v)
    ensures EncodePrimitive(p, v) ==
            match v
            case VBool(b) => Some([if b then 1 else 0])
            case VInt(n) => Some(Le(if n < 0 then n + Pow256(Width(p)) else n, Width(p)))
            case VFloat(word) => Some(word)
            case VText(text) => if |text| <= 0x10_0000 then Some(Le(|text|, 4) + text) else None
            case _ => None
    ensures v.VInt? ==> Width(p) == match p
              case I8 => 1 case U8 => 1 case I16 => 2 case U16 => 2 case I32 => 4 case U32 => 4 case _ => 8
  {
  }

  /** Fields and elements stand one after the other, in order: encoding two lists joined is joining the encodings. */
  lemma {:induction false} EncodingsJoin(env: Env, cs: seq<Call>, vs: seq<Value>, cs': seq<Call>, vs': seq<Value>)
    requires HaveTypes(env, cs, vs) && HaveTypes(env, cs', vs')
    ensures HaveTypes(env, cs + cs', vs + vs')
    ensures var e, e', all := EncodeAll(env, cs, vs), EncodeAll(env, cs', vs'), EncodeAll(env, cs + cs', vs + vs');
            all == if e.Some? && e'.Some? then Some(e.value + e'.value) else None
    decreases |vs|
  {
    hide Encode, HasType;
    if vs == [] {
      assert cs + cs' == cs' && vs + vs' == vs';
      var e' := EncodeAll(env, cs', vs');
      if e'.Some? {
        assert [] + e'.value == e'.value;
      }
    } else {
      EncodingsJoin(env, cs[1..], vs[1..], cs', vs');
      assert (cs + cs')[1..] == cs[1..] + cs' && (vs + vs')[1..] == vs[1..] + vs';
      var first, e, e' := Encode(env, cs[0], vs[0]), EncodeAll(env, cs[1..], vs[1..]), EncodeAll(env, cs', vs');
      if first.Some? && e.Some? && e'.Some? {
        assert first.value + (e.value + e'.value) == first.value + e.value + e'.value;
      }
    }
  }

  /** A list stands behind its count; the template helper refuses one of more than 2^20 elements. */
  lemma ListLayout(env: Env, c: Call, v: Value)
    requires HasType(env, c, v)
    ensures c.TemplateArray? && |v.items| <= 0x10_0000 && EncodeAll(env, Repeat(c.elem, |v.items|), v.items).Some? ==>
        Encode(env, c, v) == Some(Le(|v.items|, 4) + EncodeAll(env, Repeat(c.elem, |v.items|), v.items).value)
    ensures c.TemplateArray? && |v.items| > 0x10_0000 ==> Encode(env, c, v) == None
    ensures c.NamedArray? && |v.items| < 0x1_0000_0000 && EncodeAll(env, Repeat(Named(c.name), |v.items|), v.items).Some? ==>
        Encode(env, c, v) == Some(Le(|v.items|, 4) + EncodeAll(env, Repeat(Named(c.name), |v.items|), v.items).value)
  {
    hide EncodePrimitive, HasPrimitive, HaveTypes, EncodeAll, Le;
  }

  /** A value on its own, an optional behind its flag, and a struct as its fields. */
  lemma ContainerLayout(env: Env, c: Call, v: Value)
    requires HasType(env, c, v)
    ensures EncodeAll(env, [c], [v]) == Encode(env, c, v)
    ensures c.Maybe? && v.VNone? ==> Encode(env, c, v) == Some([0])
    ensures c.Maybe? && v.VSome? && Encode(env, c.inner, v.v).Some? ==>
        Encode(env, c, v) == Some([1] + Encode(env, c.inner, v.v).value)
    ensures c.Named? && env.defs[c.name].StructDef? ==> Encode(env, c, v) == EncodeAll(env, env.defs[c.name].fields, v.fields)
  {
    hide EncodePrimitive, HasPrimitive, Le;
    assert [c][1..] == [] && [v][1..] == [] && EncodeAll(env, [], []) == Some([]);
    var e := Encode(env, c, v);
    if e.Some? {
      assert e.value + [] == e.value;
    }
  }

  /** An enum is a signed and a flags type an unsigned 32-bit integer. */
  lemma EnumLayout(env: Env, name: string, v: Value)
    requires HasType(env, Named(name), v) && env.defs[name].EnumDef?
    ensures v.VInt? && Encode(env, Named(name), v) == Some(Le(v.n % 0x1_0000_0000, 4))
    ensures if env.defs[name].isFlags then 0 <= v.n < 0x1_0000_0000 else -0x8000_0000 <= v.n < 0x8000_0000
  {
    hide Le;
    Pow256Values();
  }
}
