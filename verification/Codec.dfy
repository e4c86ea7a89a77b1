/** The schema-directed C++ codec: what the calls emitted by compiler/codegen.cpp do to a byte buffer, together
    with the primitives of src/buffer.cpp and the array templates of include/song/buffer.hpp. */
module Codec {
  import opened Bytes
  import opened Ast

  const MAX_STRING: nat := 0x10_0000
  const MAX_ARRAY: nat := 0x10_0000

  // ---------------------------------------------------------------- emitted calls

  /** The call that the generator emits for a type: a primitive codec, encode_<name>, encode_array_<name>, the
      encode_array<> template, or encode_optional around another call. */
  datatype Call =
    | Scalar(p: Primitive)
    | Named(name: string)
    | NamedArray(name: string)
    | TemplateArray(elem: Call)
    | Maybe(inner: Call)

  /** Follows encode_call / decode_call: arrays are peeled first, one dimension at a time, then the optional. */
  function CallFor(t: Type): Call
    decreases if t.isArray then t.dims + 2 else if t.isOptional then 1 else 0
  {
    if t.isArray then
      var dims: nat := if t.dims > 0 then t.dims else 1;
      var elem := t.(dims := dims - 1, isArray := dims - 1 > 0);
      if !elem.isArray && elem.base.User? then NamedArray(elem.base.name) else TemplateArray(CallFor(elem))
    else if t.isOptional then Maybe(CallFor(t.(isOptional := false)))
    else match t.base
      case Prim(p) => Scalar(p)
      case User(name) => Named(name)
  }

  /** Calls for which the emitted C++ compiles: the array template knows numbers, strings and nested vectors. */
  predicate Compiles(c: Call) {
    match c
    case Scalar(p) => !p.Void?
    case Named(_) => true
    case NamedArray(_) => true
    case TemplateArray(elem) =>
      Compiles(elem) && (elem.TemplateArray? || (elem.Scalar? && elem.p != Bool && elem.p != Blob))
    case Maybe(inner) => Compiles(inner) && !inner.Maybe?
  }

  datatype Def = StructDef(fields: seq<Call>) | EnumDef(isFlags: bool)

  /** The generated definitions. rank gives the by-value nesting depth of each struct: C++ rejects a struct that
      contains itself by value. Recursion through arrays compiles; recursion through optionals, which is allowed here as
      well, does not compile in C++. */
  datatype Env = Env(defs: map<string, Def>, rank: map<string, nat>)

  /** Every user type a call mentions is defined. */
  predicate Closed(env: Env, c: Call) {
    match c
    case Scalar(_) => true
    case Named(name) => name in env.defs && name in env.rank
    case NamedArray(name) => name in env.defs && name in env.rank
    case TemplateArray(elem) => Closed(env, elem)
    case Maybe(inner) => Closed(env, inner)
  }

  predicate Usable(env: Env, c: Call) {
    Compiles(c) && Closed(env, c)
  }

  ghost predicate ValidEnv(env: Env) {
    && env.defs.Keys <= env.rank.Keys
    && forall name, k :: name in env.defs && env.defs[name].StructDef? && 0 <= k < |env.defs[name].fields| ==>
      && Usable(env, env.defs[name].fields[k])
      && Rank(env, env.defs[name].fields[k]) <= env.rank[name]
  }

  /** One more than the nesting depth of a struct held by value; zero for everything that reads a byte first. */
  function Rank(env: Env, c: Call): nat {
    if c.Named? && c.name in env.rank then env.rank[c.name] + 1 else 0
  }

  // ---------------------------------------------------------------- values

  datatype Value =
    | VBool(b: bool)
    | VInt(n: int)
    | VFloat(word: bytes)
    | VText(text: bytes)
    | VStruct(fields: seq<Value>)
    | VList(items: seq<Value>)
    | VNone
    | VSome(v: Value)

  function Width(p: Primitive): nat {
    match p
    case I8 => 1 case U8 => 1
    case I16 => 2 case U16 => 2
    case I32 => 4 case U32 => 4 case F32 => 4
    case I64 => 8 case U64 => 8 case F64 => 8
    case Bool => 1 case Str => 4 case Blob => 4 case Void => 0
  }

  predicate Signed(p: Primitive) { p.I8? || p.I16? || p.I32? || p.I64? }

  predicate Unsigned(p: Primitive) { p.U8? || p.U16? || p.U32? || p.U64? }

  predicate HasPrimitive(p: Primitive, v: Value) {
    if p.Bool? then v.VBool?
    else if Signed(p) then v.VInt? && FitsSigned(v.n, Width(p))
    else if Unsigned(p) then v.VInt? && 0 <= v.n < Pow256(Width(p))
    else if p.F32? || p.F64? then v.VFloat? && |v.word| == Width(p)
    else !p.Void? && v.VText?
  }

  /** How an enum travels: its underlying integer. */
  function EnumPrimitive(isFlags: bool): Primitive { if isFlags then U32 else I32 }

  function Repeat<T>(c: T, n: nat): (cs: seq<T>)
    ensures |cs| == n && forall k :: 0 <= k < n ==> cs[k] == c
  {
    seq(n, _ => c)
  }

  /** v is a C++ value of the type behind the call. */
  predicate HasType(env: Env, c: Call, v: Value)
    decreases v, 1
  {
    match c
    case Scalar(p) => HasPrimitive(p, v)
    case Named(name) =>
      name in env.defs &&
      (match env.defs[name]
       case StructDef(fields) => v.VStruct? && HaveTypes(env, fields, v.fields)
       case EnumDef(isFlags) => HasPrimitive(EnumPrimitive(isFlags), v))
    case NamedArray(name) => v.VList? && HaveTypes(env, Repeat(Named(name), |v.items|), v.items)
    case TemplateArray(elem) => v.VList? && HaveTypes(env, Repeat(elem, |v.items|), v.items)
    case Maybe(inner) => v.VNone? || (v.VSome? && HasType(env, inner, v.v))
  }

  predicate HaveTypes(env: Env, cs: seq<Call>, vs: seq<Value>)
    decreases vs, 0
  {
    |cs| == |vs| && (vs != [] ==> HasType(env, cs[0], vs[0]) && HaveTypes(env, cs[1..], vs[1..]))
  }

  // ---------------------------------------------------------------- encoding

  function EncodePrimitive(p: Primitive, v: Value): Option<bytes>
    requires HasPrimitive(p, v)
  {
    if p.Bool? then Some([if v.b then 1 else 0])
    else if Signed(p) then Some(Le(ToUnsigned(v.n, Width(p)), Width(p)))
    else if Unsigned(p) then Some(Le(v.n, Width(p)))
    else if p.F32? || p.F64? then Some(v.word)
    else if |v.text| > MAX_STRING then None
    else Some(Le(|v.text|, 4) + v.text)
  }

  function Prepend(b: bytes, r: Option<bytes>): Option<bytes> {
    if r.Some? then Some(b + r.value) else None
  }

  /** The bytes an emitted encode call appends; None is the "too large" exception. The generated
      encode_array_<name> casts its element count to 32 bits and checks nothing. */
  function Encode(env: Env, c: Call, v: Value): Option<bytes>
    requires HasType(env, c, v)
    decreases v, 1
  {
    match c
    case Scalar(p) => EncodePrimitive(p, v)
    case Named(name) =>
      (match env.defs[name]
       case StructDef(fields) => EncodeAll(env, fields, v.fields)
       case EnumDef(isFlags) => EncodePrimitive(EnumPrimitive(isFlags), v))
    case NamedArray(name) =>
      Prepend(Le(|v.items| % U32_COUNT, 4), EncodeAll(env, Repeat(Named(name), |v.items|), v.items))
    case TemplateArray(elem) =>
      if |v.items| > MAX_ARRAY then None
      else Prepend(Le(|v.items|, 4), EncodeAll(env, Repeat(elem, |v.items|), v.items))
    case Maybe(inner) =>
      if v.VNone? then Some([0]) else Prepend([1], Encode(env, inner, v.v))
  }

  function EncodeAll(env: Env, cs: seq<Call>, vs: seq<Value>): Option<bytes>
    requires HaveTypes(env, cs, vs)
    decreases vs, 0
  {
    if vs == [] then Some([])
    else match Encode(env, cs[0], vs[0])
      case None => None
      case Some(b) => Prepend(b, EncodeAll(env, cs[1..], vs[1..]))
  }

  // ---------------------------------------------------------------- decoding

  /** A decoder's outcome and where it leaves the read position; Bad is an exception. */
  datatype Decoded<+T> = Ok(value: T, pos: nat) | Bad(pos: nat)

  function ReadBytes(b: bytes, pos: nat, n: nat): (r: Decoded<bytes>)
    requires pos <= |b|
    ensures r.Ok? <==> pos + n <= |b|
    ensures r.pos == if r.Ok? then pos + n else pos
  {
    if n > |b| || pos > |b| - n then Bad(pos) else Ok(b[pos..pos + n], pos + n)
  }

  function DecodePrimitive(p: Primitive, b: bytes, pos: nat): (r: Decoded<Value>)
    requires pos <= |b| && !p.Void?
    ensures pos <= r.pos <= |b|
    ensures r.Ok? ==> HasPrimitive(p, r.value)
  {
    var head := ReadBytes(b, pos, Width(p));
    if head.Bad? then Bad(head.pos)
    else
      var n := FromLe(head.value);
      FromLeBound(head.value);
      SignedFromBytes(head.value);
      if p.Bool? then Ok(VBool(head.value[0] != 0), head.pos)
      else if Signed(p) then Ok(VInt(ToSigned(n, Width(p))), head.pos)
      else if Unsigned(p) then Ok(VInt(n), head.pos)
      else if p.F32? || p.F64? then Ok(VFloat(head.value), head.pos)
      else if n > MAX_STRING then Bad(head.pos)
      else
        var text := ReadBytes(b, head.pos, n);
        if text.Bad? then Bad(text.pos) else Ok(VText(text.value), text.pos)
  }

  /** Runs an emitted decode call on any bytes at all. It terminates because every array and optional reads a
      byte before it recurses, and structs held by value nest finitely. */
  function Decode(env: Env, c: Call, b: bytes, pos: nat): (r: Decoded<Value>)
    requires ValidEnv(env) && Usable(env, c) && pos <= |b|
    ensures pos <= r.pos <= |b|
    ensures r.Ok? ==> HasType(env, c, r.value)
    decreases |b| - pos, Rank(env, c), 1
  {
    match c
    case Scalar(p) => DecodePrimitive(p, b, pos)
    case Named(name) =>
      (match env.defs[name]
       case StructDef(fields) =>
         (match DecodeAll(env, fields, b, pos, env.rank[name])
          case Ok(vs, p) => Ok(VStruct(vs), p)
          case Bad(p) => Bad(p))
       case EnumDef(isFlags) => DecodePrimitive(EnumPrimitive(isFlags), b, pos))
    case NamedArray(name) => DecodeArray(env, Named(name), U32_COUNT, b, pos)
    case TemplateArray(elem) => DecodeArray(env, elem, MAX_ARRAY, b, pos)
    case Maybe(inner) =>
      (match DecodePrimitive(Bool, b, pos)
       case Bad(p) => Bad(p)
       case Ok(flag, p) =>
         if !flag.b then Ok(VNone, p)
         else match Decode(env, inner, b, p)
           case Bad(q) => Bad(q)
           case Ok(v, q) => Ok(VSome(v), q))
  }

  function DecodeArray(env: Env, elem: Call, limit: nat, b: bytes, pos: nat): (r: Decoded<Value>)
    requires ValidEnv(env) && Usable(env, elem) && pos <= |b|
    ensures pos <= r.pos <= |b|
    ensures r.Ok? ==> r.value.VList? && HaveTypes(env, Repeat(elem, |r.value.items|), r.value.items)
    ensures r.Ok? ==> |r.value.items| <= limit && |r.value.items| < U32_COUNT
    decreases |b| - pos, 0, 0
  {
    var count := DecodePrimitive(U32, b, pos);
    Pow256Values();
    if count.Bad? then Bad(count.pos)
    else if count.value.n > limit then Bad(count.pos)
    else match DecodeAll(env, Repeat(elem, count.value.n), b, count.pos, Rank(env, elem))
      case Ok(vs, p) => Ok(VList(vs), p)
      case Bad(p) => Bad(p)
  }

  function DecodeAll(env: Env, cs: seq<Call>, b: bytes, pos: nat, ghost rank: nat): (r: Decoded<seq<Value>>)
    requires ValidEnv(env) && pos <= |b|
    requires forall k :: 0 <= k < |cs| ==> Usable(env, cs[k]) && Rank(env, cs[k]) <= rank
    ensures pos <= r.pos <= |b|
    ensures r.Ok? ==> HaveTypes(env, cs, r.value)
    decreases |b| - pos, rank, |cs| + 2
  {
    if cs == [] then Ok([], pos)
    else match Decode(env, cs[0], b, pos)
      case Bad(p) => Bad(p)
      case Ok(v, p) =>
        match DecodeAll(env, cs[1..], b, p, rank)
        case Bad(q) => Bad(q)
        case Ok(vs, q) => Ok([v] + vs, q)
  }
}
