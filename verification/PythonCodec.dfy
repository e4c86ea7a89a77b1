/** The Python codec: the calls emitted by compiler/python_codegen.cpp running on python/song/buffer.py, and its
    agreement on the wire with the C++ codec. Python checks no string or array limits, refuses a count that does
    not fit 32 bits, and refuses text that is not UTF-8. */
module PythonCodec {
  import opened Bytes
  import opened Ast
  import opened Codec
  import opened CodecProofs

  /** encode_array_i32 / _i64 / _string have helpers; every other array is an emitted loop. */
  datatype PyCall =
    | PyScalar(p: Primitive)
    | PyNamed(name: string)
    | PyHelperArray(p: Primitive)
    | PyLoop(elem: PyCall)
    | PyMaybe(inner: PyCall)

  predicate HasHelper(p: Primitive) { p.I32? || p.I64? || p.Str? }

  function PyCallFor(t: Type): PyCall
    decreases if t.isArray then t.dims + 2 else if t.isOptional then 1 else 0
  {
    if t.isArray then
      var dims: nat := if t.dims > 0 then t.dims else 1;
      var elem := t.(dims := dims - 1, isArray := dims - 1 > 0);
      if !elem.isArray && elem.base.Prim? && HasHelper(elem.base.p) then PyHelperArray(elem.base.p)
      else if !elem.isArray && elem.base.User? then PyLoop(PyNamed(elem.base.name))
      else PyLoop(PyCallFor(elem))
    else if t.isOptional then PyMaybe(PyCallFor(t.(isOptional := false)))
    else match t.base
      case Prim(p) => PyScalar(p)
      case User(name) => PyNamed(name)
  }

  /** The Python counterpart of a C++ call. */
  function PyOf(c: Call): PyCall {
    match c
    case Scalar(p) => PyScalar(p)
    case Named(name) => PyNamed(name)
    case NamedArray(name) => PyLoop(PyNamed(name))
    case TemplateArray(elem) => if elem.Scalar? && HasHelper(elem.p) then PyHelperArray(elem.p) else PyLoop(PyOf(elem))
    case Maybe(inner) => PyMaybe(PyOf(inner))
  }

  /** Both generators walk a type the same way, wherever the C++ one emits code that compiles. */
  lemma {:induction false} SameCalls(t: Type)
    requires Compiles(CallFor(t))
    ensures PyCallFor(t) == PyOf(CallFor(t))
    decreases if t.isArray then t.dims + 2 else if t.isOptional then 1 else 0
  {
    if t.isArray {
      var dims: nat := if t.dims > 0 then t.dims else 1;
      var elem := t.(dims := dims - 1, isArray := dims - 1 > 0);
      if elem.isArray || elem.base.Prim? {
        SameCalls(elem);
      }
    } else if t.isOptional {
      SameCalls(t.(isOptional := false));
    }
  }

  type PyEnv = map<string, seq<PyCall>>

  function PyOfAll(cs: seq<Call>): (ps: seq<PyCall>)
    ensures |ps| == |cs| && forall k :: 0 <= k < |cs| ==> ps[k] == PyOf(cs[k])
  {
    seq(|cs|, k requires 0 <= k < |cs| => PyOf(cs[k]))
  }

  /** The generated Python structs; enums have no Python codec and are left undefined. */
  function PyEnvOf(env: Env): PyEnv {
    map name | name in env.defs && env.defs[name].StructDef? :: PyOfAll(env.defs[name].fields)
  }

  // ---------------------------------------------------------------- the Python encoder and decoder

  /** struct.pack and friends; None is a raised exception. */
  function Pack(p: Primitive, v: Value): Option<bytes> {
    if !HasPrimitive(p, v) then None
    else if p.Str? || p.Blob? then (if |v.text| >= U32_COUNT then None else Some(Le(|v.text|, 4) + v.text))
    else EncodePrimitive(p, v)
  }

  function PyEncode(env: PyEnv, c: PyCall, v: Value): Option<bytes>
    decreases v, 1
  {
    match c
    case PyScalar(p) => Pack(p, v)
    case PyNamed(name) =>
      if name in env && v.VStruct? && |v.fields| == |env[name]| then PyEncodeAll(env, env[name], v.fields) else None
    case PyHelperArray(p) =>
      if v.VList? && |v.items| < U32_COUNT
      then Prepend(Le(|v.items|, 4), PyEncodeAll(env, Repeat(PyScalar(p), |v.items|), v.items)) else None
    case PyLoop(elem) =>
      if v.VList? && |v.items| < U32_COUNT
      then Prepend(Le(|v.items|, 4), PyEncodeAll(env, Repeat(elem, |v.items|), v.items)) else None
    case PyMaybe(inner) =>
      if v.VNone? then Some([0]) else if v.VSome? then Prepend([1], PyEncode(env, inner, v.v)) else None
  }

  function PyEncodeAll(env: PyEnv, cs: seq<PyCall>, vs: seq<Value>): Option<bytes>
    requires |cs| == |vs|
    decreases vs, 0
  {
    if vs == [] then Some([])
    else match PyEncode(env, cs[0], vs[0])
      case None => None
      case Some(b) => Prepend(b, PyEncodeAll(env, cs[1..], vs[1..]))
  }

  function Unpack(utf8: bytes -> bool, p: Primitive, b: bytes, pos: nat): (r: Decoded<Value>)
    requires pos <= |b|
    ensures pos <= r.pos <= |b|
    ensures r.Ok? && !p.Void? ==> r.pos > pos
  {
    if p.Void? then Bad(pos)
    else if p.Str? || p.Blob? then
      var head := ReadBytes(b, pos, 4);
      if head.Bad? then Bad(head.pos)
      else
        var text := ReadBytes(b, head.pos, FromLe(head.value));
        if text.Bad? || (p.Str? && !utf8(text.value)) then Bad(text.pos) else Ok(VText(text.value), text.pos)
    else DecodePrimitive(p, b, pos)
  }

  function PyRank(rank: map<string, nat>, c: PyCall): nat {
    if c.PyNamed? && c.name in rank then rank[c.name] + 1 else 0
  }

  /** Every struct is defined and holds by value only structs of lower rank. */
  ghost predicate PyValid(env: PyEnv, rank: map<string, nat>) {
    && env.Keys <= rank.Keys
    && forall name, k :: name in env && 0 <= k < |env[name]| ==> PyRank(rank, env[name][k]) <= rank[name]
  }

  function PyDecode(utf8: bytes -> bool, env: PyEnv, ghost rank: map<string, nat>, c: PyCall, b: bytes, pos: nat):
      (r: Decoded<Value>)
    requires PyValid(env, rank) && pos <= |b|
    ensures pos <= r.pos <= |b|
    decreases |b| - pos, PyRank(rank, c), 1
  {
    match c
    case PyScalar(p) => Unpack(utf8, p, b, pos)
    case PyNamed(name) =>
      if name !in env then Bad(pos)
      else (match PyDecodeAll(utf8, env, rank, env[name], b, pos, rank[name])
            case Ok(vs, p) => Ok(VStruct(vs), p)
            case Bad(p) => Bad(p))
    case PyHelperArray(p) => PyDecodeList(utf8, env, rank, PyScalar(p), b, pos)
    case PyLoop(elem) => PyDecodeList(utf8, env, rank, elem, b, pos)
    case PyMaybe(inner) =>
      (match DecodePrimitive(Bool, b, pos)
       case Bad(p) => Bad(p)
       case Ok(flag, p) =>
         if !flag.b then Ok(VNone, p)
         else match PyDecode(utf8, env, rank, inner, b, p)
           case Bad(q) => Bad(q)
           case Ok(v, q) => Ok(VSome(v), q))
  }

  function PyDecodeList(utf8: bytes -> bool, env: PyEnv, ghost rank: map<string, nat>, elem: PyCall, b: bytes, pos: nat):
      (r: Decoded<Value>)
    requires PyValid(env, rank) && pos <= |b|
    ensures pos <= r.pos <= |b|
    decreases |b| - pos, 0, 0
  {
    var count := DecodePrimitive(U32, b, pos);
    if count.Bad? then Bad(count.pos)
    else match PyDecodeAll(utf8, env, rank, Repeat(elem, count.value.n), b, count.pos, PyRank(rank, elem))
      case Ok(vs, p) => Ok(VList(vs), p)
      case Bad(p) => Bad(p)
  }

  function PyDecodeAll(utf8: bytes -> bool, env: PyEnv, ghost rank: map<string, nat>, cs: seq<PyCall>, b: bytes,
                       pos: nat, ghost bound: nat): (r: Decoded<seq<Value>>)
    requires PyValid(env, rank) && pos <= |b|
    requires forall k :: 0 <= k < |cs| ==> PyRank(rank, cs[k]) <= bound
    ensures pos <= r.pos <= |b|
    decreases |b| - pos, bound, |cs| + 2
  {
    if cs == [] then Ok([], pos)
    else match PyDecode(utf8, env, rank, cs[0], b, pos)
      case Bad(p) => Bad(p)
      case Ok(v, p) =>
        match PyDecodeAll(utf8, env, rank, cs[1..], b, p, bound)
        case Bad(q) => Bad(q)
        case Ok(vs, q) => Ok([v] + vs, q)
  }

  // ---------------------------------------------------------------- agreement

  /** The common subset: no enums, which have no Python codec. */
  predicate NoEnums(env: Env) {
    forall name :: name in env.defs ==> env.defs[name].StructDef?
  }

  /** Every string in the value is UTF-8 (byte blocks are free). */
  predicate TextOk(utf8: bytes -> bool, env: Env, c: Call, v: Value)
    requires HasType(env, c, v)
    decreases v, 1
  {
    match c
    case Scalar(p) => p.Str? ==> utf8(v.text)
    case Named(name) => env.defs[name].StructDef? ==> AllTextOk(utf8, env, env.defs[name].fields, v.fields)
    case NamedArray(name) => AllTextOk(utf8, env, Repeat(Named(name), |v.items|), v.items)
    case TemplateArray(elem) => AllTextOk(utf8, env, Repeat(elem, |v.items|), v.items)
    case Maybe(inner) => v.VSome? ==> TextOk(utf8, env, inner, v.v)
  }

  predicate AllTextOk(utf8: bytes -> bool, env: Env, cs: seq<Call>, vs: seq<Value>)
    requires HaveTypes(env, cs, vs)
    decreases vs, 0
  {
    vs != [] ==> TextOk(utf8, env, cs[0], vs[0]) && AllTextOk(utf8, env, cs[1..], vs[1..])
  }

  lemma RepeatPy(c: Call, n: nat)
    ensures PyOfAll(Repeat(c, n)) == Repeat(PyOf(c), n)
  {
  }

  /** Both encoders produce the same bytes for every value within the limits. */
  lemma {:induction false} EncodersAgree(env: Env, c: Call, v: Value)
    requires NoEnums(env) && Usable(env, c) && ValidEnv(env) && HasType(env, c, v)
    requires WithinLimits(env, c, v) && Narrow(v)
    ensures Encode(env, c, v).Some?
    ensures PyEncode(PyEnvOf(env), PyOf(c), v) == Encode(env, c, v)
    decreases v, 1
  {
    hide ValidEnv, NoEnums, PyEnvOf, EncodeAll, PyEncodeAll, EncodePrimitive, Pack, AllWithinLimits, HaveTypes;
    EncodeFailsIff(env, c, v);
    match c
    case Scalar(p) => ScalarEncodersAgree(env, p, v);
    case Named(name) => StructEncodersAgree(env, name, v);
    case NamedArray(name) => ItemEncodersAgree(env, Named(name), v.items);
    case TemplateArray(elem) => ItemEncodersAgree(env, elem, v.items);
    case Maybe(inner) => if v.VSome? { EncodersAgree(env, inner, v.v); }
  }

  lemma ScalarEncodersAgree(env: Env, p: Primitive, v: Value)
    requires HasType(env, Scalar(p), v) && WithinLimits(env, Scalar(p), v)
    ensures PyEncode(PyEnvOf(env), PyScalar(p), v) == Encode(env, Scalar(p), v)
  {
  }

  lemma {:induction false} StructEncodersAgree(env: Env, name: string, v: Value)
    requires NoEnums(env) && Usable(env, Named(name)) && ValidEnv(env) && HasType(env, Named(name), v)
    requires WithinLimits(env, Named(name), v) && Narrow(v)
    ensures PyEncode(PyEnvOf(env), PyNamed(name), v) == Encode(env, Named(name), v)
    decreases v, 0
  {
    AllEncodersAgree(env, env.defs[name].fields, v.fields);
  }

  lemma {:induction false} ItemEncodersAgree(env: Env, elem: Call, vs: seq<Value>)
    requires NoEnums(env) && ValidEnv(env) && Usable(env, elem) && HaveTypes(env, Repeat(elem, |vs|), vs)
    requires AllWithinLimits(env, Repeat(elem, |vs|), vs) && AllNarrow(vs)
    ensures PyEncodeAll(PyEnvOf(env), Repeat(PyOf(elem), |vs|), vs) == EncodeAll(env, Repeat(elem, |vs|), vs)
    decreases vs, 1
  {
    RepeatPy(elem, |vs|);
    AllEncodersAgree(env, Repeat(elem, |vs|), vs);
  }

  lemma {:induction false} AllEncodersAgree(env: Env, cs: seq<Call>, vs: seq<Value>)
    requires NoEnums(env) && ValidEnv(env) && HaveTypes(env, cs, vs)
    requires forall k :: 0 <= k < |cs| ==> Usable(env, cs[k])
    requires AllWithinLimits(env, cs, vs) && AllNarrow(vs)
    ensures PyEncodeAll(PyEnvOf(env), PyOfAll(cs), vs) == EncodeAll(env, cs, vs)
    decreases vs, 0
  {
    if vs != [] {
      EncodersAgree(env, cs[0], vs[0]);
      AllEncodersAgree(env, cs[1..], vs[1..]);
      assert PyOfAll(cs)[1..] == PyOfAll(cs[1..]);
    }
  }

  lemma PyEnvValid(env: Env)
    requires ValidEnv(env)
    ensures PyValid(PyEnvOf(env), env.rank)
  {
    var py := PyEnvOf(env);
    forall name, k | name in py && 0 <= k < |py[name]|
      ensures PyRank(env.rank, py[name][k]) <= env.rank[name]
    {
      assert PyRank(env.rank, py[name][k]) == Rank(env, env.defs[name].fields[k]);
    }
  }

  /** Where the C++ decoder succeeds with UTF-8 text, the Python decoder returns the same value at the same place. */
  lemma {:induction false} DecodersAgree(utf8: bytes -> bool, env: Env, c: Call, b: bytes, pos: nat)
    requires NoEnums(env) && ValidEnv(env) && Usable(env, c) && pos <= |b| && PyValid(PyEnvOf(env), env.rank)
    requires Decode(env, c, b, pos).Ok? && TextOk(utf8, env, c, Decode(env, c, b, pos).value)
    ensures PyDecode(utf8, PyEnvOf(env), env.rank, PyOf(c), b, pos) == Decode(env, c, b, pos)
    decreases |b| - pos, Rank(env, c), 1
  {
    match c
    case Scalar(p) =>
    case Named(name) => AllDecodersAgree(utf8, env, env.defs[name].fields, b, pos, env.rank[name]);
    case NamedArray(name) => ListDecodersAgree(utf8, env, Named(name), U32_COUNT, b, pos);
    case TemplateArray(elem) => ListDecodersAgree(utf8, env, elem, MAX_ARRAY, b, pos);
    case Maybe(inner) =>
      var flag := DecodePrimitive(Bool, b, pos);
      if flag.value.b {
        DecodersAgree(utf8, env, inner, b, flag.pos);
      }
  }

  lemma {:induction false} ListDecodersAgree(utf8: bytes -> bool, env: Env, elem: Call, limit: nat, b: bytes, pos: nat)
    requires NoEnums(env) && ValidEnv(env) && Usable(env, elem) && pos <= |b| && PyValid(PyEnvOf(env), env.rank)
    requires var d := DecodeArray(env, elem, limit, b, pos);
             d.Ok? && AllTextOk(utf8, env, Repeat(elem, |d.value.items|), d.value.items)
    ensures PyDecodeList(utf8, PyEnvOf(env), env.rank, PyOf(elem), b, pos) == DecodeArray(env, elem, limit, b, pos)
    decreases |b| - pos, 0, 0
  {
    hide DecodePrimitive, ValidEnv, NoEnums, PyEnvOf, PyValid, PyDecodeAll, DecodeAll, AllTextOk, Repeat, PyOfAll;
    var count := DecodePrimitive(U32, b, pos);
    RepeatPy(elem, count.value.n);
    ListCount(env, elem, limit, b, pos);
    AllDecodersAgree(utf8, env, Repeat(elem, count.value.n), b, count.pos, Rank(env, elem));
  }

  lemma ListCount(env: Env, elem: Call, limit: nat, b: bytes, pos: nat)
    requires ValidEnv(env) && Usable(env, elem) && pos <= |b| && DecodeArray(env, elem, limit, b, pos).Ok?
    ensures var count := DecodePrimitive(U32, b, pos);
            && count.Ok? && count.pos > pos && count.value.VInt?
            && count.value.n == |DecodeArray(env, elem, limit, b, pos).value.items|
  {
  }

  lemma {:induction false} AllDecodersAgree(utf8: bytes -> bool, env: Env, cs: seq<Call>, b: bytes, pos: nat, bound: nat)
    requires NoEnums(env) && ValidEnv(env) && pos <= |b| && PyValid(PyEnvOf(env), env.rank)
    requires forall k :: 0 <= k < |cs| ==> Usable(env, cs[k]) && Rank(env, cs[k]) <= bound
    requires var d := DecodeAll(env, cs, b, pos, bound); d.Ok? && AllTextOk(utf8, env, cs, d.value)
    ensures PyDecodeAll(utf8, PyEnvOf(env), env.rank, PyOfAll(cs), b, pos, bound) == DecodeAll(env, cs, b, pos, bound)
    decreases |b| - pos, bound, |cs| + 2
  {
    if cs != [] {
      var first := Decode(env, cs[0], b, pos);
      var d := DecodeAll(env, cs, b, pos, bound);
      assert d.value[1..] == DecodeAll(env, cs[1..], b, first.pos, bound).value;
      DecodersAgree(utf8, env, cs[0], b, pos);
      AllDecodersAgree(utf8, env, cs[1..], b, first.pos, bound);
      assert PyOfAll(cs)[1..] == PyOfAll(cs[1..]);
    }
  }

  /** One wire: the encoders agree, and each decoder inverts the other's encoder. */
  lemma CrossLanguageRoundTrip(utf8: bytes -> bool, env: Env, t: Type, v: Value, rest: bytes)
    requires var c := CallFor(t);
             NoEnums(env) && ValidEnv(env) && Usable(env, c) && HasType(env, c, v)
             && WithinLimits(env, c, v) && Narrow(v) && TextOk(utf8, env, c, v)
    ensures PyValid(PyEnvOf(env), env.rank)
    ensures var c, pc := CallFor(t), PyCallFor(t);
            var e := PyEncode(PyEnvOf(env), pc, v);
            && e.Some? && e == Encode(env, c, v)
            && Decode(env, c, e.value + rest, 0) == Ok(v, |e.value|)
            && PyDecode(utf8, PyEnvOf(env), env.rank, pc, e.value + rest, 0) == Ok(v, |e.value|)
  {
    var c := CallFor(t);
    SameCalls(t);
    EncodersAgree(env, c, v);
    var e := Encode(env, c, v).value;
    RoundTripIff(env, c, v, e, rest);
    PyEnvValid(env);
    DecodersAgree(utf8, env, c, e + rest, 0);
  }

  // ---------------------------------------------------------------- Python on its own

  /** Every string in the value is UTF-8. */
  predicate PyTextOk(utf8: bytes -> bool, env: PyEnv, c: PyCall, v: Value)
    requires PyEncode(env, c, v).Some?
    decreases v, 1
  {
    match c
    case PyScalar(p) => p.Str? ==> utf8(v.text)
    case PyNamed(name) => AllPyTextOk(utf8, env, env[name], v.fields)
    case PyHelperArray(p) => AllPyTextOk(utf8, env, Repeat(PyScalar(p), |v.items|), v.items)
    case PyLoop(elem) => AllPyTextOk(utf8, env, Repeat(elem, |v.items|), v.items)
    case PyMaybe(inner) => v.VSome? ==> PyTextOk(utf8, env, inner, v.v)
  }

  predicate AllPyTextOk(utf8: bytes -> bool, env: PyEnv, cs: seq<PyCall>, vs: seq<Value>)
    requires |cs| == |vs| && PyEncodeAll(env, cs, vs).Some?
    decreases vs, 0
  {
    vs != [] ==> PyTextOk(utf8, env, cs[0], vs[0]) && AllPyTextOk(utf8, env, cs[1..], vs[1..])
  }

  lemma PyScalarRoundTrip(utf8: bytes -> bool, p: Primitive, v: Value, pre: bytes, e: bytes, post: bytes)
    requires Pack(p, v) == Some(e) && (p.Str? ==> utf8(v.text))
    ensures Unpack(utf8, p, pre + e + post, |pre|) == Ok(v, |pre| + |e|)
  {
    if p.Str? || p.Blob? {
      var head := Le(|v.text|, 4);
      Pow256Values();
      LeRoundTrip(|v.text|, 4);
      Regroup(pre, head, v.text, post);
      ReadBack(pre, head, v.text + post);
      ReadBack(pre + head, v.text, post);
    } else {
      PrimitiveRoundTrip(p, v, pre, e, post);
    }
  }

  /** Whatever the Python encoder accepts, also over the C++ limits, the Python decoder reads back, and stops right behind
      it. */
  lemma {:induction false} PyRoundTrip(utf8: bytes -> bool, env: PyEnv, rank: map<string, nat>, c: PyCall, v: Value,
                                       pre: bytes, e: bytes, post: bytes)
    requires PyValid(env, rank) && PyEncode(env, c, v) == Some(e) && PyTextOk(utf8, env, c, v)
    ensures PyDecode(utf8, env, rank, c, pre + e + post, |pre|) == Ok(v, |pre| + |e|)
    decreases v, 1
  {
    hide Pack, Unpack, DecodePrimitive;
    match c
    case PyScalar(p) => PyScalarRoundTrip(utf8, p, v, pre, e, post);
    case PyNamed(name) => PyRoundTripAll(utf8, env, rank, env[name], v.fields, pre, e, post, rank[name]);
    case PyHelperArray(p) => PyListRoundTrip(utf8, env, rank, PyScalar(p), v, pre, e, post);
    case PyLoop(elem) => PyListRoundTrip(utf8, env, rank, elem, v, pre, e, post);
    case PyMaybe(inner) => PyMaybeRoundTrip(utf8, env, rank, inner, v, pre, e, post);
  }

  lemma {:induction false} PyMaybeRoundTrip(utf8: bytes -> bool, env: PyEnv, rank: map<string, nat>, inner: PyCall, v: Value,
                                            pre: bytes, e: bytes, post: bytes)
    requires PyValid(env, rank) && PyEncode(env, PyMaybe(inner), v) == Some(e) && PyTextOk(utf8, env, PyMaybe(inner), v)
    ensures PyDecode(utf8, env, rank, PyMaybe(inner), pre + e + post, |pre|) == Ok(v, |pre| + |e|)
    decreases v, 0
  {
    hide DecodePrimitive;
    var flag: bytes, t: bytes := [1], [];
    if v.VNone? {
      flag := [0];
    } else {
      t := PyEncode(env, inner, v.v).value;
      PyRoundTrip(utf8, env, rank, inner, v.v, pre + flag, t, post);
    }
    Regroup(pre, flag, t, post);
    assert e == flag + t;
    PrimitiveRoundTrip(Bool, VBool(v.VSome?), pre, flag, t + post);
  }

  lemma {:induction false} PyListRoundTrip(utf8: bytes -> bool, env: PyEnv, rank: map<string, nat>, elem: PyCall, v: Value,
                                           pre: bytes, e: bytes, post: bytes)
    requires PyValid(env, rank) && v.VList? && |v.items| < U32_COUNT
    requires Prepend(Le(|v.items|, 4), PyEncodeAll(env, Repeat(elem, |v.items|), v.items)) == Some(e)
    requires AllPyTextOk(utf8, env, Repeat(elem, |v.items|), v.items)
    ensures PyDecodeList(utf8, env, rank, elem, pre + e + post, |pre|) == Ok(v, |pre| + |e|)
    decreases v, 0
  {
    hide DecodePrimitive;
    Pow256Values();
    var head, t := Le(|v.items|, 4), PyEncodeAll(env, Repeat(elem, |v.items|), v.items).value;
    Regroup(pre, head, t, post);
    PrimitiveRoundTrip(U32, VInt(|v.items|), pre, head, t + post);
    PyRoundTripAll(utf8, env, rank, Repeat(elem, |v.items|), v.items, pre + head, t, post, PyRank(rank, elem));
  }

  lemma {:induction false} PyRoundTripAll(utf8: bytes -> bool, env: PyEnv, rank: map<string, nat>, cs: seq<PyCall>, vs: seq<Value>,
                                          pre: bytes, e: bytes, post: bytes, bound: nat)
    requires PyValid(env, rank) && |cs| == |vs| && forall k :: 0 <= k < |cs| ==> PyRank(rank, cs[k]) <= bound
    requires PyEncodeAll(env, cs, vs) == Some(e) && AllPyTextOk(utf8, env, cs, vs)
    ensures PyDecodeAll(utf8, env, rank, cs, pre + e + post, |pre|, bound) == Ok(vs, |pre| + |e|)
    decreases vs, 0
  {
    hide PyEncode, PyDecode, PyTextOk;
    if vs != [] {
      var b := PyEncode(env, cs[0], vs[0]).value;
      var rest := PyEncodeAll(env, cs[1..], vs[1..]).value;
      Regroup(pre, b, rest, post);
      PyRoundTrip(utf8, env, rank, cs[0], vs[0], pre, b, rest + post);
      PyRoundTripAll(utf8, env, rank, cs[1..], vs[1..], pre + b, rest, post, bound);
      assert [vs[0]] + vs[1..] == vs;
    }
  }
}
