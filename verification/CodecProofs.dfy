/** What the codec guarantees: decoding undoes encoding, exactly when it does, and what any decoded value is. */
module CodecProofs {
  import opened Bytes
  import opened Ast
  import opened Codec

  /** No list in the value is too long for a 32-bit element count. */
  predicate Narrow(v: Value)
    decreases v, 1
  {
    match v
    case VStruct(fields) => AllNarrow(fields)
    case VList(items) => |items| < U32_COUNT && AllNarrow(items)
    case VSome(w) => Narrow(w)
    case _ => true
  }

  predicate AllNarrow(vs: seq<Value>)
    decreases vs, 0
  {
    vs != [] ==> Narrow(vs[0]) && AllNarrow(vs[1..])
  }

  /** The sizes that the encoders check: text up to 1 MB, template arrays up to 2^20 elements. */
  predicate WithinLimits(env: Env, c: Call, v: Value)
    requires HasType(env, c, v)
    decreases v, 1
  {
    match c
    case Scalar(p) => v.VText? ==> |v.text| <= MAX_STRING
    case Named(name) => env.defs[name].StructDef? ==> AllWithinLimits(env, env.defs[name].fields, v.fields)
    case NamedArray(name) => AllWithinLimits(env, Repeat(Named(name), |v.items|), v.items)
    case TemplateArray(elem) =>
      |v.items| <= MAX_ARRAY && AllWithinLimits(env, Repeat(elem, |v.items|), v.items)
    case Maybe(inner) => v.VSome? ==> WithinLimits(env, inner, v.v)
  }

  predicate AllWithinLimits(env: Env, cs: seq<Call>, vs: seq<Value>)
    requires HaveTypes(env, cs, vs)
    decreases vs, 0
  {
    vs != [] ==> WithinLimits(env, cs[0], vs[0]) && AllWithinLimits(env, cs[1..], vs[1..])
  }

  /** Encoding fails exactly on a value with an oversized string, byte block or template array. */
  lemma {:induction false} EncodeFailsIff(env: Env, c: Call, v: Value)
    requires HasType(env, c, v)
    ensures Encode(env, c, v).Some? <==> WithinLimits(env, c, v)
    decreases v, 1
  {
    match c
    case Scalar(p) =>
    case Named(name) =>
      if env.defs[name].StructDef? { EncodeAllFailsIff(env, env.defs[name].fields, v.fields); }
    case NamedArray(name) => EncodeAllFailsIff(env, Repeat(Named(name), |v.items|), v.items);
    case TemplateArray(elem) => EncodeAllFailsIff(env, Repeat(elem, |v.items|), v.items);
    case Maybe(inner) => if v.VSome? { EncodeFailsIff(env, inner, v.v); }
  }

  lemma {:induction false} EncodeAllFailsIff(env: Env, cs: seq<Call>, vs: seq<Value>)
    requires HaveTypes(env, cs, vs)
    ensures EncodeAll(env, cs, vs).Some? <==> AllWithinLimits(env, cs, vs)
    decreases vs, 0
  {
    if vs != [] {
      EncodeFailsIff(env, cs[0], vs[0]);
      EncodeAllFailsIff(env, cs[1..], vs[1..]);
    }
  }

  // ---------------------------------------------------------------- decode undoes encode

  lemma ReadBack(pre: bytes, e: bytes, post: bytes)
    ensures ReadBytes(pre + e + post, |pre|, |e|) == Ok(e, |pre| + |e|)
  {
    assert (pre + e + post)[|pre|..|pre| + |e|] == e;
  }

  lemma PrimitiveRoundTrip(p: Primitive, v: Value, pre: bytes, e: bytes, post: bytes)
    requires HasPrimitive(p, v) && EncodePrimitive(p, v) == Some(e)
    ensures DecodePrimitive(p, pre + e + post, |pre|) == Ok(v, |pre| + |e|)
  {
    Pow256Values();
    if p.Str? || p.Blob? {
      var head := Le(|v.text|, 4);
      assert pre + e + post == pre + head + (v.text + post);
      ReadBack(pre, head, v.text + post);
      LeRoundTrip(|v.text|, 4);
      assert pre + e + post == (pre + head) + v.text + post;
      ReadBack(pre + head, v.text, post);
    } else {
      ReadBack(pre, e, post);
      if Signed(p) {
        LeRoundTrip(ToUnsigned(v.n, Width(p)), Width(p));
        SignedRoundTrip(v.n, Width(p));
      } else if Unsigned(p) {
        LeRoundTrip(v.n, Width(p));
      }
    }
  }

  lemma Regroup(pre: bytes, head: bytes, tail: bytes, post: bytes)
    ensures pre + head + (tail + post) == pre + (head + tail) + post
    ensures (pre + head) + tail + post == pre + (head + tail) + post
  {
  }

  /** The read position ends exactly at the first byte after the value. */
  lemma {:induction false} RoundTrip(env: Env, c: Call, v: Value, pre: bytes, e: bytes, post: bytes)
    requires ValidEnv(env) && Usable(env, c) && HasType(env, c, v)
    requires Encode(env, c, v) == Some(e) && Narrow(v)
    ensures Decode(env, c, pre + e + post, |pre|) == Ok(v, |pre| + |e|)
    decreases v, 1
  {
    hide DecodePrimitive, HasPrimitive, ValidEnv;
    match c
    case Scalar(p) => PrimitiveRoundTrip(p, v, pre, e, post);
    case Named(name) => NamedRoundTrip(env, name, v, pre, e, post);
    case NamedArray(name) => ArrayRoundTrip(env, Named(name), U32_COUNT, v, pre, e, post);
    case TemplateArray(elem) => ArrayRoundTrip(env, elem, MAX_ARRAY, v, pre, e, post);
    case Maybe(inner) => MaybeRoundTrip(env, inner, v, pre, e, post);
  }

  lemma {:induction false} NamedRoundTrip(env: Env, name: string, v: Value, pre: bytes, e: bytes, post: bytes)
    requires ValidEnv(env) && Usable(env, Named(name)) && HasType(env, Named(name), v)
    requires Encode(env, Named(name), v) == Some(e) && Narrow(v)
    ensures Decode(env, Named(name), pre + e + post, |pre|) == Ok(v, |pre| + |e|)
    decreases v, 0
  {
    hide DecodePrimitive, HasPrimitive;
    match env.defs[name]
    case StructDef(fields) => RoundTripAll(env, fields, v.fields, pre, e, post, env.rank[name]);
    case EnumDef(isFlags) => PrimitiveRoundTrip(EnumPrimitive(isFlags), v, pre, e, post);
  }

  lemma {:induction false} MaybeRoundTrip(env: Env, inner: Call, v: Value, pre: bytes, e: bytes, post: bytes)
    requires ValidEnv(env) && Usable(env, Maybe(inner)) && HasType(env, Maybe(inner), v)
    requires Encode(env, Maybe(inner), v) == Some(e) && Narrow(v)
    ensures Decode(env, Maybe(inner), pre + e + post, |pre|) == Ok(v, |pre| + |e|)
    decreases v, 0
  {
    hide DecodePrimitive, ValidEnv;
    var flag: bytes, t: bytes := [1], [];
    if v.VNone? {
      flag := [0];
    } else {
      t := Encode(env, inner, v.v).value;
      RoundTrip(env, inner, v.v, pre + flag, t, post);
    }
    Regroup(pre, flag, t, post);
    assert e == flag + t;
    PrimitiveRoundTrip(Bool, VBool(v.VSome?), pre, flag, t + post);
  }

  lemma {:induction false} ArrayRoundTrip(env: Env, elem: Call, limit: nat, v: Value, pre: bytes, e: bytes, post: bytes)
    requires ValidEnv(env) && Usable(env, elem)
    requires v.VList? && Narrow(v) && |v.items| <= limit
    requires HaveTypes(env, Repeat(elem, |v.items|), v.items)
    requires Prepend(Le(|v.items|, 4), EncodeAll(env, Repeat(elem, |v.items|), v.items)) == Some(e)
    ensures DecodeArray(env, elem, limit, pre + e + post, |pre|) == Ok(v, |pre| + |e|)
    decreases v, 0
  {
    Pow256Values();
    var head, t := Le(|v.items|, 4), EncodeAll(env, Repeat(elem, |v.items|), v.items).value;
    Regroup(pre, head, t, post);
    PrimitiveRoundTrip(U32, VInt(|v.items|), pre, head, t + post);
    RoundTripAll(env, Repeat(elem, |v.items|), v.items, pre + head, t, post, Rank(env, elem));
  }

  lemma {:induction false} RoundTripAll(env: Env, cs: seq<Call>, vs: seq<Value>, pre: bytes, e: bytes, post: bytes, rank: nat)
    requires ValidEnv(env) && HaveTypes(env, cs, vs)
    requires forall k :: 0 <= k < |cs| ==> Usable(env, cs[k]) && Rank(env, cs[k]) <= rank
    requires EncodeAll(env, cs, vs) == Some(e) && AllNarrow(vs)
    ensures DecodeAll(env, cs, pre + e + post, |pre|, rank) == Ok(vs, |pre| + |e|)
    decreases vs, 0
  {
    hide Encode, Decode, HasType, Narrow;
    if vs != [] {
      var b := Encode(env, cs[0], vs[0]).value;
      var rest := EncodeAll(env, cs[1..], vs[1..]).value;
      RoundTrip(env, cs[0], vs[0], pre, b, rest + post);
      assert pre + b + (rest + post) == pre + e + post;
      RoundTripAll(env, cs[1..], vs[1..], pre + b, rest, post, rank);
      assert (pre + b) + rest + post == pre + e + post;
      assert [vs[0]] + vs[1..] == vs;
    }
  }

  // ---------------------------------------------------------------- and only then

  /** Whatever bytes come in, a decoded list never has 2^32 elements or more. */
  lemma {:induction false} DecodedIsNarrow(env: Env, c: Call, b: bytes, pos: nat)
    requires ValidEnv(env) && Usable(env, c) && pos <= |b|
    requires Decode(env, c, b, pos).Ok?
    ensures Narrow(Decode(env, c, b, pos).value)
    decreases |b| - pos, Rank(env, c), 1
  {
    match c
    case Scalar(p) =>
    case Named(name) =>
      match env.defs[name] {
        case StructDef(fields) => DecodedAllNarrow(env, fields, b, pos, env.rank[name]);
        case EnumDef(isFlags) =>
      }
    case NamedArray(name) => DecodedArrayNarrow(env, Named(name), U32_COUNT, b, pos);
    case TemplateArray(elem) => DecodedArrayNarrow(env, elem, MAX_ARRAY, b, pos);
    case Maybe(inner) =>
      var flag := DecodePrimitive(Bool, b, pos);
      if flag.value.b {
        DecodedIsNarrow(env, inner, b, flag.pos);
      }
  }

  lemma {:induction false} DecodedArrayNarrow(env: Env, elem: Call, limit: nat, b: bytes, pos: nat)
    requires ValidEnv(env) && Usable(env, elem) && pos <= |b|
    requires DecodeArray(env, elem, limit, b, pos).Ok?
    ensures Narrow(DecodeArray(env, elem, limit, b, pos).value)
    decreases |b| - pos, 0, 0
  {
    var count := DecodePrimitive(U32, b, pos);
    DecodedAllNarrow(env, Repeat(elem, count.value.n), b, count.pos, Rank(env, elem));
  }

  lemma {:induction false} DecodedAllNarrow(env: Env, cs: seq<Call>, b: bytes, pos: nat, rank: nat)
    requires ValidEnv(env) && pos <= |b|
    requires forall k :: 0 <= k < |cs| ==> Usable(env, cs[k]) && Rank(env, cs[k]) <= rank
    requires DecodeAll(env, cs, b, pos, rank).Ok?
    ensures AllNarrow(DecodeAll(env, cs, b, pos, rank).value)
    decreases |b| - pos, rank, |cs| + 2
  {
    if cs != [] {
      DecodedIsNarrow(env, cs[0], b, pos);
      DecodedAllNarrow(env, cs[1..], b, Decode(env, cs[0], b, pos).pos, rank);
    }
  }

  /** Decoding encode(v) followed by anything gives v back, with the read position exactly at the rest, if and
      only if no array of a user type in v has 2^32 elements or more. */
  lemma RoundTripIff(env: Env, c: Call, v: Value, e: bytes, rest: bytes)
    requires ValidEnv(env) && Usable(env, c) && HasType(env, c, v)
    requires Encode(env, c, v) == Some(e)
    ensures Decode(env, c, e + rest, 0) == Ok(v, |e|) <==> Narrow(v)
  {
    var b := e + rest;
    if Narrow(v) {
      assert [] + e + rest == b;
      RoundTrip(env, c, v, [], e, rest);
    } else if Decode(env, c, b, 0) == Ok(v, |e|) {
      DecodedIsNarrow(env, c, b, 0);
    }
  }

  // ---------------------------------------------------------------- encode after decode

  /** Equal, except that a nonzero flag byte may have become 1. */
  predicate SameUpToFlags(a: bytes, b: bytes) {
    |a| == |b| && forall i :: 0 <= i < |a| ==> a[i] == b[i] || (a[i] != 0 && b[i] == 1)
  }

  lemma PrimitiveReencodes(p: Primitive, b: bytes, pos: nat)
    requires pos <= |b| && !p.Void? && DecodePrimitive(p, b, pos).Ok?
    ensures var r := DecodePrimitive(p, b, pos); var e := EncodePrimitive(p, r.value);
            e.Some? && SameUpToFlags(b[pos..r.pos], e.value)
  {
    var r := DecodePrimitive(p, b, pos);
    var head := b[pos..pos + Width(p)];
    FromLeRoundTrip(head);
    SignedFromBytes(head);
    if p.Str? || p.Blob? {
      assert b[pos..r.pos] == head + r.value.text;
    }
  }

  lemma JoinSame(b: bytes, i: nat, j: nat, k: nat, e: bytes, f: bytes)
    requires i <= j <= k <= |b| && SameUpToFlags(b[i..j], e) && SameUpToFlags(b[j..k], f)
    ensures SameUpToFlags(b[i..k], e + f)
  {
    assert b[i..k] == b[i..j] + b[j..k];
  }

  /** Whatever was decoded can be encoded again, into the very bytes it was read from up to flag bytes. */
  lemma {:induction false} Reencode(env: Env, c: Call, b: bytes, pos: nat)
    requires ValidEnv(env) && Usable(env, c) && pos <= |b| && Decode(env, c, b, pos).Ok?
    ensures var r := Decode(env, c, b, pos); var e := Encode(env, c, r.value);
            e.Some? && SameUpToFlags(b[pos..r.pos], e.value)
    decreases |b| - pos, Rank(env, c), 1
  {
    hide DecodePrimitive, EncodePrimitive, SameUpToFlags, ValidEnv, HasPrimitive, DecodeAll, EncodeAll, HaveTypes, Repeat, Le;
    match c
    case Scalar(p) => PrimitiveReencodes(p, b, pos);
    case Named(name) => ReencodeNamed(env, name, b, pos);
    case NamedArray(name) => ReencodeArray(env, Named(name), U32_COUNT, b, pos);
    case TemplateArray(elem) => ReencodeArray(env, elem, MAX_ARRAY, b, pos);
    case Maybe(inner) => ReencodeMaybe(env, inner, b, pos);
  }

  lemma {:induction false} ReencodeNamed(env: Env, name: string, b: bytes, pos: nat)
    requires ValidEnv(env) && Usable(env, Named(name)) && pos <= |b| && Decode(env, Named(name), b, pos).Ok?
    ensures var r := Decode(env, Named(name), b, pos); var e := Encode(env, Named(name), r.value);
            e.Some? && SameUpToFlags(b[pos..r.pos], e.value)
    decreases |b| - pos, Rank(env, Named(name)), 0
  {
    hide DecodePrimitive, EncodePrimitive, SameUpToFlags;
    if env.defs[name].StructDef? {
      ReencodeAll(env, env.defs[name].fields, b, pos, env.rank[name]);
    } else {
      PrimitiveReencodes(EnumPrimitive(env.defs[name].isFlags), b, pos);
    }
  }

  lemma {:induction false} ReencodeMaybe(env: Env, inner: Call, b: bytes, pos: nat)
    requires ValidEnv(env) && Usable(env, Maybe(inner)) && pos <= |b| && Decode(env, Maybe(inner), b, pos).Ok?
    ensures var r := Decode(env, Maybe(inner), b, pos); var e := Encode(env, Maybe(inner), r.value);
            e.Some? && SameUpToFlags(b[pos..r.pos], e.value)
    decreases |b| - pos, 0, 0
  {
    var flag := DecodePrimitive(Bool, b, pos);
    if flag.value.b {
      var r := Decode(env, inner, b, flag.pos);
      Reencode(env, inner, b, flag.pos);
      JoinSame(b, pos, flag.pos, r.pos, [1], Encode(env, inner, r.value).value);
    }
  }

  lemma {:induction false} ReencodeArray(env: Env, elem: Call, limit: nat, b: bytes, pos: nat)
    requires ValidEnv(env) && Usable(env, elem) && pos <= |b| && DecodeArray(env, elem, limit, b, pos).Ok?
    ensures var r := DecodeArray(env, elem, limit, b, pos); var n := |r.value.items|;
            var e := Prepend(Le(n, 4), EncodeAll(env, Repeat(elem, n), r.value.items));
            e.Some? && SameUpToFlags(b[pos..r.pos], e.value)
    decreases |b| - pos, 0, 0
  {
    var r := DecodeArray(env, elem, limit, b, pos);
    var count := DecodePrimitive(U32, b, pos);
    FromLeRoundTrip(b[pos..pos + 4]);
    ReencodeAll(env, Repeat(elem, count.value.n), b, count.pos, Rank(env, elem));
    JoinSame(b, pos, count.pos, r.pos, Le(count.value.n, 4), EncodeAll(env, Repeat(elem, count.value.n), r.value.items).value);
  }

  lemma {:induction false} ReencodeAll(env: Env, cs: seq<Call>, b: bytes, pos: nat, rank: nat)
    requires ValidEnv(env) && pos <= |b|
    requires forall k :: 0 <= k < |cs| ==> Usable(env, cs[k]) && Rank(env, cs[k]) <= rank
    requires DecodeAll(env, cs, b, pos, rank).Ok?
    ensures var r := DecodeAll(env, cs, b, pos, rank); var e := EncodeAll(env, cs, r.value);
            e.Some? && SameUpToFlags(b[pos..r.pos], e.value)
    decreases |b| - pos, rank, |cs| + 2
  {
    if cs != [] {
      var first := Decode(env, cs[0], b, pos);
      var r := DecodeAll(env, cs, b, pos, rank);
      Reencode(env, cs[0], b, pos);
      ReencodeAll(env, cs[1..], b, first.pos, rank);
      assert r.value[1..] == DecodeAll(env, cs[1..], b, first.pos, rank).value;
      JoinSame(b, pos, first.pos, r.pos, Encode(env, cs[0], first.value).value, EncodeAll(env, cs[1..], r.value[1..]).value);
    }
  }
}
