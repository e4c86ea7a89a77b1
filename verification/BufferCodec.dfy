/** The emitted encoders and decoders as they run: appending to a Buffer and advancing its read position. */
module BufferCodec {
  import opened Bytes
  import opened Ast
  import opened Buffers
  import opened Codec

  method EncodeTo(buf: Buffer, env: Env, c: Call, v: Value) returns (ok: bool)
    requires buf.Valid() && HasType(env, c, v)
    modifies buf, buf.data
    ensures buf.Valid() && (buf.data == old(buf.data) || fresh(buf.data)) && buf.readPos == old(buf.readPos)
    ensures ok ==> Encode(env, c, v).Some? && buf.Contents() == old(buf.Contents()) + Encode(env, c, v).value
    ensures Encode(env, c, v).Some? && old(buf.size) + |Encode(env, c, v).value| <= MAX_CAPACITY ==> ok
    decreases v, 1
  {
    hide Encode, HasType, EncodePrimitive, HasPrimitive, WriteFits, EncodeAll, HaveTypes, Le, Prepend, Repeat;
    EncodeCases(env, c, v);
    match c
    case Scalar(p) => ok := EncodePrimitiveTo(buf, p, v);
    case Named(name) => ok := EncodeNamedTo(buf, env, name, v);
    case NamedArray(name) => ok := EncodeArrayTo(buf, env, Named(name), v.items);
    case TemplateArray(elem) =>
      if |v.items| > MAX_ARRAY {
        return false;
      }
      ok := EncodeArrayTo(buf, env, elem, v.items);
    case Maybe(inner) => ok := EncodeMaybeTo(buf, env, inner, v);
  }

  /** What the branches of the encoder need of the specification. */
  lemma EncodeCases(env: Env, c: Call, v: Value)
    requires HasType(env, c, v)
    ensures c.Scalar? ==> HasPrimitive(c.p, v) && Encode(env, c, v) == EncodePrimitive(c.p, v)
    ensures c.NamedArray? ==>
        v.VList? && HaveTypes(env, Repeat(Named(c.name), |v.items|), v.items) &&
        Encode(env, c, v) == Prepend(Le(|v.items| % U32_COUNT, 4), EncodeAll(env, Repeat(Named(c.name), |v.items|), v.items))
    ensures c.TemplateArray? ==>
        v.VList? && HaveTypes(env, Repeat(c.elem, |v.items|), v.items) &&
        Encode(env, c, v) == if |v.items| > MAX_ARRAY then None
                             else Prepend(Le(|v.items| % U32_COUNT, 4), EncodeAll(env, Repeat(c.elem, |v.items|), v.items))
  {
    hide EncodePrimitive, HasPrimitive, EncodeAll, HaveTypes, Le, Repeat;
  }

  /** A struct's fields in order, or an enum's number. */
  method EncodeNamedTo(buf: Buffer, env: Env, name: string, v: Value) returns (ok: bool)
    requires buf.Valid() && HasType(env, Named(name), v)
    modifies buf, buf.data
    ensures buf.Valid() && (buf.data == old(buf.data) || fresh(buf.data)) && buf.readPos == old(buf.readPos)
    ensures var e := Encode(env, Named(name), v);
            && (ok ==> e.Some? && buf.Contents() == old(buf.Contents()) + e.value)
            && (e.Some? && old(buf.size) + |e.value| <= MAX_CAPACITY ==> ok)
    decreases v, 0
  {
    hide EncodePrimitive, HasPrimitive, WriteFits;
    match env.defs[name]
    case StructDef(fields) => ok := EncodeEachTo(buf, env, fields, v.fields);
    case EnumDef(isFlags) => ok := EncodePrimitiveTo(buf, EnumPrimitive(isFlags), v);
  }

  /** A presence flag, then the value if there is one. */
  method EncodeMaybeTo(buf: Buffer, env: Env, inner: Call, v: Value) returns (ok: bool)
    requires buf.Valid() && HasType(env, Maybe(inner), v)
    modifies buf, buf.data
    ensures buf.Valid() && (buf.data == old(buf.data) || fresh(buf.data)) && buf.readPos == old(buf.readPos)
    ensures var e := Encode(env, Maybe(inner), v);
            && (ok ==> e.Some? && buf.Contents() == old(buf.Contents()) + e.value)
            && (e.Some? && old(buf.size) + |e.value| <= MAX_CAPACITY ==> ok)
    decreases v, 0
  {
    var flag: bytes := [if v.VSome? then 1 else 0];
    ok := buf.Write(flag);
    if ok && v.VSome? {
      ok := EncodeTo(buf, env, inner, v.v);
      if ok {
        Append(old(buf.Contents()), flag, Encode(env, inner, v.v).value);
      }
    }
  }

  /** A count cast to 32 bits, then the elements. */
  method EncodeArrayTo(buf: Buffer, env: Env, elem: Call, vs: seq<Value>) returns (ok: bool)
    requires buf.Valid() && HaveTypes(env, Repeat(elem, |vs|), vs)
    modifies buf, buf.data
    ensures buf.Valid() && (buf.data == old(buf.data) || fresh(buf.data)) && buf.readPos == old(buf.readPos)
    ensures var e := Prepend(Le(|vs| % U32_COUNT, 4), EncodeAll(env, Repeat(elem, |vs|), vs));
            && (ok ==> e.Some? && buf.Contents() == old(buf.Contents()) + e.value)
            && (e.Some? && old(buf.size) + |e.value| <= MAX_CAPACITY ==> ok)
    decreases vs, 1
  {
    var count := Le(|vs| % U32_COUNT, 4);
    ok := buf.Write(count);
    if ok {
      ok := EncodeEachTo(buf, env, Repeat(elem, |vs|), vs);
      if ok {
        Append(old(buf.Contents()), count, EncodeAll(env, Repeat(elem, |vs|), vs).value);
      }
    }
  }

  lemma Append(a: bytes, b: bytes, c: bytes)
    ensures (a + b) + c == a + (b + c)
  {
  }

  lemma PrependPrepend(a: bytes, b: bytes, r: Option<bytes>)
    ensures Prepend([], r) == r
    ensures Prepend(a, Prepend(b, r)) == Prepend(a + b, r)
  {
    if r.Some? {
      assert [] + r.value == r.value;
      Append(a, b, r.value);
    }
  }

  method EncodePrimitiveTo(buf: Buffer, p: Primitive, v: Value) returns (ok: bool)
    requires buf.Valid() && HasPrimitive(p, v)
    modifies buf, buf.data
    ensures buf.Valid() && (buf.data == old(buf.data) || fresh(buf.data)) && buf.readPos == old(buf.readPos)
    ensures ok ==> EncodePrimitive(p, v).Some? && buf.Contents() == old(buf.Contents()) + EncodePrimitive(p, v).value
    ensures EncodePrimitive(p, v).Some? && old(buf.size) + |EncodePrimitive(p, v).value| <= MAX_CAPACITY ==> ok
  {
    hide Le;
    if p.Str? || p.Blob? {
      if |v.text| > MAX_STRING {
        return false;
      }
      ok := EncodeTextTo(buf, v.text);
    } else {
      ok := buf.Write(EncodePrimitive(p, v).value);
    }
  }

  /** encode_string and encode_bytes: the length, then the bytes. */
  method EncodeTextTo(buf: Buffer, text: bytes) returns (ok: bool)
    requires buf.Valid() && |text| <= MAX_STRING
    modifies buf, buf.data
    ensures buf.Valid() && (buf.data == old(buf.data) || fresh(buf.data)) && buf.readPos == old(buf.readPos)
    ensures ok ==> buf.Contents() == old(buf.Contents()) + (Le(|text|, 4) + text)
    ensures old(buf.size) + 4 + |text| <= MAX_CAPACITY ==> ok
  {
    var count := Le(|text|, 4);
    ok := buf.Write(count);
    if ok {
      ok := buf.Write(text);
      if ok {
        Append(old(buf.Contents()), count, text);
      }
    }
  }

  /** The loop shared by array elements and struct fields. */
  method EncodeEachTo(buf: Buffer, env: Env, cs: seq<Call>, vs: seq<Value>) returns (ok: bool)
    requires buf.Valid() && HaveTypes(env, cs, vs)
    modifies buf, buf.data
    ensures buf.Valid() && (buf.data == old(buf.data) || fresh(buf.data)) && buf.readPos == old(buf.readPos)
    ensures ok ==> EncodeAll(env, cs, vs).Some? && buf.Contents() == old(buf.Contents()) + EncodeAll(env, cs, vs).value
    ensures EncodeAll(env, cs, vs).Some? && old(buf.size) + |EncodeAll(env, cs, vs).value| <= MAX_CAPACITY ==> ok
    decreases vs, 0
  {
    ghost var written: bytes := [];
    var i := 0;
    ok := true;
    assert cs[0..] == cs && vs[0..] == vs;
    PrependPrepend([], [], EncodeAll(env, cs, vs));
    while i < |vs|
      invariant 0 <= i <= |vs| && ok
      invariant buf.Valid() && (buf.data == old(buf.data) || fresh(buf.data)) && buf.readPos == old(buf.readPos)
      invariant HaveTypes(env, cs[i..], vs[i..])
      invariant buf.Contents() == old(buf.Contents()) + written
      invariant EncodeAll(env, cs, vs) == Prepend(written, EncodeAll(env, cs[i..], vs[i..]))
    {
      ghost var b := Encode(env, cs[i], vs[i]);
      assert cs[i..][0] == cs[i] && vs[i..][0] == vs[i];
      ok := EncodeTo(buf, env, cs[i], vs[i]);
      if !ok {
        return;
      }
      assert cs[i..][1..] == cs[i + 1..] && vs[i..][1..] == vs[i + 1..];
      PrependPrepend(written, b.value, EncodeAll(env, cs[i + 1..], vs[i + 1..]));
      Append(old(buf.Contents()), written, b.value);
      written := written + b.value;
      i := i + 1;
    }
  }

  method DecodeFrom(buf: Buffer, env: Env, c: Call) returns (r: Option<Value>)
    requires buf.Valid() && ValidEnv(env) && Usable(env, c)
    modifies buf`readPos
    ensures buf.Valid()
    ensures var d := Decode(env, c, old(buf.Contents()), old(buf.readPos));
            buf.readPos == d.pos && r == if d.Ok? then Some(d.value) else None
    decreases buf.size - buf.readPos, Rank(env, c), 1
  {
    match c
    case Scalar(p) => r := DecodePrimitiveFrom(buf, p);
    case Named(name) =>
      match env.defs[name] {
        case StructDef(fields) =>
          var vs := DecodeEachFrom(buf, env, fields, env.rank[name]);
          r := if vs.Some? then Some(VStruct(vs.value)) else None;
        case EnumDef(isFlags) => r := DecodePrimitiveFrom(buf, EnumPrimitive(isFlags));
      }
    case NamedArray(name) => r := DecodeArrayFrom(buf, env, Named(name), U32_COUNT);
    case TemplateArray(elem) => r := DecodeArrayFrom(buf, env, elem, MAX_ARRAY);
    case Maybe(inner) =>
      var flag := DecodePrimitiveFrom(buf, Bool);
      if flag.None? {
        r := None;
      } else if !flag.value.b {
        r := Some(VNone);
      } else {
        r := DecodeFrom(buf, env, inner);
        r := if r.Some? then Some(VSome(r.value)) else None;
      }
  }

  method DecodePrimitiveFrom(buf: Buffer, p: Primitive) returns (r: Option<Value>)
    requires buf.Valid() && !p.Void?
    modifies buf`readPos
    ensures buf.Valid()
    ensures var d := DecodePrimitive(p, old(buf.Contents()), old(buf.readPos));
            buf.readPos == d.pos && r == if d.Ok? then Some(d.value) else None
  {
    var head := buf.Read(Width(p));
    if head.None? {
      return None;
    }
    var n := FromLe(head.value);
    if p.Str? || p.Blob? {
      if n > MAX_STRING {
        return None;
      }
      var text := buf.Read(n);
      r := if text.Some? then Some(VText(text.value)) else None;
    } else if p.Bool? {
      r := Some(VBool(head.value[0] != 0));
    } else if Signed(p) {
      r := Some(VInt(ToSigned(n, Width(p))));
    } else if Unsigned(p) {
      r := Some(VInt(n));
    } else {
      r := Some(VFloat(head.value));
    }
  }

  method DecodeArrayFrom(buf: Buffer, env: Env, elem: Call, limit: nat) returns (r: Option<Value>)
    requires buf.Valid() && ValidEnv(env) && Usable(env, elem)
    modifies buf`readPos
    ensures buf.Valid()
    ensures var d := DecodeArray(env, elem, limit, old(buf.Contents()), old(buf.readPos));
            buf.readPos == d.pos && r == if d.Ok? then Some(d.value) else None
    decreases buf.size - buf.readPos, 0, 0
  {
    var count := DecodePrimitiveFrom(buf, U32);
    if count.None? || count.value.n > limit {
      return None;
    }
    var vs := DecodeEachFrom(buf, env, Repeat(elem, count.value.n), Rank(env, elem));
    r := if vs.Some? then Some(VList(vs.value)) else None;
  }

  /** What is still to be decoded, continuing after the values already read. */
  ghost function Continue(done: seq<Value>, rest: Decoded<seq<Value>>): Decoded<seq<Value>> {
    match rest
    case Ok(vs, p) => Ok(done + vs, p)
    case Bad(p) => Bad(p)
  }

  lemma ContinueContinue(a: seq<Value>, v: Value, rest: Decoded<seq<Value>>)
    ensures Continue([], rest) == rest
    ensures Continue(a, Continue([v], rest)) == Continue(a + [v], rest)
  {
    if rest.Ok? {
      assert [] + rest.value == rest.value;
      assert a + ([v] + rest.value) == (a + [v]) + rest.value;
    }
  }

  method DecodeEachFrom(buf: Buffer, env: Env, cs: seq<Call>, ghost rank: nat) returns (r: Option<seq<Value>>)
    requires buf.Valid() && ValidEnv(env)
    requires forall k :: 0 <= k < |cs| ==> Usable(env, cs[k]) && Rank(env, cs[k]) <= rank
    modifies buf`readPos
    ensures buf.Valid()
    ensures var d := DecodeAll(env, cs, old(buf.Contents()), old(buf.readPos), rank);
            buf.readPos == d.pos && r == if d.Ok? then Some(d.value) else None
    decreases buf.size - buf.readPos, rank, |cs| + 2
  {
    hide ValidEnv, HaveTypes;
    var out: seq<Value> := [];
    var i := 0;
    ghost var whole := DecodeAll(env, cs, buf.Contents(), buf.readPos, rank);
    assert cs[0..] == cs;
    ContinueContinue([], VNone, whole);
    while i < |cs|
      invariant 0 <= i <= |cs| && buf.Valid() && old(buf.readPos) <= buf.readPos
      invariant whole == Continue(out, DecodeAll(env, cs[i..], buf.Contents(), buf.readPos, rank))
    {
      assert cs[i..][0] == cs[i];
      var v := DecodeFrom(buf, env, cs[i]);
      if v.None? {
        return None;
      }
      assert cs[i..][1..] == cs[i + 1..];
      ContinueContinue(out, v.value, DecodeAll(env, cs[i + 1..], buf.Contents(), buf.readPos, rank));
      out := out + [v.value];
      i := i + 1;
    }
    assert out + [] == out;
    r := Some(out);
  }
}
