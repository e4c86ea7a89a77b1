/** python/song/buffer.py as it runs: a byte array that grows and a read position that moves, with the emitted encoders
    and decoders working on it. */
module PythonBuffer {
  import opened Bytes
  import opened Ast
  import opened Codec
  import opened PythonCodec
  import BufferCodec

  class PyBuffer {
    var data: bytes
    var readPos: nat

    ghost predicate Valid()
      reads this
    {
      readPos <= |data|
    }

    constructor (data: bytes)
      ensures Valid() && this.data == data && readPos == 0
    {
      this.data, readPos := data, 0;
    }

    method Write(b: bytes)
      requires Valid()
      modifies this`data
      ensures Valid() && data == old(data) + b
    {
      data := data + b;
    }

    /** None is the underflow exception, which moves nothing. */
    method Read(n: nat) returns (r: Option<bytes>)
      requires Valid()
      modifies this`readPos
      ensures Valid()
      ensures var d := ReadBytes(data, old(readPos), n); readPos == d.pos && r == if d.Ok? then Some(d.value) else None
    {
      if readPos + n > |data| {
        return None;
      }
      r := Some(data[readPos..readPos + n]);
      readPos := readPos + n;
    }

    method Reset()
      modifies this
      ensures Valid() && data == [] && readPos == 0
    {
      data, readPos := [], 0;
    }

    method ResetRead()
      modifies this`readPos
      ensures Valid() && readPos == 0
    {
      readPos := 0;
    }
  }

  // ---------------------------------------------------------------- encoding

  method PackTo(buf: PyBuffer, p: Primitive, v: Value) returns (ok: bool)
    requires buf.Valid()
    modifies buf`data
    ensures buf.Valid() && (ok <==> Pack(p, v).Some?)
    ensures ok ==> buf.data == old(buf.data) + Pack(p, v).value
  {
    if !HasPrimitive(p, v) {
      return false;
    }
    if p.Str? || p.Blob? {
      if |v.text| >= U32_COUNT {
        return false;
      }
      var head := Le(|v.text|, 4);
      buf.Write(head);
      buf.Write(v.text);
      BufferCodec.Append(old(buf.data), head, v.text);
    } else {
      buf.Write(EncodePrimitive(p, v).value);
    }
    ok := true;
  }

  /** Writes exactly the encoding, and raises exactly where the encoding does. */
  method PyEncodeTo(buf: PyBuffer, env: PyEnv, c: PyCall, v: Value) returns (ok: bool)
    requires buf.Valid()
    modifies buf`data
    ensures buf.Valid() && (ok <==> PyEncode(env, c, v).Some?)
    ensures ok ==> buf.data == old(buf.data) + PyEncode(env, c, v).value
    decreases v, 1
  {
    match c
    case PyScalar(p) => ok := PackTo(buf, p, v);
    case PyNamed(name) =>
      if name !in env || !v.VStruct? || |v.fields| != |env[name]| {
        return false;
      }
      ok := PyEncodeEachTo(buf, env, env[name], v.fields);
    case PyHelperArray(p) =>
      if !v.VList? || |v.items| >= U32_COUNT {
        return false;
      }
      ok := PyEncodeListTo(buf, env, PyScalar(p), v.items);
    case PyLoop(elem) =>
      if !v.VList? || |v.items| >= U32_COUNT {
        return false;
      }
      ok := PyEncodeListTo(buf, env, elem, v.items);
    case PyMaybe(inner) =>
      if v.VNone? {
        buf.Write([0]);
        ok := true;
      } else if v.VSome? {
        buf.Write([1]);
        ok := PyEncodeTo(buf, env, inner, v.v);
        if ok {
          BufferCodec.Append(old(buf.data), [1], PyEncode(env, inner, v.v).value);
        }
      } else {
        ok := false;
      }
  }

  method PyEncodeListTo(buf: PyBuffer, env: PyEnv, elem: PyCall, vs: seq<Value>) returns (ok: bool)
    requires buf.Valid() && |vs| < U32_COUNT
    modifies buf`data
    ensures var e := Prepend(Le(|vs|, 4), PyEncodeAll(env, Repeat(elem, |vs|), vs));
            && buf.Valid() && (ok <==> e.Some?) && (ok ==> buf.data == old(buf.data) + e.value)
    decreases vs, 1
  {
    var head := Le(|vs|, 4);
    buf.Write(head);
    ok := PyEncodeEachTo(buf, env, Repeat(elem, |vs|), vs);
    if ok {
      BufferCodec.Append(old(buf.data), head, PyEncodeAll(env, Repeat(elem, |vs|), vs).value);
    }
  }

  /** The loop over fields or elements. */
  method PyEncodeEachTo(buf: PyBuffer, env: PyEnv, cs: seq<PyCall>, vs: seq<Value>) returns (ok: bool)
    requires buf.Valid() && |cs| == |vs|
    modifies buf`data
    ensures buf.Valid() && (ok <==> PyEncodeAll(env, cs, vs).Some?)
    ensures ok ==> buf.data == old(buf.data) + PyEncodeAll(env, cs, vs).value
    decreases vs, 0
  {
    ghost var written: bytes := [];
    var i := 0;
    assert cs[0..] == cs && vs[0..] == vs;
    BufferCodec.PrependPrepend([], [], PyEncodeAll(env, cs, vs));
    while i < |vs|
      invariant 0 <= i <= |vs| && buf.Valid() && buf.data == old(buf.data) + written
      invariant PyEncodeAll(env, cs, vs) == Prepend(written, PyEncodeAll(env, cs[i..], vs[i..]))
    {
      ghost var b := PyEncode(env, cs[i], vs[i]);
      assert cs[i..][0] == cs[i] && vs[i..][0] == vs[i];
      ok := PyEncodeTo(buf, env, cs[i], vs[i]);
      if !ok {
        return;
      }
      assert cs[i..][1..] == cs[i + 1..] && vs[i..][1..] == vs[i + 1..];
      BufferCodec.PrependPrepend(written, b.value, PyEncodeAll(env, cs[i + 1..], vs[i + 1..]));
      BufferCodec.Append(old(buf.data), written, b.value);
      written := written + b.value;
      i := i + 1;
    }
    ok := true;
  }

  // ---------------------------------------------------------------- decoding

  method UnpackFrom(utf8: bytes -> bool, buf: PyBuffer, p: Primitive) returns (r: Option<Value>)
    requires buf.Valid()
    modifies buf`readPos
    ensures buf.Valid()
    ensures var d := Unpack(utf8, p, buf.data, old(buf.readPos)); buf.readPos == d.pos && r == if d.Ok? then Some(d.value) else None
  {
    if p.Void? {
      return None;
    }
    var head := buf.Read(Width(p));
    if head.None? {
      return None;
    }
    var n := FromLe(head.value);
    if p.Str? || p.Blob? {
      var text := buf.Read(n);
      r := if text.None? || (p.Str? && !utf8(text.value)) then None else Some(VText(text.value));
    } else if p.Bool? {
      r := Some(VBool(head.value[0] != 0));
    } else if Signed(p) {
      r := Some(VInt(ToSigned(n, Width(p))));
    } else if Unsigned(p) {
      r := Some(VInt(n));
    } else {
      r := Some(VFloat(head.value));
    }
  }

  /** Reads exactly what the decoder specifies and leaves the read position behind it. */
  method PyDecodeFrom(utf8: bytes -> bool, buf: PyBuffer, env: PyEnv, ghost rank: map<string, nat>, c: PyCall)
    returns (r: Option<Value>)
    requires buf.Valid() && PyValid(env, rank)
    modifies buf`readPos
    ensures buf.Valid()
    ensures var d := PyDecode(utf8, env, rank, c, buf.data, old(buf.readPos));
            buf.readPos == d.pos && r == if d.Ok? then Some(d.value) else None
    decreases |buf.data| - buf.readPos, PyRank(rank, c), 1
  {
    match c
    case PyScalar(p) => r := UnpackFrom(utf8, buf, p);
    case PyNamed(name) =>
      if name !in env {
        return None;
      }
      var vs := PyDecodeEachFrom(utf8, buf, env, rank, env[name], rank[name]);
      r := if vs.Some? then Some(VStruct(vs.value)) else None;
    case PyHelperArray(p) => r := PyDecodeListFrom(utf8, buf, env, rank, PyScalar(p));
    case PyLoop(elem) => r := PyDecodeListFrom(utf8, buf, env, rank, elem);
    case PyMaybe(inner) =>
      var flag := UnpackFrom(utf8, buf, Bool);
      if flag.None? {
        r := None;
      } else if !flag.value.b {
        r := Some(VNone);
      } else {
        r := PyDecodeFrom(utf8, buf, env, rank, inner);
        r := if r.Some? then Some(VSome(r.value)) else None;
      }
  }

  method PyDecodeListFrom(utf8: bytes -> bool, buf: PyBuffer, env: PyEnv, ghost rank: map<string, nat>, elem: PyCall)
    returns (r: Option<Value>)
    requires buf.Valid() && PyValid(env, rank)
    modifies buf`readPos
    ensures buf.Valid()
    ensures var d := PyDecodeList(utf8, env, rank, elem, buf.data, old(buf.readPos));
            buf.readPos == d.pos && r == if d.Ok? then Some(d.value) else None
    decreases |buf.data| - buf.readPos, 0, 0
  {
    var count := UnpackFrom(utf8, buf, U32);
    if count.None? {
      return None;
    }
    var vs := PyDecodeEachFrom(utf8, buf, env, rank, Repeat(elem, count.value.n), PyRank(rank, elem));
    r := if vs.Some? then Some(VList(vs.value)) else None;
  }

  method PyDecodeEachFrom(utf8: bytes -> bool, buf: PyBuffer, env: PyEnv, ghost rank: map<string, nat>, cs: seq<PyCall>,
                          ghost bound: nat) returns (r: Option<seq<Value>>)
    requires buf.Valid() && PyValid(env, rank)
    requires forall k :: 0 <= k < |cs| ==> PyRank(rank, cs[k]) <= bound
    modifies buf`readPos
    ensures buf.Valid()
    ensures var d := PyDecodeAll(utf8, env, rank, cs, buf.data, old(buf.readPos), bound);
            buf.readPos == d.pos && r == if d.Ok? then Some(d.value) else None
    decreases |buf.data| - buf.readPos, bound, |cs| + 2
  {
    var out: seq<Value> := [];
    var i := 0;
    ghost var whole := PyDecodeAll(utf8, env, rank, cs, buf.data, buf.readPos, bound);
    assert cs[0..] == cs;
    BufferCodec.ContinueContinue([], VNone, whole);
    while i < |cs|
      invariant 0 <= i <= |cs| && buf.Valid() && old(buf.readPos) <= buf.readPos
      invariant whole == BufferCodec.Continue(out, PyDecodeAll(utf8, env, rank, cs[i..], buf.data, buf.readPos, bound))
    {
      assert cs[i..][0] == cs[i];
      var v := PyDecodeFrom(utf8, buf, env, rank, cs[i]);
      if v.None? {
        return None;
      }
      assert cs[i..][1..] == cs[i + 1..];
      BufferCodec.ContinueContinue(out, v.value, PyDecodeAll(utf8, env, rank, cs[i + 1..], buf.data, buf.readPos, bound));
      out := out + [v.value];
      i := i + 1;
    }
    assert out + [] == out;
    r := Some(out);
  }
}
