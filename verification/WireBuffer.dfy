/** src/wire.cpp as it runs: fields appended to and read from a Buffer, and messages assembled from a payload buffer and
    a frame buffer. */
module WireBuffer {
  import opened Bytes
  import opened Buffers
  import opened Framing
  import opened Wire
  import BufferCodec

  /** A run of encode_u8 .. encode_u32 calls. */
  method WriteFields(buf: Buffer, widths: seq<nat>, values: seq<nat>) returns (ok: bool)
    requires buf.Valid() && |widths| == |values|
    modifies buf, buf.data
    ensures buf.Valid() && (buf.data == old(buf.data) || fresh(buf.data)) && buf.readPos == old(buf.readPos)
    ensures ok ==> buf.Contents() == old(buf.Contents()) + Pack(widths, values)
    ensures old(buf.size) + Size(widths) <= MAX_CAPACITY ==> ok
  {
    hide Le;
    ghost var written: bytes := [];
    var i := 0;
    ok := true;
    assert widths[0..] == widths && values[0..] == values && written + Pack(widths, values) == Pack(widths, values);
    while i < |widths|
      invariant 0 <= i <= |widths| && ok
      invariant buf.Valid() && (buf.data == old(buf.data) || fresh(buf.data)) && buf.readPos == old(buf.readPos)
      invariant buf.Contents() == old(buf.Contents()) + written
      invariant written + Pack(widths[i..], values[i..]) == Pack(widths, values)
    {
      var field := Le(values[i], widths[i]);
      assert widths[i..][1..] == widths[i + 1..] && values[i..][1..] == values[i + 1..];
      ghost var rest := Pack(widths[i + 1..], values[i + 1..]);
      BufferCodec.Append(written, field, rest);
      ok := buf.Write(field);
      if !ok {
        return;
      }
      BufferCodec.Append(old(buf.Contents()), written, field);
      written := written + field;
      i := i + 1;
    }
    assert written + [] == written;
  }

  /** A run of decode_u8 .. decode_u32 calls; None is the underflow exception. */
  method ReadFields(buf: Buffer, widths: seq<nat>) returns (r: Option<seq<nat>>)
    requires buf.Valid()
    modifies buf`readPos
    ensures buf.Valid()
    ensures r.Some? <==> old(buf.readPos) + Size(widths) <= buf.size
    ensures r.Some? ==> buf.readPos == old(buf.readPos) + Size(widths)
                        && r.value == Unpack(widths, buf.Contents()[old(buf.readPos)..])
  {
    hide FromLe;
    var values: seq<nat> := [];
    var i := 0;
    ghost var all, start := buf.Contents(), buf.readPos;
    assert widths[0..] == widths;
    while i < |widths|
      invariant 0 <= i <= |widths| && buf.Valid() && buf.Contents() == all && start <= buf.readPos
      invariant buf.readPos + Size(widths[i..]) == start + Size(widths)
      invariant start + Size(widths) <= |all| ==>
          Unpack(widths, all[start..]) == values + Unpack(widths[i..], all[buf.readPos..])
    {
      assert widths[i..][1..] == widths[i + 1..];
      ghost var at := buf.readPos;
      var field := buf.Read(widths[i]);
      if field.None? {
        return None;
      }
      if start + Size(widths) <= |all| {
        assert all[at..][..widths[i]] == field.value && all[at..][widths[i]..] == all[buf.readPos..];
        var v := FromLe(field.value);
        var rest := Unpack(widths[i + 1..], all[buf.readPos..]);
        assert values + ([v] + rest) == (values + [v]) + rest;
      }
      values := values + [FromLe(field.value)];
      i := i + 1;
    }
    r := Some(values);
  }

  /** encode_header with the payload's size, then the payload. */
  method CreateFrame(kind: nat, seqId: nat, payload: Buffer) returns (buf: Buffer, ok: bool)
    requires payload.Valid()
    ensures fresh(buf) && fresh(buf.data) && buf.Valid()
    ensures ok ==> buf.Contents() == FrameOf(kind, seqId, payload.Contents()) && buf.readPos == 0
    ensures HEADER_SIZE + payload.size <= MAX_CAPACITY ==> ok
  {
    Sizes();
    buf := new Buffer();
    var body := payload.data[..payload.size];
    var header := HeaderFields(kind, |body| % U32_COUNT, seqId);
    ok := WriteFields(buf, HEADER, header);
    if ok {
      assert [] + Pack(HEADER, header) == Pack(HEADER, header);
      ok := buf.Write(body);
    }
  }

  /** create_call_message, create_object_create_message, and the property and object-method ones. */
  method CreateRequest(q: nat, r: Request) returns (buf: Buffer, ok: bool)
    requires U32(q) && RequestFits(r)
    ensures fresh(buf) && fresh(buf.data) && buf.Valid()
    ensures ok ==> buf.Contents() == EncodeToServer(Ask(q, r))
    ensures HEADER_SIZE + |RequestPayload(r)| <= MAX_CAPACITY ==> ok
  {
    hide Pack, FrameOf, HeaderFields;
    Sizes();
    var payload := new Buffer();
    match r {
      case Call(s, m, args) => ok := WritePayload(payload, CALL_HEADER, [s, m], args);
      case Create(t, c, args) => ok := WritePayload(payload, CREATE_HEADER, [t, c, 0], args);
      case PropGet(t, o, p) => ok := WritePayload(payload, PROPERTY_HEADER, [t, ObjectBits(o), p, 0], []);
      case PropSet(t, o, p, value) => ok := WritePayload(payload, PROPERTY_HEADER, [t, ObjectBits(o), p, 0], value);
      case ObjectCall(t, o, m, args) => ok := WritePayload(payload, PROPERTY_HEADER, [t, ObjectBits(o), m, 0], args);
    }
    if !ok {
      buf := payload;
      return;
    }
    buf, ok := CreateFrame(RequestKind(r), q, payload);
  }

  /** A fixed header, then whatever follows it. */
  method WritePayload(payload: Buffer, widths: seq<nat>, values: seq<nat>, rest: bytes) returns (ok: bool)
    requires payload.Valid() && payload.Contents() == [] && |widths| == |values|
    modifies payload, payload.data
    ensures payload.Valid() && (payload.data == old(payload.data) || fresh(payload.data))
    ensures ok ==> payload.Contents() == Pack(widths, values) + rest
    ensures Size(widths) + |rest| <= MAX_CAPACITY ==> ok
  {
    ok := WriteFields(payload, widths, values);
    if ok {
      assert [] + Pack(widths, values) == Pack(widths, values);
      ok := payload.Write(rest);
    }
  }

  /** create_result_message, create_error_message, the stream messages and the notification. */
  method CreateReply(m: ToClient) returns (buf: Buffer, ok: bool)
    requires ToClientFits(m)
    ensures fresh(buf) && fresh(buf.data) && buf.Valid()
    ensures ok ==> buf.Contents() == EncodeToClient(m)
  {
    var payload := new Buffer();
    var kind, seqId := 0x03, 0;
    match m {
      case Result(s, b) =>
        seqId := s;
        ok := payload.Write(b);
      case Error(s, c, text) =>
        kind, seqId := 0x04, s;
        ok := WritePayload(payload, ERROR_HEADER, [c, |text|], text);
      case Stream(s, chunk) =>
        kind, seqId := 0x05, s;
        ok := payload.Write(chunk);
      case StreamEnd(s) =>
        kind, seqId, ok := 0x06, s, true;
      case Notify(t, o, p, value) =>
        kind := 0x10;
        ok := WritePayload(payload, PROPERTY_HEADER, [t, ObjectBits(o), p, 0], value);
    }
    if !ok {
      buf := payload;
      return;
    }
    assert m.Result? ==> payload.Contents() == m.payload;
    assert m.Stream? ==> payload.Contents() == m.chunk;
    buf, ok := CreateFrame(kind, seqId, payload);
  }

  /** decode_header, and decode_header_validated when `validate` is set. */
  method DecodeHeader(buf: Buffer, validate: bool) returns (r: Option<seq<nat>>)
    requires buf.Valid() && buf.readPos == 0 && buf.size >= HEADER_SIZE
    modifies buf`readPos
    ensures buf.Valid() && buf.readPos == HEADER_SIZE
    ensures var h := Unpack(HEADER, buf.Contents());
            r == if validate && (h[0] != MAGIC || h[4] > MAX_PAYLOAD) then None else Some(h)
  {
    Sizes();
    assert buf.Contents()[0..] == buf.Contents();
    var h := ReadFields(buf, HEADER);
    if validate && (h.value[0] != MAGIC || h.value[4] > MAX_PAYLOAD) {
      return None;
    }
    r := h;
  }

  /** What is left to read. */
  method Remaining(buf: Buffer) returns (b: bytes)
    requires buf.Valid()
    ensures b == buf.Contents()[buf.readPos..]
  {
    b := buf.data[buf.readPos..buf.size];
  }

  /** What the client makes of a received frame: header validated, then the payload by message type. */
  method DecodeReply(buf: Buffer) returns (r: Incoming<ToClient>)
    requires buf.Valid() && buf.readPos == 0 && buf.size >= HEADER_SIZE
    modifies buf`readPos
    ensures buf.Valid() && r == DecodeToClient(buf.Contents())
  {
    hide Unpack;
    Sizes();
    ghost var all := buf.Contents();
    var h := DecodeHeader(buf, false);
    if h.value[0] != MAGIC {
      return BadMagic;
    }
    if h.value[4] > MAX_PAYLOAD {
      return Malformed;
    }
    var kind, q := h.value[2], h.value[5];
    ghost var body := all[HEADER_SIZE..];
    if kind == 0x03 || kind == 0x05 {
      var b := Remaining(buf);
      return Good(if kind == 0x03 then Result(q, b) else Stream(q, b));
    } else if kind == 0x06 {
      return Good(StreamEnd(q));
    } else if kind == 0x04 {
      var f := ReadFields(buf, ERROR_HEADER);
      if f.None? || f.value[1] > 0x10_0000 {
        return Malformed;
      }
      var text := buf.Read(f.value[1]);
      assert text.Some? ==> text.value == body[6..][..f.value[1]];
      return if text.None? then Malformed else Good(Error(q, f.value[0], text.value));
    } else if kind == 0x10 {
      var f := ReadFields(buf, PROPERTY_HEADER);
      if f.None? {
        return Malformed;
      }
      var value := Remaining(buf);
      assert value == body[12..];
      return Good(Notify(f.value[0], ObjectId(f.value[1]), f.value[2], value));
    }
    r := Ignored;
  }

  /** What client_loop and handle_message make of a received frame. */
  method DecodeRequest(buf: Buffer) returns (r: Incoming<ToServer>)
    requires buf.Valid() && buf.readPos == 0 && buf.size >= HEADER_SIZE
    modifies buf`readPos
    ensures buf.Valid() && r == DecodeToServer(buf.Contents())
  {
    hide Unpack;
    Sizes();
    ghost var all := buf.Contents();
    var h := DecodeHeader(buf, false);
    if h.value[0] != MAGIC {
      return BadMagic;
    }
    var kind, q := h.value[2], h.value[5];
    ghost var body := all[HEADER_SIZE..];
    if kind == 0x08 {
      return Good(Shutdown);
    } else if kind == 0x0D {
      var f := ReadFields(buf, INIT_HEADER);
      return if f.None? then Ignored else Good(InitAck(f.value[1], f.value[2], f.value[3]));
    } else if kind == 0x02 {
      var f := ReadFields(buf, CALL_HEADER);
      if f.None? {
        return Malformed;
      }
      var args := Remaining(buf);
      assert args == body[4..];
      return Good(Ask(q, Call(f.value[0], f.value[1], args)));
    } else if kind == 0x09 {
      var f := ReadFields(buf, CREATE_HEADER);
      if f.None? {
        return Malformed;
      }
      var args := Remaining(buf);
      assert args == body[8..];
      return Good(Ask(q, Create(f.value[0], f.value[1], args)));
    } else if kind == 0x0A {
      var f := ReadFields(buf, RELEASE_HEADER);
      return if f.None? then Malformed else Good(Release(f.value[0], ObjectId(f.value[1])));
    } else if kind == 0x0B || kind == 0x0C || kind == 0x0E || kind == 0x0F || kind == 0x11 {
      var f := ReadFields(buf, PROPERTY_HEADER);
      if f.None? {
        return Malformed;
      }
      var rest := Remaining(buf);
      assert rest == body[12..];
      return Good(PropertyMessage(kind, q, f.value[0], ObjectId(f.value[1]), f.value[2], rest));
    }
    r := Ignored;
  }
}
