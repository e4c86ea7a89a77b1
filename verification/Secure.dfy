/** SecureTransport (src/security.cpp): a decorator that appends an 8-byte authentication tag to every message
    and checks and strips it on the way in. The tag function is any function of key and message. */
module Secure {
  import opened Bytes
  import opened Framing

  const TAG_SIZE: nat := 8

  type Tag = t: bytes | |t| == TAG_SIZE witness [0, 0, 0, 0, 0, 0, 0, 0]

  type Mac = (bytes, bytes) -> Tag

  /** SecurityConfig: no security at all, or a shared key. */
  datatype Config = Disabled | SharedKey(key: bytes)

  /** Overwrites the payload_size field. */
  function Patch(b: bytes, size: nat): (r: bytes)
    requires |b| >= HEADER_SIZE && size < U32_COUNT
    ensures |r| == |b| && PayloadSize(r) == size
    ensures r[..8] == b[..8] && r[12..] == b[12..]
  {
    Pow256Values();
    LeRoundTrip(size, 4);
    var r := b[..8] + Le(size, 4) + b[12..];
    assert r[8..12] == Le(size, 4);
    r
  }

  lemma SizeFits(b: bytes)
    requires |b| >= HEADER_SIZE
    ensures PayloadSize(b) < U32_COUNT
  {
    FromLeBound(b[8..12]);
    Pow256Values();
  }

  lemma PatchBack(b: bytes, size: nat)
    requires |b| >= HEADER_SIZE && size < U32_COUNT
    ensures PayloadSize(b) < U32_COUNT && Patch(Patch(b, size), PayloadSize(b)) == b
  {
    SizeFits(b);
    FromLeRoundTrip(b[8..12]);
    var p := Patch(b, size);
    var r := Patch(p, PayloadSize(b));
    assert b == b[..8] + b[8..12] + b[12..];
    assert r == p[..8] + b[8..12] + p[12..];
  }

  lemma PatchHead(b: bytes, size: nat)
    requires |b| >= HEADER_SIZE && size < U32_COUNT
    ensures Patch(b[..HEADER_SIZE], size) + b[HEADER_SIZE..] == Patch(b, size)
    ensures b[HEADER_SIZE..] == [] ==> Patch(b[..HEADER_SIZE], size) == Patch(b, size)
  {
    assert b[..HEADER_SIZE][12..] + b[HEADER_SIZE..] == b[12..];
    assert b[..HEADER_SIZE][..8] == b[..8];
  }

  // ---------------------------------------------------------------- sending

  /** What send hands to the inner transport; None when the enlarged payload would pass 16 MB. */
  function Sealed(mac: Mac, config: Config, msg: bytes): (r: Option<bytes>)
    requires Framed(msg)
    ensures r.Some? ==> Framed(r.value)
  {
    if config.Disabled? then Some(msg)
    else if PayloadSize(msg) > MAX_PAYLOAD - TAG_SIZE then None
    else
      var patched := Patch(msg, PayloadSize(msg) + TAG_SIZE);
      var secure := patched + mac(config.key, msg);
      assert secure[8..12] == patched[8..12];
      Some(secure)
  }

  method Seal(mac: Mac, config: Config, msg: bytes) returns (r: Option<bytes>)
    requires Framed(msg)
    ensures r == Sealed(mac, config, msg)
  {
    if config.Disabled? {
      return Some(msg);
    }
    var tag := mac(config.key, msg);
    var size := PayloadSize(msg);
    if size > MAX_PAYLOAD - TAG_SIZE {
      return None;
    }
    var secure := Patch(msg[..HEADER_SIZE], size + TAG_SIZE);
    if size > 0 {
      secure := secure + msg[HEADER_SIZE..HEADER_SIZE + size];
    }
    PatchHead(msg, size + TAG_SIZE);
    assert msg[HEADER_SIZE..HEADER_SIZE + size] == msg[HEADER_SIZE..];
    assert secure == Patch(msg, size + TAG_SIZE);
    r := Some(secure + tag);
  }

  // ---------------------------------------------------------------- receiving

  /** What receive makes of a message from the inner transport: the original, or a SecurityError. */
  function Opened(mac: Mac, config: Config, secure: bytes): (r: Option<bytes>)
    requires Framed(secure)
    ensures r.Some? ==> Framed(r.value)
  {
    if config.Disabled? then Some(secure)
    else if PayloadSize(secure) < TAG_SIZE then None
    else
      var msg := Restored(secure);
      if mac(config.key, msg) == secure[|secure| - TAG_SIZE..] then Some(msg) else None
  }

  /** The message without its tag and with its size field put back. */
  function Restored(secure: bytes): (r: bytes)
    requires Framed(secure) && PayloadSize(secure) >= TAG_SIZE
    ensures Framed(r)
  {
    SizeFits(secure);
    Patch(secure[..|secure| - TAG_SIZE], PayloadSize(secure) - TAG_SIZE)
  }

  /** The bitwise operators on byte values. */
  function Xor(a: nat, b: nat): nat {
    if a == 0 && b == 0 then 0 else (if a % 2 != b % 2 then 1 else 0) + 2 * Xor(a / 2, b / 2)
  }

  function BitOr(a: nat, b: nat): nat {
    if a == 0 && b == 0 then 0 else (if a % 2 == 1 || b % 2 == 1 then 1 else 0) + 2 * BitOr(a / 2, b / 2)
  }

  lemma {:induction false} XorZeroIff(a: nat, b: nat)
    ensures Xor(a, b) == 0 <==> a == b
  {
    if a != 0 || b != 0 {
      XorZeroIff(a / 2, b / 2);
    }
  }

  lemma {:induction false} OrZeroIff(a: nat, b: nat)
    ensures BitOr(a, b) == 0 <==> a == 0 && b == 0
  {
    if a != 0 || b != 0 {
      OrZeroIff(a / 2, b / 2);
    }
  }

  /** The constant-time comparison: it never leaves the loop early, and accepts exactly equal tags. */
  method VerifyTag(computed: Tag, received: Tag) returns (same: bool)
    ensures same <==> computed == received
  {
    var result := 0;
    var i := 0;
    while i < TAG_SIZE
      invariant 0 <= i <= TAG_SIZE && result >= 0
      invariant result == 0 <==> forall k :: 0 <= k < i ==> computed[k] == received[k]
    {
      XorZeroIff(computed[i], received[i]);
      OrZeroIff(result, Xor(computed[i], received[i]));
      result := BitOr(result, Xor(computed[i], received[i]));
      i := i + 1;
    }
    same := result == 0;
  }

  method Open(mac: Mac, config: Config, secure: bytes) returns (r: Option<bytes>)
    requires Framed(secure)
    ensures r == Opened(mac, config, secure)
  {
    if config.Disabled? {
      return Some(secure);
    }
    var extended := PayloadSize(secure);
    if extended < TAG_SIZE {
      return None;
    }
    var original := extended - TAG_SIZE;
    SizeFits(secure);
    var tag: Tag := secure[HEADER_SIZE + original..HEADER_SIZE + original + TAG_SIZE];
    assert tag == secure[|secure| - TAG_SIZE..];
    var msg := Patch(secure[..HEADER_SIZE + original], original);
    var same := VerifyTag(mac(config.key, msg), tag);
    r := if same then Some(msg) else None;
  }

  // ---------------------------------------------------------------- transparency

  /** Opening undoes sealing with an equal key. */
  lemma OpenUndoesSeal(mac: Mac, config: Config, msg: bytes)
    requires Framed(msg)
    requires Sealed(mac, config, msg).Some?
    ensures Opened(mac, config, Sealed(mac, config, msg).value) == Some(msg)
  {
    if config.SharedKey? {
      var size := PayloadSize(msg);
      var patched := Patch(msg, size + TAG_SIZE);
      var secure := Sealed(mac, config, msg).value;
      assert secure[..|secure| - TAG_SIZE] == patched;
      assert secure[|secure| - TAG_SIZE..] == mac(config.key, msg);
      assert secure[8..12] == patched[8..12];
      PatchBack(msg, size + TAG_SIZE);
    }
  }

  /** What arrives is accepted, as a given message, if and only if it is byte for byte what a sender with the same
      configuration makes of that message. */
  lemma AcceptedIffSealed(mac: Mac, config: Config, secure: bytes, msg: bytes)
    requires WellFormed(secure) && Framed(msg)
    ensures Opened(mac, config, secure) == Some(msg) <==> Sealed(mac, config, msg) == Some(secure)
  {
    if Sealed(mac, config, msg) == Some(secure) {
      OpenUndoesSeal(mac, config, msg);
    }
    if Opened(mac, config, secure) == Some(msg) && config.SharedKey? {
      RestoredSeals(mac, config.key, secure);
    }
  }

  /** The tag covers the whole message: a sealed message ends with the tag of the very message that was sent, header and
      payload, and is accepted only as a message that has this tag. */
  lemma TagOfWholeMessage(mac: Mac, key: bytes, msg: bytes, secure: bytes)
    requires Framed(msg) && Framed(secure)
    ensures Sealed(mac, SharedKey(key), msg) == Some(secure) || Opened(mac, SharedKey(key), secure) == Some(msg) ==>
              |secure| >= HEADER_SIZE + TAG_SIZE && secure[|secure| - TAG_SIZE..] == mac(key, msg)
  {
  }

  /** Two different messages that arrive with the same tag are both accepted only if the tag function gives both of the
      messages accepted, which differ too, the same tag: whatever is changed, in header or payload, needs a collision. */
  lemma ForgeryNeedsCollision(mac: Mac, key: bytes, a: bytes, b: bytes)
    requires WellFormed(a) && WellFormed(b) && a != b
    requires a[|a| - TAG_SIZE..] == b[|b| - TAG_SIZE..]
    requires Opened(mac, SharedKey(key), a).Some? && Opened(mac, SharedKey(key), b).Some?
    ensures var m, n := Opened(mac, SharedKey(key), a).value, Opened(mac, SharedKey(key), b).value;
            m != n && mac(key, m) == mac(key, n)
  {
    var m, n := Opened(mac, SharedKey(key), a).value, Opened(mac, SharedKey(key), b).value;
    AcceptedIffSealed(mac, SharedKey(key), a, m);
    AcceptedIffSealed(mac, SharedKey(key), b, n);
    TagOfWholeMessage(mac, key, m, a);
    TagOfWholeMessage(mac, key, n, b);
  }

  lemma RestoredSeals(mac: Mac, key: bytes, secure: bytes)
    requires WellFormed(secure) && Opened(mac, SharedKey(key), secure).Some?
    ensures Sealed(mac, SharedKey(key), Restored(secure)) == Some(secure)
  {
    var body := secure[..|secure| - TAG_SIZE];
    assert body[8..12] == secure[8..12];
    SizeFits(secure);
    PatchBack(body, PayloadSize(secure) - TAG_SIZE);
    assert body + secure[|secure| - TAG_SIZE..] == secure;
  }

  // ---------------------------------------------------------------- stacked decorators

  /** Sending through decorators stacked over one transport: the outermost seals first. */
  function SealedBy(mac: Mac, stack: seq<Config>, msg: bytes): (r: Option<bytes>)
    requires Framed(msg)
    ensures r.Some? ==> Framed(r.value)
  {
    if stack == [] then Some(msg)
    else match Sealed(mac, stack[0], msg)
      case None => None
      case Some(secure) => SealedBy(mac, stack[1..], secure)
  }

  /** Receiving through the same stack: the innermost opens first. */
  function OpenedBy(mac: Mac, stack: seq<Config>, secure: bytes): (r: Option<bytes>)
    requires Framed(secure)
    ensures r.Some? ==> Framed(r.value)
  {
    if stack == [] then Some(secure)
    else match OpenedBy(mac, stack[1..], secure)
      case None => None
      case Some(msg) => Opened(mac, stack[0], msg)
  }

  /** With two decorators the outer one seals what is sent and the inner one what that hands on; opening goes the other way. */
  lemma TwoDecorators(mac: Mac, outer: Config, inner: Config, msg: bytes)
    requires Framed(msg)
    ensures SealedBy(mac, [outer, inner], msg) ==
            if Sealed(mac, outer, msg).None? then None else Sealed(mac, inner, Sealed(mac, outer, msg).value)
    ensures OpenedBy(mac, [outer, inner], msg) ==
            if Opened(mac, inner, msg).None? then None else Opened(mac, outer, Opened(mac, inner, msg).value)
  {
    hide Sealed, Opened;
    assert [outer, inner][1..] == [inner];
    OneDecorator(mac, inner, msg);
    if Sealed(mac, outer, msg).Some? {
      OneDecorator(mac, inner, Sealed(mac, outer, msg).value);
    }
  }

  lemma OneDecorator(mac: Mac, config: Config, msg: bytes)
    requires Framed(msg)
    ensures SealedBy(mac, [config], msg) == Sealed(mac, config, msg) && OpenedBy(mac, [config], msg) == Opened(mac, config, msg)
  {
    hide Sealed, Opened;
    assert [config][1..] == [];
    assert OpenedBy(mac, [], msg) == Some(msg);
    if Sealed(mac, config, msg).Some? {
      assert SealedBy(mac, [], Sealed(mac, config, msg).value) == Sealed(mac, config, msg);
    }
  }

  /** How many bytes a stack adds. */
  function Overhead(stack: seq<Config>): nat {
    if stack == [] then 0 else (if stack[0].SharedKey? then TAG_SIZE else 0) + Overhead(stack[1..])
  }

  /** A message passes through a stack if and only if its payload with all the tags stays within 16 MB (a stack
      without keys checks nothing); it arrives well formed and every byte as sent. */
  lemma {:induction false} StackIsTransparent(mac: Mac, stack: seq<Config>, msg: bytes)
    requires Framed(msg)
    ensures SealedBy(mac, stack, msg).Some? <==> Overhead(stack) == 0 || PayloadSize(msg) + Overhead(stack) <= MAX_PAYLOAD
    ensures SealedBy(mac, stack, msg).Some? ==>
        var secure := SealedBy(mac, stack, msg).value;
        PayloadSize(secure) == PayloadSize(msg) + Overhead(stack) && OpenedBy(mac, stack, secure) == Some(msg)
  {
    if stack != [] {
      var first := Sealed(mac, stack[0], msg);
      if first.Some? {
        if stack[0].SharedKey? {
          var patched := Patch(msg, PayloadSize(msg) + TAG_SIZE);
          assert first.value[8..12] == patched[8..12];
        }
        OpenUndoesSeal(mac, stack[0], msg);
        StackIsTransparent(mac, stack[1..], first.value);
      }
    }
  }

  function SealEach(mac: Mac, stack: seq<Config>, msgs: seq<bytes>): (r: seq<bytes>)
    requires forall k :: 0 <= k < |msgs| ==> WellFormed(msgs[k]) && PayloadSize(msgs[k]) + Overhead(stack) <= MAX_PAYLOAD
    ensures |r| == |msgs|
    ensures forall k :: 0 <= k < |r| ==> WellFormed(r[k]) && OpenedBy(mac, stack, r[k]) == Some(msgs[k])
  {
    if msgs == [] then []
    else
      assert WellFormed(msgs[0]);
      StackIsTransparent(mac, stack, msgs[0]);
      [SealedBy(mac, stack, msgs[0]).value] + SealEach(mac, stack, msgs[1..])
  }

  /** End to end: every message sequence sealed by any stack that fits, framed, cut up by the network in any way
      and reassembled, opens to exactly the messages that were sent, in order. */
  lemma SecureFramingEndToEnd(mac: Mac, stack: seq<Config>, msgs: seq<bytes>, arriving: seq<RecvEvent>)
    requires forall k :: 0 <= k < |msgs| ==> WellFormed(msgs[k]) && PayloadSize(msgs[k]) + Overhead(stack) <= MAX_PAYLOAD
    requires Flatten(arriving) == Concat(SealEach(mac, stack, msgs))
    ensures var r := Frames(Flatten(arriving));
            && r.1 == Closed && |r.0| == |msgs|
            && forall k :: 0 <= k < |msgs| ==> WellFormed(r.0[k]) && OpenedBy(mac, stack, r.0[k]) == Some(msgs[k])
  {
    FramesOfConcat(SealEach(mac, stack, msgs));
  }

  /** A transport with a stack of decorators on it. */
  class SecureTransport {
    const inner: TcpTransport
    const stack: seq<Config>
    const mac: Mac

    constructor (inner: TcpTransport, stack: seq<Config>, mac: Mac)
      ensures this.inner == inner && this.stack == stack && this.mac == mac
    {
      this.inner, this.stack, this.mac := inner, stack, mac;
    }

    method Send(msg: bytes) returns (ok: bool)
      requires Framed(msg)
      modifies inner`answers, inner`outgoing
      ensures var secure := SealedBy(mac, stack, msg);
              && (secure.None? ==> !ok && inner.outgoing == old(inner.outgoing))
              && (ok ==> inner.outgoing == old(inner.outgoing) + secure.value)
    {
      var m := msg;
      var i := 0;
      assert stack[0..] == stack;
      while i < |stack|
        invariant 0 <= i <= |stack|
        invariant Framed(m)
        invariant SealedBy(mac, stack[i..], m) == SealedBy(mac, stack, msg)
        invariant inner.outgoing == old(inner.outgoing)
      {
        var s := Seal(mac, stack[i], m);
        assert stack[i..][0] == stack[i] && stack[i..][1..] == stack[i + 1..];
        if s.None? {
          return false;
        }
        m := s.value;
        i := i + 1;
      }
      ok := inner.Send(m);
    }

    method Receive() returns (r: Received)
      requires inner.Valid()
      modifies inner`incoming
      ensures inner.Valid()
      ensures NoFailures(old(inner.incoming)) ==>
          r == match Frame(old(inner.Pending())) {
                 case Message(m) => (match OpenedBy(mac, stack, m) case Some(msg) => Message(msg) case None => Broken)
                 case other => other
               } && inner.Pending() == AfterFrame(old(inner.Pending()))
    {
      r := inner.Receive();
      if !r.Message? {
        return;
      }
      var m := r.b;
      var i := |stack|;
      assert stack[..|stack|] == stack;
      while i > 0
        modifies {}
        invariant 0 <= i <= |stack|
        invariant Framed(m)
        invariant OpenedBy(mac, stack, r.b) == OpenedBy(mac, stack[..i], m)
      {
        OpenedByLast(mac, stack[..i], m);
        var o := Open(mac, stack[i - 1], m);
        assert stack[..i][..i - 1] == stack[..i - 1];
        if o.None? {
          return Broken;
        }
        m := o.value;
        i := i - 1;
      }
      r := Message(m);
    }
  }

  /** The innermost decorator is the last of the stack. */
  lemma {:induction false} OpenedByLast(mac: Mac, stack: seq<Config>, secure: bytes)
    requires Framed(secure) && stack != []
    ensures OpenedBy(mac, stack, secure) ==
        match Opened(mac, stack[|stack| - 1], secure) {
          case None => None
          case Some(m) => OpenedBy(mac, stack[..|stack| - 1], m)
        }
  {
    if |stack| > 1 {
      OpenedByLast(mac, stack[1..], secure);
      assert stack[1..][..|stack| - 2] == stack[..|stack| - 1][1..];
    }
  }
}
