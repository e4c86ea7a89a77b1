/** The client's side of a connection (src/process.cpp): requests with sequence ids, the reply loop that dispatches
    notifications on the way, streaming calls, and the property callbacks. */
module Client {
  import opened Bytes
  import opened Framing
  import opened Limits
  import opened Wire
  import opened Streams
  import Handshake

  // ---------------------------------------------------------------- waiting for a reply

  /** How a wait ends: with the message carrying the awaited id, with a sequence mismatch, or because nothing more
      arrives (timeout or disconnect). */
  datatype Wait = Got(m: ToClient) | Mismatch | Nothing

  /** The outcome, the notifications passed over on the way, and what is left unread. */
  datatype Awaited = Awaited(wait: Wait, notices: seq<ToClient>, rest: seq<ToClient>)

  function Await(inbox: seq<ToClient>, q: nat): Awaited {
    if inbox == [] then Awaited(Nothing, [], [])
    else if inbox[0].Notify? then
      var a := Await(inbox[1..], q);
      a.(notices := [inbox[0]] + a.notices)
    else if inbox[0].seqId != q then Awaited(Mismatch, [], inbox[1..])
    else Awaited(Got(inbox[0]), [], inbox[1..])
  }

  /** The replies among some messages: everything that is not a notification. */
  function Replies(ms: seq<ToClient>): (r: seq<ToClient>)
    ensures forall k :: 0 <= k < |r| ==> !r[k].Notify?
  {
    if ms == [] then [] else (if ms[0].Notify? then [] else [ms[0]]) + Replies(ms[1..])
  }

  function Notices(ms: seq<ToClient>): seq<ToClient> {
    if ms == [] then [] else (if ms[0].Notify? then [ms[0]] else []) + Notices(ms[1..])
  }

  lemma RepliesStep(ms: seq<ToClient>)
    requires ms != []
    ensures Replies([ms[0]]) == if ms[0].Notify? then [] else [ms[0]]
    ensures Replies(ms) == Replies([ms[0]]) + Replies(ms[1..])
  {
    assert [ms[0]][1..] == [] && Replies([]) == [];
  }

  lemma NoticesStep(ms: seq<ToClient>)
    requires ms != []
    ensures Notices([ms[0]]) == if ms[0].Notify? then [ms[0]] else []
    ensures Notices(ms) == Notices([ms[0]]) + Notices(ms[1..])
  {
    assert [ms[0]][1..] == [] && Notices([]) == [];
  }

  /** The wait splits the inbox: notifications, at most one reply, and what is left. */
  lemma {:induction false} AwaitSplits(inbox: seq<ToClient>, q: nat)
    ensures var a := Await(inbox, q); var first := if Replies(inbox) == [] then [] else [Replies(inbox)[0]];
            && inbox == a.notices + first + a.rest && Notices(a.notices) == a.notices
  {
    if inbox != [] {
      var x, a := [inbox[0]], Await(inbox[1..], q);
      assert inbox == x + inbox[1..];
      RepliesStep(inbox);
      if inbox[0].Notify? {
        AwaitSplits(inbox[1..], q);
        var first := if Replies(inbox[1..]) == [] then [] else [Replies(inbox[1..])[0]];
        assert Replies(inbox) == Replies(inbox[1..]);
        NoticesStep(x + a.notices);
        Assoc(x, a.notices + first, a.rest);
        Assoc(x, a.notices, first);
      }
    }
  }

  /** For any number of notifications placed around it, the wait takes the first reply: it passes over exactly the
      notifications ahead of that reply, in order, and stops right behind it. */
  lemma {:induction false} AwaitTakesFirstReply(inbox: seq<ToClient>, q: nat)
    ensures var a := Await(inbox, q); var replies := Replies(inbox);
            && (a.wait.Nothing? <==> replies == [])
            && (replies != [] ==> a.wait == if replies[0].seqId == q then Got(replies[0]) else Mismatch)
            && inbox == a.notices + (if replies == [] then [] else [replies[0]]) + a.rest
            && Notices(a.notices) == a.notices && Replies(a.rest) == if replies == [] then [] else replies[1..]
  {
    AwaitSplits(inbox, q);
    if inbox != [] {
      RepliesStep(inbox);
      if inbox[0].Notify? {
        AwaitTakesFirstReply(inbox[1..], q);
        assert Replies(inbox) == Replies(inbox[1..]);
      }
    }
  }

  // ---------------------------------------------------------------- callbacks

  function KeyOf(m: ToClient): Key
    requires m.Notify?
  {
    Key(m.object_, m.property)
  }

  /** Which callbacks a run of notifications fires, with which values. */
  function Fires(callbacks: map<Key, nat>, ms: seq<ToClient>): seq<(nat, bytes)> {
    if ms == [] then []
    else (if ms[0].Notify? && KeyOf(ms[0]) in callbacks then [(callbacks[KeyOf(ms[0])], ms[0].value)] else []) +
         Fires(callbacks, ms[1..])
  }

  lemma FiresStep(callbacks: map<Key, nat>, ms: seq<ToClient>)
    requires ms != []
    ensures Fires(callbacks, ms) == Fires(callbacks, [ms[0]]) + Fires(callbacks, ms[1..])
  {
    assert [ms[0]][1..] == [] && Fires(callbacks, []) == [];
  }

  lemma {:induction false} FiresConcat(callbacks: map<Key, nat>, a: seq<ToClient>, b: seq<ToClient>)
    ensures Fires(callbacks, a + b) == Fires(callbacks, a) + Fires(callbacks, b)
  {
    if a == [] {
      assert a + b == b;
    } else {
      FiresConcat(callbacks, a[1..], b);
      assert (a + b)[1..] == a[1..] + b;
      FiresStep(callbacks, a);
      FiresStep(callbacks, a + b);
      Assoc(Fires(callbacks, [a[0]]), Fires(callbacks, a[1..]), Fires(callbacks, b));
    }
  }

  /** A notification fires the callback registered for its object and property, with its value, and no other. */
  lemma FiresOne(callbacks: map<Key, nat>, t: nat, o: int, p: nat, v: bytes)
    ensures Fires(callbacks, [Notify(t, o, p, v)]) == if Key(o, p) in callbacks then [(callbacks[Key(o, p)], v)] else []
  {
    assert [Notify(t, o, p, v)][1..] == [];
  }

  predicate Rising(at: seq<nat>) { forall i, j :: 0 <= i < j < |at| ==> at[i] < at[j] }

  predicate Watched(callbacks: map<Key, nat>, m: ToClient) { m.Notify? && Key(m.object_, m.property) in callbacks }

  /** Positions, in order, of exactly the messages whose notification has a callback, and what those fire. */
  predicate FiredAt(callbacks: map<Key, nat>, ms: seq<ToClient>, fired: seq<(nat, bytes)>, at: seq<nat>) {
    && |at| == |fired| && Rising(at)
    && (forall k :: 0 <= k < |at| ==> at[k] < |ms| && Watched(callbacks, ms[at[k]]))
    && (forall j :: 0 <= j < |ms| && Watched(callbacks, ms[j]) ==> j in at)
    && (forall k :: 0 <= k < |at| ==>
          fired[k] == (callbacks[Key(ms[at[k]].object_, ms[at[k]].property)], ms[at[k]].value))
  }

  lemma FiredNext(callbacks: map<Key, nat>, ms: seq<ToClient>, fired: seq<(nat, bytes)>, at: seq<nat>, m: ToClient)
    requires FiredAt(callbacks, ms, fired, at)
    ensures if Watched(callbacks, m)
            then FiredAt(callbacks, ms + [m], fired + [(callbacks[Key(m.object_, m.property)], m.value)], at + [|ms|])
            else FiredAt(callbacks, ms + [m], fired, at)
  {
    if Watched(callbacks, m) {
      var now := at + [|ms|];
      forall j | 0 <= j < |ms + [m]| && Watched(callbacks, (ms + [m])[j])
        ensures j in now
      {
        if j == |ms| {
          assert now[|at|] == j;
        } else {
          var k :| 0 <= k < |at| && at[k] == j;
          assert now[k] == j;
        }
      }
    }
  }

  /** For any messages: the callbacks fired are those of the notifications with a registered key, each once, in the order
      of arrival. */
  lemma {:induction false} FiresInOrder(callbacks: map<Key, nat>, ms: seq<ToClient>) returns (at: seq<nat>)
    ensures FiredAt(callbacks, ms, Fires(callbacks, ms), at)
  {
    at := [];
    if ms != [] {
      hide Fires, FiredAt;
      var n := |ms| - 1;
      var ahead, last := ms[..n], ms[n];
      assert ms == ahead + [last];
      FiresConcat(callbacks, ahead, [last]);
      at := FiresInOrder(callbacks, ahead);
      FiresSingle(callbacks, last);
      FiredNext(callbacks, ahead, Fires(callbacks, ahead), at, last);
      assert Fires(callbacks, ahead) + [] == Fires(callbacks, ahead);
      if Watched(callbacks, last) {
        at := at + [n];
      }
    }
  }

  /** The values with which a callback ran. */
  function RunsOf(fired: seq<(nat, bytes)>, callback: nat): seq<bytes> {
    if fired == [] then [] else (if fired[0].0 == callback then [fired[0].1] else []) + RunsOf(fired[1..], callback)
  }

  /** The values notified for one property of one object. */
  function ValuesOf(ms: seq<ToClient>, object_: int, property: nat): seq<bytes> {
    if ms == [] then []
    else (if ms[0].Notify? && ms[0].object_ == object_ && ms[0].property == property then [ms[0].value] else []) +
         ValuesOf(ms[1..], object_, property)
  }

  /** A callback that is registered for one key only. */
  predicate OwnCallback(callbacks: map<Key, nat>, key: Key, callback: nat) {
    forall k :: k in callbacks ==> (callbacks[k] == callback <==> k == key)
  }

  lemma {:induction false} RunsConcat(a: seq<(nat, bytes)>, b: seq<(nat, bytes)>, callback: nat)
    ensures RunsOf(a + b, callback) == RunsOf(a, callback) + RunsOf(b, callback)
  {
    if a == [] {
      assert a + b == b;
    } else {
      RunsConcat(a[1..], b, callback);
      assert (a + b)[1..] == a[1..] + b;
      Assoc(if a[0].0 == callback then [a[0].1] else [], RunsOf(a[1..], callback), RunsOf(b, callback));
    }
  }

  /** It runs once for every notification of that property, in order and with its value. */
  lemma {:induction false} CallbackSeesItsProperty(callbacks: map<Key, nat>, o: int, p: nat, callback: nat, ms: seq<ToClient>)
    requires Key(o, p) in callbacks && OwnCallback(callbacks, Key(o, p), callback)
    ensures RunsOf(Fires(callbacks, ms), callback) == ValuesOf(ms, o, p)
  {
    if ms != [] {
      var first := Fires(callbacks, [ms[0]]);
      CallbackSeesItsProperty(callbacks, o, p, callback, ms[1..]);
      FiresStep(callbacks, ms);
      RunsConcat(first, Fires(callbacks, ms[1..]), callback);
      FiresSingle(callbacks, ms[0]);
      assert RunsOf(first, callback) == if first == [] || first[0].0 != callback then [] else [first[0].1];
    }
  }

  lemma FiresSingle(callbacks: map<Key, nat>, m: ToClient)
    ensures Fires(callbacks, [m]) == if Watched(callbacks, m) then [(callbacks[Key(m.object_, m.property)], m.value)] else []
    ensures Fires(callbacks, [m]) != [] ==> Fires(callbacks, [m])[1..] == []
  {
    if m.Notify? {
      FiresOne(callbacks, m.typeId, m.object_, m.property, m.value);
    } else {
      assert [m][1..] == [] && Fires(callbacks, []) == [];
    }
  }

  /** A new subscription's callback runs during a wait once for each notification of that property ahead of the first
      reply, in order; what it was registered for before does not matter. */
  lemma SubscribedCallbackRuns(callbacks: map<Key, nat>, o: int, p: nat, callback: nat, ahead: seq<ToClient>,
                               later: seq<ToClient>, q: nat)
    requires forall k :: k in callbacks && k != Key(o, p) ==> callbacks[k] != callback
    requires Notices(ahead) == ahead && (later != [] ==> !later[0].Notify?)
    ensures RunsOf(Fires(callbacks[Key(o, p) := callback], Await(ahead + later, q).notices), callback) == ValuesOf(ahead, o, p)
  {
    AwaitPasses(ahead, later, q);
    CallbackSeesItsProperty(callbacks[Key(o, p) := callback], o, p, callback, ahead);
  }

  lemma {:induction false} AwaitPasses(ahead: seq<ToClient>, later: seq<ToClient>, q: nat)
    requires Notices(ahead) == ahead && (later != [] ==> !later[0].Notify?)
    ensures Await(ahead + later, q).notices == ahead
  {
    if ahead == [] {
      assert ahead + later == later;
    } else {
      NoticesStep(ahead);
      NoticesShorter(ahead[1..]);
      assert ahead[0].Notify? && Notices(ahead[1..]) == ahead[1..];
      AwaitPasses(ahead[1..], later, q);
      assert (ahead + later)[1..] == ahead[1..] + later;
    }
  }

  lemma {:induction false} NoticesShorter(ms: seq<ToClient>)
    ensures |Notices(ms)| <= |ms|
  {
    if ms != [] {
      NoticesShorter(ms[1..]);
    }
  }

  // ---------------------------------------------------------------- streaming

  datatype StreamEnding = Completed | ServiceFailed(code: nat, text: bytes) | ProtocolFailed | TimedOut

  datatype Collected = Collected(chunks: seq<bytes>, ending: StreamEnding, rest: seq<ToClient>)

  /** call_streaming's loop. It does not demultiplex: a notification is a message with the wrong sequence id. */
  function Collect(inbox: seq<ToClient>, q: nat): Collected {
    if inbox == [] then Collected([], TimedOut, [])
    else
      var m, rest := inbox[0], inbox[1..];
      match m
      case Notify(_, _, _, _) => Collected([], ProtocolFailed, rest)
      case Stream(s, chunk) =>
        if s != q then Collected([], ProtocolFailed, rest)
        else var c := Collect(rest, q); c.(chunks := [chunk] + c.chunks)
      case StreamEnd(s) => Collected([], if s == q then Completed else ProtocolFailed, rest)
      case Error(s, code, text) => Collected([], if s == q then ServiceFailed(code, text) else ProtocolFailed, rest)
      case Result(_, _) => Collected([], ProtocolFailed, rest)
  }

  /** The first n messages have arrived, all within the limit and no notification among them. */
  predicate Unbroken(inbox: seq<ToClient>, n: nat) {
    n <= |inbox| && forall k :: 0 <= k < n ==> !inbox[k].Notify? && Sendable(inbox[k])
  }

  lemma UnbrokenStep(inbox: seq<ToClient>, n: nat)
    requires inbox != [] && n > 0
    ensures Unbroken(inbox, n) <==> !inbox[0].Notify? && Sendable(inbox[0]) && Unbroken(inbox[1..], n - 1)
  {
    hide Sendable;
    if Unbroken(inbox, n) {
      forall k | 0 <= k < n - 1
        ensures !inbox[1..][k].Notify? && Sendable(inbox[1..][k])
      {
        assert inbox[1..][k] == inbox[k + 1];
      }
    }
    if !inbox[0].Notify? && Sendable(inbox[0]) && Unbroken(inbox[1..], n - 1) {
      forall k | 0 <= k < n
        ensures !inbox[k].Notify? && Sendable(inbox[k])
      {
        assert k > 0 ==> inbox[k] == inbox[1..][k - 1];
      }
    }
  }

  function EndingOf(terminator: ToClient): StreamEnding
    requires terminator.StreamEnd? || terminator.Error?
  {
    if terminator.StreamEnd? then Completed else ServiceFailed(terminator.code, terminator.text)
  }

  /** Notifications may arrive anywhere among the messages of a stream. It is collected to its end if and only if none
      comes ahead of its terminator and everything up to there is within the limit; what comes later does not matter. */
  lemma {:induction false} CollectsIff(q: nat, chunks: seq<bytes>, terminator: ToClient, inbox: seq<ToClient>, later: seq<ToClient>)
    requires (terminator.StreamEnd? || terminator.Error?) && terminator.seqId == q
    requires Replies(inbox) == ChunkMessages(q, chunks) + [terminator] + later
    ensures var c, n := Collect(Readable(inbox), q), |chunks| + 1;
            if Unbroken(inbox, n) then n <= |Readable(inbox)| && c == Collected(chunks, EndingOf(terminator), Readable(inbox)[n..])
            else c.ending == ProtocolFailed || c.ending == TimedOut
  {
    hide Sendable, Unbroken;
    assert inbox != [] by { assert Replies([]) == []; }
    UnbrokenStep(inbox, |chunks| + 1);
    if Sendable(inbox[0]) {
      var rest := Readable(inbox[1..]);
      assert Readable(inbox) == [inbox[0]] + rest && Readable(inbox)[1..] == rest;
      if !inbox[0].Notify? {
        HeadOfStream(q, chunks, terminator, inbox, later);
        if chunks == [] {
          assert Unbroken(inbox[1..], 0) by { NothingBroken(inbox[1..]); }
        } else {
          CollectsIff(q, chunks[1..], terminator, inbox[1..], later);
          assert [chunks[0]] + chunks[1..] == chunks;
        }
      }
    }
  }

  lemma NothingBroken(inbox: seq<ToClient>)
    ensures Unbroken(inbox, 0)
  {
  }

  lemma HeadOfStream(q: nat, chunks: seq<bytes>, terminator: ToClient, inbox: seq<ToClient>, later: seq<ToClient>)
    requires Replies(inbox) == ChunkMessages(q, chunks) + [terminator] + later && inbox != [] && !inbox[0].Notify?
    ensures inbox[0] == if chunks == [] then terminator else Stream(q, chunks[0])
    ensures chunks != [] ==> Replies(inbox[1..]) == ChunkMessages(q, chunks[1..]) + [terminator] + later
  {
    hide Replies;
    RepliesStep(inbox);
    assert Replies(inbox) == [inbox[0]] + Replies(inbox[1..]);
    if chunks == [] {
      assert ChunkMessages(q, chunks) + [terminator] + later == [terminator] + later;
      Cons(inbox[0], Replies(inbox[1..]), terminator, later);
    } else {
      var rest := ChunkMessages(q, chunks[1..]);
      Assoc([Stream(q, chunks[0])], rest, [terminator]);
      Assoc([Stream(q, chunks[0])], rest + [terminator], later);
      Cons(inbox[0], Replies(inbox[1..]), Stream(q, chunks[0]), rest + [terminator] + later);
    }
  }

  lemma Cons<T>(a: T, s: seq<T>, b: T, t: seq<T>)
    requires [a] + s == [b] + t
    ensures a == b && s == t
  {
    assert ([a] + s)[0] == ([b] + t)[0];
    assert ([a] + s)[1..] == ([b] + t)[1..];
  }

  /** Streaming is faithful: for every disciplined dispatcher trace and wherever notifications fall, the client's handler
      sees exactly the chunks written and the call ends with the dispatcher's own outcome if and only if nothing but
      messages within the limit arrives up to the terminator, none of them a notification. */
  lemma StreamingIsFaithful(links: Links, q: nat, r: Reaction, inbox: seq<ToClient>, later: seq<ToClient>)
    requires Disciplined(r) && Replies(inbox) == Emits(StreamEvents(links, q, r)) + later
    ensures var c, n := Collect(Readable(inbox), q), |Chunks(r.actions)| + 1;
            && (c.ending == Completed || c.ending.ServiceFailed? <==> Unbroken(inbox, n))
            && (Unbroken(inbox, n) ==> n <= |Readable(inbox)| && c.chunks == Chunks(r.actions) && c.rest == Readable(inbox)[n..]
                                       && c.ending == if ErrorSent(r) then ServiceFailed(3, FailText(r).value) else Completed)
  {
    hide StreamEvents, Disciplined, AfterStop, Unbroken, ErrorSent;
    StreamShape(links, q, r);
    OneTerminatorIff(q, r);
    var terminators := Terminators(q, r);
    assert terminators == [terminators[0]];
    TerminatorShape(q, r);
    TerminatorSays(q, r);
    CollectsIff(q, Chunks(r.actions), terminators[0], inbox, later);
  }

  lemma TerminatorShape(q: nat, r: Reaction)
    ensures forall k :: 0 <= k < |Terminators(q, r)| ==> var t := Terminators(q, r)[k]; (t.StreamEnd? || t.Error?) && t.seqId == q
  {
  }

  lemma TerminatorSays(q: nat, r: Reaction)
    requires |Terminators(q, r)| == 1
    ensures Terminators(q, r)[0] == if ErrorSent(r) then Error(q, 3, FailText(r).value) else StreamEnd(q)
  {
    hide FailText;
  }

  /** A notification anywhere ahead of the terminator makes the streaming call fail. */
  lemma {:induction false} NotificationBreaksStream(q: nat, chunks: seq<bytes>, notice: ToClient, rest: seq<ToClient>)
    requires notice.Notify?
    ensures Collect(ChunkMessages(q, chunks) + [notice] + rest, q) == Collected(chunks, ProtocolFailed, rest)
  {
    var inbox := ChunkMessages(q, chunks) + [notice] + rest;
    if chunks == [] {
      assert inbox[0] == notice && inbox[1..] == rest;
    } else {
      NotificationBreaksStream(q, chunks[1..], notice, rest);
      assert inbox[0] == Stream(q, chunks[0]);
      assert inbox[1..] == ChunkMessages(q, chunks[1..]) + [notice] + rest;
    }
  }

  // ---------------------------------------------------------------- the connection

  /** What a non-streaming operation returns or throws. */
  datatype Outcome = Payload(b: bytes) | ServiceError(code: nat, text: bytes) | ProtocolError | NoReply

  function OutcomeOf(w: Wait): Outcome {
    match w
    case Nothing => NoReply
    case Mismatch => ProtocolError
    case Got(m) =>
      match m
      case Result(_, payload) => Payload(payload)
      case Error(_, code, text) => ServiceError(code, text)
      case _ => ProtocolError
  }

  /** A result is returned as the caller's payload and an error is thrown as a service error, each only when it is the first
      reply to come and carries the awaited id; any other first reply is a protocol error. */
  lemma OutcomeIsFirstReply(inbox: seq<ToClient>, q: nat)
    ensures var r, replies := OutcomeOf(Await(inbox, q).wait), Replies(inbox);
            && (forall b :: r == Payload(b) <==> replies != [] && replies[0] == Result(q, b))
            && (forall c, t :: r == ServiceError(c, t) <==> replies != [] && replies[0] == Error(q, c, t))
            && (r == NoReply <==> replies == [])
  {
    AwaitTakesFirstReply(inbox, q);
  }

  /** decode_object_ref: the type and the object that a result names; None is the underflow exception. */
  function RefOf(payload: bytes): Option<(nat, int)> {
    if |payload| < Size(RELEASE_HEADER) then None
    else var f := Unpack(RELEASE_HEADER, payload); Some((f[0], ObjectId(f[1])))
  }

  /** Bytes 0 to 3 are the type, bytes 4 to 7 the signed id, little-endian. */
  lemma RefLayout(payload: bytes)
    ensures RefOf(payload) == if |payload| < 8 then None
                              else Some((FromLe(payload[..4]), ToSigned(FromLe(payload[4..8]), 4)))
  {
    Sizes();
    if |payload| >= 8 {
      var rest := payload[4..];
      assert RELEASE_HEADER[1..] == [4] && [4][1..] == [];
      assert Unpack(RELEASE_HEADER, payload) == [FromLe(payload[..4])] + Unpack([4], rest);
      assert Unpack([4], rest) == [FromLe(rest[..4])] + Unpack([], rest[4..]);
      assert rest[..4] == payload[4..8];
    }
  }

  class ServiceConnection {
    var nextSeq: nat
    var callbacks: map<Key, nat>
    var negotiatedVersion: nat
    var peerCapabilities: nat
    var negotiatedCapabilities: nat
    var localCapabilities: nat
    var methods: seq<Handshake.Descriptor>

    // The transport: what has been sent, what will arrive before the timeout, and which callbacks have run.
    var sent: seq<ToServer>
    var inbox: seq<ToClient>
    var fired: seq<(nat, bytes)>

    constructor (localCapabilities: nat)
      ensures nextSeq == 1 && callbacks == map[] && sent == [] && inbox == [] && fired == [] && methods == []
      ensures this.localCapabilities == localCapabilities
    {
      nextSeq, callbacks, methods := 1, map[], [];
      negotiatedVersion, peerCapabilities, negotiatedCapabilities, this.localCapabilities := 0, 0, 0, localCapabilities;
      sent, inbox, fired := [], [], [];
    }

    /** Delivers one notification to the callback of its key, if there is one. */
    method DispatchNotification(m: ToClient)
      requires m.Notify?
      modifies this`fired
      ensures fired == old(fired) + Fires(callbacks, [m])
      ensures fired == old(fired) +
                       if Key(m.object_, m.property) in callbacks then [(callbacks[Key(m.object_, m.property)], m.value)] else []
    {
      assert [m][1..] == [];
      if KeyOf(m) in callbacks {
        fired := fired + [(callbacks[KeyOf(m)], m.value)];
      }
    }

    /** recv_reply: the loop consumes one message per round. */
    method RecvReply(q: nat) returns (w: Wait)
      modifies this`inbox, this`fired
      ensures var a := Await(old(inbox), q);
              w == a.wait && inbox == a.rest && fired == old(fired) + Fires(callbacks, a.notices)
    {
      ghost var whole := Await(inbox, q);
      while true
        invariant callbacks == old(callbacks)
        invariant var a := Await(inbox, q);
                  && a.wait == whole.wait && a.rest == whole.rest
                  && fired + Fires(callbacks, a.notices) == old(fired) + Fires(callbacks, whole.notices)
        decreases |inbox|
      {
        if inbox == [] {
          return Nothing;
        }
        var m := inbox[0];
        ghost var before, notices := fired, Await(inbox, q).notices;
        inbox := inbox[1..];
        if m.Notify? {
          DispatchNotification(m);
          FiresStep(callbacks, notices);
          Assoc(before, Fires(callbacks, [m]), Fires(callbacks, notices[1..]));
          continue;
        }
        if m.seqId != q {
          return Mismatch;
        }
        return Got(m);
      }
    }

    method NextSeq() returns (q: nat)
      modifies this`nextSeq
      ensures q == old(nextSeq) && nextSeq == (q + 1) % U32_COUNT
    {
      q := nextSeq;
      nextSeq := (nextSeq + 1) % U32_COUNT;
    }

    /** call, get_property, set_property and call_object: send, then wait for the reply. */
    method Perform(request: Request) returns (r: Outcome)
      modifies this`nextSeq, this`sent, this`inbox, this`fired
      ensures nextSeq == (old(nextSeq) + 1) % U32_COUNT
      ensures sent == old(sent) + [Ask(old(nextSeq), request)]
      ensures var a := Await(old(inbox), old(nextSeq));
              r == OutcomeOf(a.wait) && inbox == a.rest && fired == old(fired) + Fires(callbacks, a.notices)
      ensures var replies := Replies(old(inbox));
              && (forall b :: r == Payload(b) <==> replies != [] && replies[0] == Result(old(nextSeq), b))
              && (forall c, t :: r == ServiceError(c, t) <==> replies != [] && replies[0] == Error(old(nextSeq), c, t))
    {
      OutcomeIsFirstReply(inbox, nextSeq);
      var q := NextSeq();
      sent := sent + [Ask(q, request)];
      var w := RecvReply(q);
      match w {
        case Nothing => r := NoReply;
        case Mismatch => r := ProtocolError;
        case Got(m) =>
          if m.Error? {
            r := ServiceError(m.code, m.text);
          } else if !m.Result? {
            r := ProtocolError;
          } else {
            r := Payload(m.payload);
          }
      }
    }

    /** create_object: the reference that the service's result names, if there is one. */
    method CreateObject(typeId: nat, constructor_: nat, args: bytes) returns (r: Outcome, ref: Option<(nat, int)>)
      modifies this`nextSeq, this`sent, this`inbox, this`fired
      ensures sent == old(sent) + [Ask(old(nextSeq), Create(typeId, constructor_, args))]
      ensures var a := Await(old(inbox), old(nextSeq)); r == OutcomeOf(a.wait) && inbox == a.rest
      ensures ref == if r.Payload? && |r.b| >= 8 then Some((FromLe(r.b[..4]), ToSigned(FromLe(r.b[4..8]), 4))) else None
    {
      r := Perform(Create(typeId, constructor_, args));
      ref := None;
      if r.Payload? {
        RefLayout(r.b);
        ref := RefOf(r.b);
      }
    }

    /** call_streaming: on_chunk is called for each chunk as it arrives. */
    method CallStreaming(service: nat, method_: nat, args: bytes) returns (chunks: seq<bytes>, ending: StreamEnding)
      modifies this`nextSeq, this`sent, this`inbox
      ensures nextSeq == (old(nextSeq) + 1) % U32_COUNT
      ensures sent == old(sent) + [Ask(old(nextSeq), Call(service, method_, args))]
      ensures Collected(chunks, ending, inbox) == Collect(old(inbox), old(nextSeq))
    {
      var q := NextSeq();
      sent := sent + [Ask(q, Call(service, method_, args))];
      chunks := [];
      ghost var whole := Collect(inbox, q);
      while true
        modifies this`inbox
        invariant var c := Collect(inbox, q);
                  chunks + c.chunks == whole.chunks && c.ending == whole.ending && c.rest == whole.rest
        decreases |inbox|
      {
        if inbox == [] {
          return chunks, TimedOut;
        }
        var m := inbox[0];
        inbox := inbox[1..];
        assert chunks + [] == chunks;
        if m.Notify? || m.seqId != q {
          return chunks, ProtocolFailed;
        }
        match m {
          case Stream(_, chunk) =>
            ghost var later := Collect(inbox, q).chunks;
            assert chunks + ([chunk] + later) == (chunks + [chunk]) + later;
            chunks := chunks + [chunk];
          case StreamEnd(_) => return chunks, Completed;
          case Error(_, code, text) => return chunks, ServiceFailed(code, text);
          case Result(_, _) => return chunks, ProtocolFailed;
        }
      }
    }

    /** The collecting form of call_streaming: a complete reader over the chunks, or the failure. */
    method CallStreamingReader(service: nat, method_: nat, args: bytes) returns (reader: StreamReader?, ending: StreamEnding)
      modifies this`nextSeq, this`sent, this`inbox
      ensures var c := Collect(old(inbox), old(nextSeq));
              && ending == c.ending && (reader != null <==> ending == Completed)
              && (reader != null ==> fresh(reader) && reader.chunks == c.chunks && reader.index == 0 && reader.complete)
      ensures reader != null ==> reader.sequenceId == old(nextSeq)
    {
      var q := nextSeq;
      var chunks;
      chunks, ending := CallStreaming(service, method_, args);
      if ending != Completed {
        return null, ending;
      }
      reader := new StreamReader(q);
      for i := 0 to |chunks|
        invariant fresh(reader) && reader.index == 0 && reader.chunks == chunks[..i]
      {
        reader.AddChunk(chunks[i]);
      }
      assert chunks[..|chunks|] == chunks;
      reader.SetComplete();
    }

    /** call_oneway sends an ordinary call; its reply is never awaited. */
    method CallOneway(service: nat, method_: nat, args: bytes)
      modifies this`nextSeq, this`sent
      ensures nextSeq == (old(nextSeq) + 1) % U32_COUNT
      ensures sent == old(sent) + [Ask(old(nextSeq), Call(service, method_, args))]
    {
      var q := NextSeq();
      sent := sent + [Ask(q, Call(service, method_, args))];
    }

    method SubscribeProperty(typeId: nat, key: Key, callback: nat)
      modifies this`callbacks, this`sent
      ensures callbacks == old(callbacks)[key := callback]
      ensures sent == old(sent) + [Subscribe(typeId, key.object_, key.property)]
    {
      callbacks := callbacks[key := callback];
      sent := sent + [Subscribe(typeId, key.object_, key.property)];
    }

    method UnsubscribeProperty(typeId: nat, key: Key)
      modifies this`callbacks, this`sent
      ensures callbacks == old(callbacks) - {key}
      ensures sent == old(sent) + [Unsubscribe(typeId, key.object_, key.property)]
    {
      callbacks := callbacks - {key};
      sent := sent + [Unsubscribe(typeId, key.object_, key.property)];
    }

    /** A null reference is not released. */
    method ReleaseObject(typeId: nat, id: int)
      modifies this`sent
      ensures sent == old(sent) + if id == 0 then [] else [Release(typeId, id)]
    {
      if id == 0 {
        return;
      }
      sent := sent + [Release(typeId, id)];
    }

    /** Reads at most one message: a notification is dispatched, anything else is dropped. */
    method PollNotifications()
      modifies this`inbox, this`fired
      ensures inbox == if old(inbox) == [] then [] else old(inbox)[1..]
      ensures fired == old(fired) + Fires(callbacks, old(inbox)[..if old(inbox) == [] then 0 else 1])
    {
      if inbox != [] {
        var m := inbox[0];
        inbox := inbox[1..];
        assert old(inbox)[..1] == [m];
        if m.Notify? {
          DispatchNotification(m);
        }
      }
    }

    /** init_handshake: on success the whole negotiated state and the service's method list are in place. */
    method InitHandshake(stream: bytes) returns (ok: bool)
      modifies this`negotiatedVersion, this`peerCapabilities, this`negotiatedCapabilities, this`methods, this`sent
      ensures var r := Handshake.Negotiate(localCapabilities, stream);
              && (ok <==> r.Connected?)
              && (ok ==> Handshake.Connected(negotiatedVersion, peerCapabilities, negotiatedCapabilities, methods) == r)
              && sent == old(sent) + (if ok && negotiatedVersion >= 0x0101
                   then [InitAck(Handshake.FIRST_VERSION, Handshake.CURRENT_VERSION, localCapabilities)] else [])
    {
      hide Frame, Handshake.DecodeMethods, Handshake.And, Unpack;
      var received := Frame(stream);
      if !received.Message? {
        return false;
      }
      var h := Unpack(HEADER, received.b);
      var body := received.b[HEADER_SIZE..];
      if h[0] != MAGIC || h[4] > MAX_PAYLOAD || h[2] != 0x01 || |body| < Size(INIT_HEADER) {
        return false;
      }
      var f := Unpack(INIT_HEADER, body);
      if f[0] != MAGIC || f[2] < Handshake.FIRST_VERSION || f[1] > Handshake.CURRENT_VERSION {
        return false;
      }
      negotiatedVersion := Handshake.Min(Handshake.CURRENT_VERSION, f[2]);
      peerCapabilities := f[3];
      negotiatedCapabilities := Handshake.And(localCapabilities, f[3]);
      var list := DecodeMethodList(f[4], body[Size(INIT_HEADER)..]);
      if list.None? {
        return false;
      }
      methods := list.value;
      if negotiatedVersion >= 0x0101 {
        sent := sent + [InitAck(Handshake.FIRST_VERSION, Handshake.CURRENT_VERSION, localCapabilities)];
      }
      ok := true;
    }

    /** The loop that reads the method descriptors. */
    static method DecodeMethodList(count: nat, b: bytes) returns (r: Option<seq<Handshake.Descriptor>>)
      ensures r == Handshake.DecodeMethods(count, b)
    {
      var methods: seq<Handshake.Descriptor> := [];
      var list := b;
      ghost var whole := Handshake.DecodeMethods(count, list);
      var n := 0;
      Handshake.DescriptorSize();
      assert whole.Some? ==> [] + whole.value == whole.value;
      while n < count
        invariant n <= count
        invariant var rest := Handshake.DecodeMethods(count - n, list);
                  whole == if rest.None? then None else Some(methods + rest.value)
      {
        if |list| < Handshake.DESCRIPTOR_SIZE {
          return None;
        }
        var d := Unpack(Handshake.DESCRIPTOR, list);
        list := list[Handshake.DESCRIPTOR_SIZE..];
        ghost var rest := Handshake.DecodeMethods(count - n - 1, list);
        var descriptor := Handshake.Descriptor(d[0], d[1], d[2], d[3]);
        assert rest.Some? ==> methods + ([descriptor] + rest.value) == (methods + [descriptor]) + rest.value;
        methods := methods + [descriptor];
        n := n + 1;
      }
      assert methods + [] == methods;
      r := Some(methods);
    }

    method Supports(service: nat, method_: nat) returns (found: bool)
      ensures found <==> Handshake.Lists(methods, service, method_)
    {
      var i := 0;
      while i < |methods|
        invariant 0 <= i <= |methods|
        invariant !Handshake.Lists(methods[..i], service, method_)
      {
        if methods[i].service == service && methods[i].method_ == method_ {
          return true;
        }
        i := i + 1;
      }
      assert methods[..i] == methods;
      found := false;
    }
  }
}
