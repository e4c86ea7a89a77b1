/** The whole system: one service and any number of connections, each with two FIFO channels. Every handled message is
    one step, and the service may notify at any moment. */
module Session {
  import opened Bytes
  import opened Sets
  import Framing
  import opened Limits
  import opened Wire
  import opened Streams
  import opened Objects
  import opened Subscriptions
  import opened Service
  import opened Client
  import opened Connection

  /** `creator`, `deleted`, `shared` and `left` are history: who created each object, how often each was deleted, which got
      a second reference, and which watches of an address were abandoned there by an exception. */
  datatype System = System(server: Server, conns: map<nat, Conn>,
                           creator: map<int, nat>, deleted: multiset<int>, shared: set<int>, left: map<nat, set<Key>>)

  datatype Step =
    | Connect(c: nat, addr: nat)
    | Request(c: nat, request: Request, mode: Mode)
    | Tell(c: nat, m: ToServer)
    | Take(c: nat)
    | Discard(c: nat)
    | Misread(c: nat, read: ToClient)
    | Expire(c: nat)
    | Serve(c: nat, reaction: Reaction)
    | Leave(c: nat)
    | Escape(c: nat)
    | Raise(typeId: nat, key: Key, value: bytes)
    | AddRef(id: int)

  predicate Started(s: System) {
    && s.server.registry.objects == map[] && s.server.registry.nextId == -1 && s.server.subs == map[]
    && s.conns == map[] && s.creator == map[] && s.deleted == multiset{} && s.shared == {} && s.left == map[]
  }

  function OpenAddrs(conns: map<nat, Conn>): set<nat> { set k | k in conns && conns[k].open :: conns[k].addr }

  predicate Enabled(s: System, step: Step) {
    match step
    case Connect(c, addr) => c !in s.conns && addr !in OpenAddrs(s.conns)
    case Serve(c, _) =>
      && c in s.conns && s.conns[c].open && s.conns[c].up != []
      && SendableUp(s.conns[c].up[0]) && !s.conns[c].up[0].Shutdown? && IdsLeft(s.server.registry)
    case Leave(c) => c in s.conns && s.conns[c].open
    case Escape(c) => c in s.conns && s.conns[c].open
    case Raise(_, _, _) => true
    case AddRef(_) => true
    case _ => step.c in s.conns
  }

  /** What one event puts on one connection: its own replies, and a copy of a notification per subscription. */
  function Share(e: Event, addr: nat, self: bool, subs: Subs): seq<ToClient> {
    match e
    case Emit(m) => if self then [m] else []
    case PushTo(t, k, v) => seq(multiset(Targets(subs, k))[addr], _ => Notify(t, k.object_, k.property, v))
  }

  function Delivery(events: seq<Event>, addr: nat, self: bool, subs: Subs): seq<ToClient> {
    if events == [] then [] else Share(events[0], addr, self, subs) + Delivery(events[1..], addr, self, subs)
  }

  /** Notifications reach the other connections. */
  function Spread(conns: map<nat, Conn>, events: seq<Event>, subs: Subs): map<nat, Conn> {
    map k | k in conns :: if conns[k].open then Delivered(conns[k], Delivery(events, conns[k].addr, false, subs)) else conns[k]
  }

  function LeftAt(left: map<nat, set<Key>>, addr: nat): set<Key> { if addr in left then left[addr] else {} }

  /** A subscribe or unsubscribe from an address settles what was left there for its key. */
  function Settled(left: map<nat, set<Key>>, addr: nat, m: ToServer): map<nat, set<Key>> {
    if m.Subscribe? || m.Unsubscribe? then left[addr := LeftAt(left, addr) - {Key(m.object_, m.property)}] else left
  }

  function With(s: System, c: nat, conn: Conn): System { s.(conns := s.conns[c := conn]) }

  function Gone(before: Registry, after: Registry): multiset<int> {
    multiset(before.objects.Keys - after.objects.Keys)
  }

  /** The client's own steps; one that cannot be taken changes nothing. */
  function Local(conn: Conn, step: Step): Conn {
    match step
    case Request(_, request, mode) => if conn.pending.Idle? then Issue(conn, request, mode) else conn
    case Tell(_, m) => if !m.Ask? then Control(conn, m) else conn
    case Take(_) => if !conn.pending.Idle? && conn.down != [] && !conn.garbled then Receive(conn) else conn
    case Discard(_) => if conn.pending.Idle? && conn.down != [] && !conn.garbled then Poll(conn) else conn
    case Misread(_, m) => if conn.garbled then Connection.Misread(conn, m) else conn
    case Expire(_) => if !conn.pending.Idle? then Fail(conn) else conn
    case _ => conn
  }

  /** The record of handling a connection's oldest message. */
  function Record(s: System, c: nat, r: Reaction): Answered
    requires Enabled(s, Serve(c, r)) && s.conns[c].up[0].Ask?
  {
    var conn := s.conns[c];
    var m := conn.up[0];
    Answered(m.request, r, s.server, conn.tracking, Emits(HandleRequest(s.server, conn.tracking, m.seqId, m.request, r).events))
  }

  function Answering(s: System, c: nat, r: Reaction): System
    requires Enabled(s, Serve(c, r))
  {
    var conn := s.conns[c];
    var m := conn.up[0];
    var h := Handle(s.server, conn.addr, conn.tracking, m, r);
    var a := if m.Ask? then Record(s, c, r) else Answered(Call(0, 0, []), r, s.server, conn.tracking, []);
    var mine := Serviced(conn, h.tracking, a, Delivery(h.events, conn.addr, true, s.server.subs));
    s.(server := h.server,
       conns := Spread(s.conns, h.events, s.server.subs)[c := mine],
       creator := if h.server.registry.nextId < s.server.registry.nextId then s.creator[s.server.registry.nextId := c] else s.creator,
       deleted := s.deleted + Gone(s.server.registry, h.server.registry),
       left := Settled(s.left, conn.addr, m))
  }

  /** Handling the oldest message, which may end the connection's loop by an exception. */
  function ServeOldest(s: System, c: nat, r: Reaction): System
    requires Enabled(s, Serve(c, r))
  {
    var conn := s.conns[c];
    var next := Answering(s, c, r);
    if Handle(s.server, conn.addr, conn.tracking, conn.up[0], r).escaped then Escaped(next, c) else next
  }

  /** A connection that ends through its return paths is cleaned up after. */
  function Left(s: System, c: nat): System
    requires c in s.conns
  {
    var conn := s.conns[c];
    var server := Disconnected(s.server, conn.addr, conn.tracking);
    With(s, c, conn.(open := false, tracking := Tracking({}, {}))).(
      server := server, deleted := s.deleted + Gone(s.server.registry, server.registry), left := s.left - {conn.addr})
  }

  /** A connection whose loop ends by an exception is not. */
  function Escaped(s: System, c: nat): System
    requires c in s.conns
  {
    var conn := s.conns[c];
    With(s, c, conn.(open := false, escaped := true)).(left := s.left[conn.addr := LeftAt(s.left, conn.addr) + conn.tracking.keys])
  }

  function Apply(s: System, step: Step): System {
    if !Enabled(s, step) then s else
    match step
    case Connect(c, addr) => With(s, c, NewConn(addr))
    case Serve(c, r) => ServeOldest(s, c, r)
    case Leave(c) => Left(s, c)
    case Escape(c) => Escaped(s, c)
    case Raise(t, k, v) => s.(conns := Spread(s.conns, [PushTo(t, k, v)], s.server.subs))
    case AddRef(id) => s.(server := s.server.(registry := AddedRef(s.server.registry, id)),
                           shared := s.shared + if id in s.server.registry.objects then {id} else {})
    case _ => With(s, step.c, Local(s.conns[step.c], step))
  }

  function Run(s: System, steps: seq<Step>): System
    decreases |steps|
  {
    if steps == [] then s else Apply(Run(s, steps[..|steps| - 1]), steps[|steps| - 1])
  }

  // ---------------------------------------------------------------- deliveries

  lemma {:induction false} AllNotices(ms: seq<ToClient>)
    requires forall k :: 0 <= k < |ms| ==> ms[k].Notify?
    ensures Replies(ms) == [] && Notices(ms) == ms
  {
    if ms != [] {
      AllNotices(ms[1..]);
      NoticesStep(ms);
    }
  }

  /** A delivery holds the replies to the connection being served, and no one else's. */
  lemma {:induction false} DeliveryReplies(events: seq<Event>, addr: nat, self: bool, subs: Subs)
    requires forall k :: 0 <= k < |Emits(events)| ==> !Emits(events)[k].Notify?
    ensures Replies(Delivery(events, addr, self, subs)) == if self then Emits(events) else []
  {
    if events != [] {
      var first, rest := Share(events[0], addr, self, subs), Delivery(events[1..], addr, self, subs);
      EmitsStep(events);
      DeliveryReplies(events[1..], addr, self, subs);
      RepliesConcat(first, rest);
      if events[0].PushTo? {
        AllNotices(first);
      } else if self {
        RepliesStep(first);
        assert first[1..] == [];
      }
    }
  }

  lemma EmitsStep(events: seq<Event>)
    requires events != []
    ensures Emits(events) == if events[0].Emit? then [events[0].m] + Emits(events[1..]) else Emits(events[1..])
    ensures forall k :: 0 <= k < |Emits(events[1..])| ==> Emits(events[1..])[k] in Emits(events)
  {
    assert [] + Emits(events[1..]) == Emits(events[1..]);
    var offset := if events[0].Emit? then 1 else 0;
    assert forall k :: 0 <= k < |Emits(events[1..])| ==> Emits(events)[k + offset] == Emits(events[1..])[k];
  }

  // ---------------------------------------------------------------- every run keeps every connection's invariant

  /** An answer is what the service produces for that request in the state it was handled in. */
  ghost predicate Genuine(a: Answered, q: nat) {
    IdsLeft(a.server.registry) && a.outs == Emits(HandleRequest(a.server, a.tracking, q, a.request, a.reaction).events)
  }

  ghost predicate AllGenuine(answers: seq<Answered>) {
    forall k :: 0 <= k < |answers| ==> Genuine(answers[k], SeqOf(k))
  }

  ghost predicate ConnOk(conn: Conn) { ConnInv(conn) && AllGenuine(conn.answers) }

  ghost predicate ConnsInv(conns: map<nat, Conn>) {
    forall k :: k in conns ==> ConnOk(conns[k])
  }

  lemma AnswerKeepsConn(s: System, c: nat, r: Reaction)
    requires ConnsInv(s.conns) && Enabled(s, Serve(c, r)) && s.conns[c].up[0].Ask?
    ensures ConnOk(Answering(s, c, r).conns[c])
  {
    var conn := s.conns[c];
    assert ConnOk(conn);
    var m, a := conn.up[0], Record(s, c, r);
    var h := HandleRequest(s.server, conn.tracking, m.seqId, m.request, r);
    RepliesCarrySeq(s.server, conn.tracking, m.seqId, m.request, r);
    assert AnswerFits(a, m.request, m.seqId);
    GenuineOne(conn, a, m.seqId);
    var events := h.events;
    AnsweredKeepsConn(conn, h.tracking, a, events, s.server.subs);
  }

  lemma GenuineOne(conn: Conn, a: Answered, q: nat)
    requires ConnOk(conn) && conn.up != [] && conn.up[0] == Ask(q, a.request) && Genuine(a, q)
    ensures AllGenuine(conn.answers + [a])
  {
    AskTaken(conn.up, conn.issued, |conn.answers|);
  }

  lemma AnsweredKeepsConn(conn: Conn, t: Tracking, a: Answered, events: seq<Event>, subs: Subs)
    requires ConnOk(conn) && conn.up != [] && conn.up[0].Ask? && AnswerFits(a, conn.up[0].request, conn.up[0].seqId)
    requires Emits(events) == a.outs && AllGenuine(conn.answers + [a])
    ensures ConnOk(Serviced(conn, t, a, Delivery(events, conn.addr, true, subs)))
  {
    DeliveryReplies(events, conn.addr, true, subs);
    ServicedKeeps(conn, t, a, Delivery(events, conn.addr, true, subs));
  }

  lemma OtherKeepsConn(s: System, c: nat, r: Reaction)
    requires ConnsInv(s.conns) && Enabled(s, Serve(c, r)) && !s.conns[c].up[0].Ask?
    ensures ConnOk(Answering(s, c, r).conns[c])
  {
    var conn := s.conns[c];
    assert ConnOk(conn);
    var a := Answered(Call(0, 0, []), r, s.server, conn.tracking, []);
    var h := Handle(s.server, conn.addr, conn.tracking, conn.up[0], r);
    assert Delivery(h.events, conn.addr, true, s.server.subs) == [];
    ServicedKeeps(conn, h.tracking, a, []);
  }

  lemma SpreadKeeps(s: System, events: seq<Event>)
    requires ConnsInv(s.conns) && forall k :: 0 <= k < |Emits(events)| ==> !Emits(events)[k].Notify?
    ensures ConnsInv(Spread(s.conns, events, s.server.subs))
  {
    forall k | k in s.conns && s.conns[k].open
      ensures ConnOk(Delivered(s.conns[k], Delivery(events, s.conns[k].addr, false, s.server.subs)))
    {
      assert ConnOk(s.conns[k]);
      DeliveryReplies(events, s.conns[k].addr, false, s.server.subs);
      DeliverKeeps(s.conns[k], Delivery(events, s.conns[k].addr, false, s.server.subs));
    }
  }

  lemma HandledEventsReply(s: System, c: nat, r: Reaction)
    requires Enabled(s, Serve(c, r))
    ensures var conn := s.conns[c];
            var emits := Emits(Handle(s.server, conn.addr, conn.tracking, conn.up[0], r).events);
            forall k :: 0 <= k < |emits| ==> !emits[k].Notify?
  {
    var conn := s.conns[c];
    if conn.up[0].Ask? {
      RepliesCarrySeq(s.server, conn.tracking, conn.up[0].seqId, conn.up[0].request, r);
    }
  }

  lemma AnsweringKeepsConns(s: System, c: nat, r: Reaction)
    requires ConnsInv(s.conns) && Enabled(s, Serve(c, r))
    ensures ConnsInv(Answering(s, c, r).conns)
  {
    var conn := s.conns[c];
    var events := Handle(s.server, conn.addr, conn.tracking, conn.up[0], r).events;
    HandledEventsReply(s, c, r);
    SpreadKeeps(s, events);
    if conn.up[0].Ask? { AnswerKeepsConn(s, c, r); } else { OtherKeepsConn(s, c, r); }
  }

  lemma EscapeKeepsConns(s: System, c: nat)
    requires ConnsInv(s.conns) && c in s.conns
    ensures ConnsInv(Escaped(s, c).conns)
  {
    ClosedKeeps(s.conns[c], false, true, s.conns[c].tracking);
  }

  lemma ServeKeepsConns(s: System, c: nat, r: Reaction)
    requires ConnsInv(s.conns) && Enabled(s, Serve(c, r))
    ensures ConnsInv(ServeOldest(s, c, r).conns)
  {
    hide ConnsInv, Answering, Handle, Escaped;
    AnsweringKeepsConns(s, c, r);
    assert c in Answering(s, c, r).conns by { AnsweringFrame(s, c, r); }
    EscapeKeepsConns(Answering(s, c, r), c);
  }

  lemma AnsweringFrame(s: System, c: nat, r: Reaction)
    requires Enabled(s, Serve(c, r))
    ensures Answering(s, c, r).conns.Keys == s.conns.Keys
  {
    hide Handle, Delivery, Serviced;
  }

  lemma ServeFrame(s: System, c: nat, r: Reaction)
    requires Enabled(s, Serve(c, r))
    ensures ServeOldest(s, c, r).conns.Keys == s.conns.Keys
  {
    hide Handle, Answering;
    AnsweringFrame(s, c, r);
  }

  lemma LocalKeeps(conn: Conn, step: Step)
    requires ConnOk(conn)
    ensures ConnOk(Local(conn, step))
  {
    hide ConnInv, AllGenuine, Sendable, Encodable;
    LocalKeepsAnswers(conn, step);
    match step {
      case Request(_, request, mode) => if conn.pending.Idle? { IssueKeeps(conn, request, mode); }
      case Tell(_, m) => if !m.Ask? { ControlKeeps(conn, m); }
      case Take(_) => if !conn.pending.Idle? && conn.down != [] && !conn.garbled { ReceiveKeeps(conn); }
      case Discard(_) => if conn.pending.Idle? && conn.down != [] && !conn.garbled { PollKeeps(conn); }
      case Misread(_, m) => if conn.garbled { MisreadKeeps(conn, m); }
      case Expire(_) => if !conn.pending.Idle? { FailKeeps(conn); }
      case _ =>
    }
  }

  lemma LocalKeepsAnswers(conn: Conn, step: Step)
    ensures Local(conn, step).answers == conn.answers
  {
    hide Sendable, Encodable;
  }

  lemma FailKeeps(conn: Conn)
    requires ConnInv(conn)
    ensures ConnInv(Fail(conn))
  {
  }

  lemma ClosedKeeps(conn: Conn, open: bool, escaped: bool, t: Tracking)
    requires ConnOk(conn)
    ensures ConnOk(conn.(open := open, escaped := escaped, tracking := t))
  {
  }

  predicate IsLocal(step: Step) {
    step.Request? || step.Tell? || step.Take? || step.Discard? || step.Misread? || step.Expire?
  }

  lemma LocalStepKeeps(s: System, step: Step)
    requires ConnsInv(s.conns) && IsLocal(step) && Enabled(s, step)
    ensures ConnsInv(Apply(s, step).conns)
  {
    hide ConnOk, Local, OpenAddrs, Disconnected, Handle, Spread;
    LocalKeeps(s.conns[step.c], step);
  }

  lemma EdgeStepKeeps(s: System, step: Step)
    requires ConnsInv(s.conns) && Enabled(s, step) && (step.Connect? || step.Leave? || step.Escape?)
    ensures ConnsInv(Apply(s, step).conns)
  {
    hide ConnOk, OpenAddrs, Disconnected, Handle, Spread;
    match step {
      case Connect(c, addr) => NewIsOk(addr);
      case Leave(c) => ClosedKeeps(s.conns[c], false, s.conns[c].escaped, Tracking({}, {}));
      case Escape(c) => EscapeKeepsConns(s, c);
    }
  }

  lemma ApplyKeepsConns(s: System, step: Step)
    requires ConnsInv(s.conns)
    ensures ConnsInv(Apply(s, step).conns)
  {
    hide ConnOk, Local, OpenAddrs, SendableUp, ServeOldest, Left, Escaped;
    if Enabled(s, step) {
      match step {
        case Serve(c, r) => ServeKeepsConns(s, c, r);
        case Raise(t, k, v) =>
          assert Emits([PushTo(t, k, v)][1..]) == [];
          SpreadKeeps(s, [PushTo(t, k, v)]);
        case AddRef(id) =>
        case _ => if IsLocal(step) { LocalStepKeeps(s, step); } else { EdgeStepKeeps(s, step); }
      }
    }
  }

  lemma NewIsOk(addr: nat)
    ensures ConnOk(NewConn(addr))
  {
  }

  lemma {:induction false} RunKeepsConns(s: System, steps: seq<Step>)
    requires Started(s)
    ensures ConnsInv(Run(s, steps).conns)
    decreases |steps|
  {
    if steps != [] {
      RunKeepsConns(s, steps[..|steps| - 1]);
      ApplyKeepsConns(Run(s, steps[..|steps| - 1]), steps[|steps| - 1]);
    }
  }

  // ---------------------------------------------------------------- what a caller gets

  /** In every run, whatever the other connections do and whatever was left over from earlier calls: if the service has
      sent this connection nothing over the limits, a payload handed to the caller of request number r.index is a result
      the service produced for that very request. When a unary dispatcher or a live object served it, it is the bytes that
      was left in the response, without an exception; when it created an object, it names that object and its type. */
  lemma CorrelatedReplies(s: System, steps: seq<Step>, c: nat, r: Return)
    requires Started(s) && c in Run(s, steps).conns && r in Run(s, steps).conns[c].returned
    requires |Run(s, steps).conns[c].issued| <= U32_COUNT && AllWithin(Run(s, steps).conns[c])
    ensures var conn := Run(s, steps).conns[c]; var q := SeqOf(r.index);
            && r.index < |conn.answers| <= |conn.issued|
            && var a := conn.answers[r.index];
            && a.request == conn.issued[r.index] && IdsLeft(a.server.registry)
            && Result(q, r.payload) in Emits(HandleRequest(a.server, a.tracking, q, a.request, a.reaction).events)
            && (a.request.Call? && !IsStreaming(a.server, a.request) ==>
                  a.request.service in a.server.unary && r.payload == a.reaction.response && a.reaction.ending.Returned?)
            && (OnObject(a.request) ==>
                  && a.request.object_ in a.server.registry.objects
                  && r.payload == a.reaction.response && a.reaction.ending.Returned?)
            && (a.request.Create? && U32(a.request.typeId) ==>
                  Creates(a.server, a.request, a.reaction) && Names(r.payload, a.request.typeId, a.server.registry.nextId))
  {
    hide Run, Names, HandleRequest, AllWithin;
    RunKeepsConns(s, steps);
    var conn := Run(s, steps).conns[c];
    assert ConnOk(conn) && ReturnFits(conn.answers, r);
    var a, q := conn.answers[r.index], SeqOf(r.index);
    assert Genuine(a, q) && AnswerFits(a, conn.issued[r.index], q);
    if a.request.Call? && !IsStreaming(a.server, a.request) {
      CallAnswer(a, q);
    }
    if OnObject(a.request) {
      ObjectRequestAnswer(a.server, a.tracking, q, a.request, a.reaction);
    }
    if a.request.Create? && U32(a.request.typeId) {
      CreateResult(a.server, a.tracking, q, a.request, a.reaction, r.payload);
    }
  }

  /** A call that does not stream is answered by its dispatcher's result or exception, by "unknown service", or, when the
      exception's text is over 1 MB, not at all. */
  lemma CallAnswer(a: Answered, q: nat)
    requires Genuine(a, q) && a.request.Call? && !IsStreaming(a.server, a.request)
    ensures a.outs == if a.request.service !in a.server.unary then [Error(q, 2, [])]
                      else match a.reaction.ending
                        case Returned => [Result(q, a.reaction.response)]
                        case Threw(text) => if |text| <= 0x10_0000 then [Error(q, 3, text)] else []
  {
    UnaryAnswer(a.server, a.tracking, q, a.request, a.reaction);
  }

  /** In every run with at most 2^32 requests on a connection that has read nothing over the limit, a blocking call whose
      first reply has arrived gets its own reply if and only if no answer to an earlier request was unread or still to
      come when it was issued; otherwise it throws. */
  lemma OwnReplyInRunsIff(s: System, steps: seq<Step>, c: nat)
    requires Started(s) && c in Run(s, steps).conns
    requires var conn := Run(s, steps).conns[c];
             && conn.pending.Unary? && !conn.garbled && Replies(Readable(conn.down)) != [] && |conn.issued| <= U32_COUNT
    ensures var conn := Run(s, steps).conns[c]; var i, d := conn.pending.index, ReceiveAll(conn);
            && d.pending.Idle? && (NothingOwed(conn) <==> Await(Readable(conn.down), SeqOf(i)).wait.Got?)
            && (!NothingOwed(conn) ==> d.returned == conn.returned)
            && (NothingOwed(conn) ==>
                  && i < |conn.answers| <= |conn.issued| && conn.answers[i].request == conn.issued[i] && conn.answers[i].outs != []
                  && var m := conn.answers[i].outs[0]; d.returned == conn.returned + if m.Result? then [Return(i, m.payload)] else [])
  {
    hide Run, Receive, HandleRequest, NothingOwed;
    RunKeepsConns(s, steps);
    var conn := Run(s, steps).conns[c];
    assert ConnOk(conn);
    OwnReplyIff(conn);
    AwaitTakesFirstReply(Readable(conn.down), SeqOf(conn.pending.index));
    if NothingOwed(conn) {
      assert AnswerFits(conn.answers[conn.pending.index], conn.issued[conn.pending.index], SeqOf(conn.pending.index));
    }
  }

  /** In every run, a streaming call to a disciplined streaming dispatcher with nothing left over from before, its answer in
      the channel, hands over exactly the chunks that dispatcher wrote, completes and leaves nothing over, if and only if
      no notification and nothing over the limit comes ahead of the answer's end; what comes later does not matter. */
  lemma StreamsAreDelivered(s: System, steps: seq<Step>, c: nat)
    requires Started(s) && c in Run(s, steps).conns
    requires var conn := Run(s, steps).conns[c];
             && InOrder(conn) && conn.pending.Streaming? && |conn.answers| == conn.pending.index + 1
             && var a := conn.answers[conn.pending.index]; IsStreaming(a.server, a.request) && Disciplined(a.reaction)
    ensures var conn := Run(s, steps).conns[c]; var i := conn.pending.index; var a, d := conn.answers[i], StreamAll(conn);
            && i < |conn.issued| && a.request == conn.issued[i]
            && (d.pending.Idle? && InOrder(d) && d.chunks == Chunks(a.reaction.actions)
                <==> Unbroken(conn.down, |Replies(conn.down)|))
  {
    hide Run, Issue, Receive, HandleRequest, InOrder, Unbroken;
    RunKeepsConns(s, steps);
    var conn := Run(s, steps).conns[c];
    assert ConnOk(conn);
    var i := conn.pending.index;
    var a := conn.answers[i];
    assert Genuine(a, SeqOf(i)) && AnswerFits(a, conn.issued[i], SeqOf(i));
    OrderlyStreamCompletesIff(conn);
    StreamAnswer(a, SeqOf(i));
    ChunksOfStream(SeqOf(i), Chunks(a.reaction.actions), Terminators(SeqOf(i), a.reaction)[0]);
  }

  lemma StreamAnswer(a: Answered, q: nat)
    requires Genuine(a, q) && IsStreaming(a.server, a.request) && Disciplined(a.reaction)
    ensures |Terminators(q, a.reaction)| == 1
    ensures !Terminators(q, a.reaction)[0].Stream?
    ensures a.outs == ChunkMessages(q, Chunks(a.reaction.actions)) + [Terminators(q, a.reaction)[0]]
  {
    hide Disciplined;
    StreamShape(LinksOf(a.server.registry), q, a.reaction);
    OneTerminatorIff(q, a.reaction);
    TerminatorShape(q, a.reaction);
    var ts := Terminators(q, a.reaction);
    assert ts == [ts[0]];
  }

  // ---------------------------------------------------------------- when a connection stays in order

  /** Whether a step leaves nothing behind on connection `c`: no call gives up on its reply, no one-way call is made,
      nothing over the limit is met, no notification meets a streaming call, and the service answers in the way the caller
      waits for. */
  predicate Calm(s: System, step: Step, c: nat)
    requires c in s.conns
  {
    var conn := s.conns[c];
    match step
    case Request(k, _, mode) => k == c && conn.pending.Idle? ==> !mode.OneWay?
    case Expire(k) => k == c ==> conn.pending.Idle?
    case Take(k) =>
      k == c && !conn.pending.Idle? && conn.down != [] ==>
        Sendable(conn.down[0]) && (conn.pending.Streaming? ==> !conn.down[0].Notify?)
    case Discard(k) => k == c && conn.pending.Idle? && conn.down != [] ==> Sendable(conn.down[0])
    case Serve(k, r) =>
      k == c && Enabled(s, step) && conn.up[0].Ask? ==> Proper(conn.pending, conn.up[0].seqId, Record(s, c, r).outs)
    case _ => true
  }

  /** A connection with nothing left over stays so exactly through calm steps. */
  lemma OrderKeptIff(s: System, step: Step, c: nat)
    requires ConnsInv(s.conns) && c in s.conns && InOrder(s.conns[c])
    ensures c in Apply(s, step).conns && (InOrder(Apply(s, step).conns[c]) <==> Calm(s, step, c))
  {
    assert ConnOk(s.conns[c]);
    if IsLocal(step) {
      LocalStepOrder(s, step, c);
    } else if step.Serve? {
      ServeOrder(s, step.c, step.reaction, c);
    } else {
      QuietOrder(s, step, c);
    }
  }

  lemma LocalStepOrder(s: System, step: Step, c: nat)
    requires IsLocal(step) && c in s.conns && ConnOk(s.conns[c]) && InOrder(s.conns[c])
    ensures c in Apply(s, step).conns && (InOrder(Apply(s, step).conns[c]) <==> Calm(s, step, c))
  {
    hide InOrder, Local, Sendable, ConnOk;
    if Enabled(s, step) && step.c == c {
      LocalOrder(s.conns[c], step);
    }
  }

  lemma LocalOrder(conn: Conn, step: Step)
    requires ConnOk(conn) && InOrder(conn) && IsLocal(step)
    ensures InOrder(Local(conn, step)) <==>
        match step
        case Request(_, _, mode) => conn.pending.Idle? ==> !mode.OneWay?
        case Expire(_) => conn.pending.Idle?
        case Take(_) => !conn.pending.Idle? && conn.down != [] ==>
            Sendable(conn.down[0]) && (conn.pending.Streaming? ==> !conn.down[0].Notify?)
        case Discard(_) => conn.pending.Idle? && conn.down != [] ==> Sendable(conn.down[0])
        case _ => true
  {
    hide Sendable, Receive, Poll, UpInv, DownInv, NoticeInv, ReturnsInv;
    if step.Take? && !conn.pending.Idle? && conn.down != [] {
      ReceiveInOrderIff(conn);
    }
    if step.Discard? && conn.pending.Idle? && conn.down != [] {
      PollInOrderIff(conn);
    }
  }

  /** Whether anything is left over does not depend on the service's side, nor on notifications that arrive. */
  lemma SameOrder(a: Conn, b: Conn)
    requires a.garbled == b.garbled && a.pending == b.pending && a.answers == b.answers && a.issued == b.issued
    requires a.chunks == b.chunks && Replies(a.down) == Replies(b.down)
    ensures InOrder(a) == InOrder(b)
  {
  }

  predicate SameClient(a: Conn, b: Conn) {
    a == b.(open := a.open, escaped := a.escaped, tracking := a.tracking)
  }

  lemma EdgeFrame(s: System, step: Step, c: nat)
    requires (step.Connect? || step.Leave? || step.Escape? || step.AddRef?) && c in s.conns
    ensures c in Apply(s, step).conns && SameClient(Apply(s, step).conns[c], s.conns[c])
  {
    hide Disconnected, Gone, AddedRef, Settled, OpenAddrs, ServeOldest, Spread, Local;
  }

  lemma SpreadOrder(conns: map<nat, Conn>, events: seq<Event>, subs: Subs, c: nat)
    requires c in conns && forall k :: 0 <= k < |Emits(events)| ==> !Emits(events)[k].Notify?
    ensures InOrder(Spread(conns, events, subs)[c]) == InOrder(conns[c])
  {
    hide InOrder;
    var conn := conns[c];
    DeliveryReplies(events, conn.addr, false, subs);
    NoRepliesArrive(conn.consumed, conn.down, conn.answers, Delivery(events, conn.addr, false, subs));
    SameOrder(Spread(conns, events, subs)[c], conn);
  }

  lemma QuietOrder(s: System, step: Step, c: nat)
    requires !IsLocal(step) && !step.Serve? && c in s.conns
    ensures c in Apply(s, step).conns && InOrder(Apply(s, step).conns[c]) == InOrder(s.conns[c])
  {
    hide InOrder;
    if step.Raise? {
      var events := [PushTo(step.typeId, step.key, step.value)];
      assert Emits(events[1..]) == [];
      SpreadOrder(s.conns, events, s.server.subs, c);
    } else {
      hide Apply;
      EdgeFrame(s, step, c);
      SameOrder(Apply(s, step).conns[c], s.conns[c]);
    }
  }

  lemma ServeOrder(s: System, k: nat, r: Reaction, c: nat)
    requires c in s.conns && ConnOk(s.conns[c]) && InOrder(s.conns[c])
    ensures c in Apply(s, Serve(k, r)).conns && (InOrder(Apply(s, Serve(k, r)).conns[c]) <==> Calm(s, Serve(k, r), c))
  {
    hide InOrder, Proper, Answering, Handle, ConnOk;
    if Enabled(s, Serve(k, r)) {
      AnsweringFrame(s, k, r);
      AnsweringOrder(s, k, r, c);
      var next := Answering(s, k, r);
      SameOrder(Escaped(next, k).conns[c], next.conns[c]);
      SameOrder(ServeOldest(s, k, r).conns[c], next.conns[c]);
    }
  }

  lemma AnsweringOrder(s: System, k: nat, r: Reaction, c: nat)
    requires c in s.conns && ConnOk(s.conns[c]) && InOrder(s.conns[c]) && Enabled(s, Serve(k, r)) && c in Answering(s, k, r).conns
    ensures InOrder(Answering(s, k, r).conns[c]) <==> Calm(s, Serve(k, r), c)
  {
    hide InOrder, Proper, Handle, HandleRequest, Delivery, ConnInv;
    var conn := s.conns[k];
    var h := Handle(s.server, conn.addr, conn.tracking, conn.up[0], r);
    HandledEventsReply(s, k, r);
    var ms := Delivery(h.events, conn.addr, true, s.server.subs);
    if k != c {
      SpreadOrder(s.conns, h.events, s.server.subs, c);
    } else if conn.up[0].Ask? {
      DeliveryReplies(h.events, conn.addr, true, s.server.subs);
      RepliesCarrySeq(s.server, conn.tracking, conn.up[0].seqId, conn.up[0].request, r);
      HandleAsks(s.server, conn.addr, conn.tracking, conn.up[0], r);
      ServedInOrderIff(conn, h.tracking, Record(s, c, r), ms);
      assert Answering(s, k, r).conns[c] == Serviced(conn, h.tracking, Record(s, c, r), ms);
    } else {
      HandleOthers(s.server, conn.addr, conn.tracking, conn.up[0], r);
      assert ms == [] by { assert Delivery([], conn.addr, true, s.server.subs) == [] by { NoDelivery(conn.addr, s.server.subs); } }
      assert Notices(ms) == [];
      assert conn.down + [] == conn.down;
      SameOrder(Answering(s, k, r).conns[c], conn);
    }
  }

  lemma HandleAsks(server: Server, who: nat, t: Tracking, m: ToServer, r: Reaction)
    requires IdsLeft(server.registry) && m.Ask?
    ensures Handle(server, who, t, m, r) == HandleRequest(server, t, m.seqId, m.request, r)
  {
  }

  lemma HandleOthers(server: Server, who: nat, t: Tracking, m: ToServer, r: Reaction)
    requires IdsLeft(server.registry) && !m.Ask?
    ensures Handle(server, who, t, m, r).events == [] && !Handle(server, who, t, m, r).escaped
  {
  }

  lemma NoDelivery(addr: nat, subs: Subs)
    ensures Delivery([], addr, true, subs) == []
  {
  }

  /** A calm step loses no notification either. */
  lemma CalmKeepsTold(s: System, step: Step, c: nat)
    requires c in s.conns && Told(s.conns[c]) && !s.conns[c].garbled && Calm(s, step, c)
    ensures c in Apply(s, step).conns && Told(Apply(s, step).conns[c])
  {
    hide Proper, Sendable, Local, Record, Spread, ServeOldest;
    if IsLocal(step) {
      if Enabled(s, step) && step.c == c {
        LocalKeepsTold(s.conns[c], step);
      }
    } else if step.Serve? {
      if Enabled(s, step) {
        ServeKeepsTold(s, step.c, step.reaction, c);
      }
    } else if step.Raise? {
      SpreadKeepsTold(s.conns, [PushTo(step.typeId, step.key, step.value)], s.server.subs, c);
    } else {
      EdgeFrame(s, step, c);
    }
  }

  lemma SpreadKeepsTold(conns: map<nat, Conn>, events: seq<Event>, subs: Subs, c: nat)
    requires c in conns && Told(conns[c])
    ensures c in Spread(conns, events, subs) && Told(Spread(conns, events, subs)[c])
  {
    hide Delivery;
  }

  lemma ServeKeepsTold(s: System, k: nat, r: Reaction, c: nat)
    requires c in s.conns && Told(s.conns[c]) && Enabled(s, Serve(k, r))
    ensures c in ServeOldest(s, k, r).conns && Told(ServeOldest(s, k, r).conns[c])
  {
    hide Answering, Handle, SendableUp;
    AnsweringFrame(s, k, r);
    AnsweringKeepsTold(s, k, r, c);
  }

  lemma AnsweringKeepsTold(s: System, k: nat, r: Reaction, c: nat)
    requires c in s.conns && Told(s.conns[c]) && Enabled(s, Serve(k, r))
    ensures c in Answering(s, k, r).conns && Told(Answering(s, k, r).conns[c])
  {
    hide Handle, Delivery, Notices, SendableUp, Record, Settled, Gone;
  }

  lemma LocalKeepsTold(conn: Conn, step: Step)
    requires Told(conn) && !conn.garbled
    requires step.Take? && !conn.pending.Idle? && conn.down != [] ==>
        Sendable(conn.down[0]) && (conn.pending.Streaming? ==> !conn.down[0].Notify?)
    requires step.Discard? && conn.pending.Idle? && conn.down != [] ==> Sendable(conn.down[0])
    ensures Told(Local(conn, step))
  {
    hide Sendable, Encodable;
  }

  /** Every step of a run has been calm for a connection since it was made. */
  predicate CalmRun(s: System, steps: seq<Step>, c: nat)
    decreases |steps|
  {
    steps == [] ||
    (var before := steps[..|steps| - 1];
     CalmRun(s, before, c) && (c in Run(s, before).conns ==> Calm(Run(s, before), steps[|steps| - 1], c)))
  }

  lemma NewOnesAreOrderly(s: System, step: Step, c: nat)
    requires c !in s.conns && c in Apply(s, step).conns
    ensures InOrder(Apply(s, step).conns[c]) && Told(Apply(s, step).conns[c])
  {
    hide Handle, Delivery;
  }

  /** After steps that were all calm for a connection it has nothing left over, and every notification it took has been
      dispatched. (Not only then: see Connection.DrainingRestoresOrderIff.) */
  lemma {:induction false} CalmRunsStayInOrder(s: System, steps: seq<Step>, c: nat)
    requires Started(s) && CalmRun(s, steps, c) && c in Run(s, steps).conns
    ensures InOrder(Run(s, steps).conns[c]) && Told(Run(s, steps).conns[c])
    decreases |steps|
  {
    if steps != [] {
      var before, step := steps[..|steps| - 1], steps[|steps| - 1];
      RunKeepsConns(s, before);
      hide Apply, Calm, InOrder, Told;
      var now := Run(s, before);
      if c !in now.conns {
        NewOnesAreOrderly(now, step, c);
      } else {
        CalmRunsStayInOrder(s, before, c);
        InOrderIsNotGarbled(now.conns[c]);
        OrderKeptIff(now, step, c);
        CalmKeepsTold(now, step, c);
      }
    }
  }

  lemma InOrderIsNotGarbled(conn: Conn)
    requires InOrder(conn)
    ensures !conn.garbled
  {
  }

  /** With no timeouts, one-way calls or failed streams before it, a call whose reply has arrived gets exactly that reply,
      whatever notifications arrive ahead of it, and each of those has been dispatched once and in order. */
  lemma CalmCallsReturn(s: System, steps: seq<Step>, c: nat)
    requires Started(s) && c in Run(s, steps).conns && CalmRun(s, steps, c)
    requires var conn := Run(s, steps).conns[c]; conn.pending.Unary? && Replies(Readable(conn.down)) != []
    ensures var conn := Run(s, steps).conns[c]; var i, d := conn.pending.index, ReceiveAll(conn);
            && i < |conn.answers| && i < |conn.issued| && conn.answers[i].request == conn.issued[i]
            && |conn.answers[i].outs| == 1 && d.pending.Idle? && InOrder(d)
            && d.returned == conn.returned + (if conn.answers[i].outs[0].Result? then [Return(i, conn.answers[i].outs[0].payload)] else [])
            && d.dispatched + Notices(d.down) == conn.pushed
  {
    hide Run, CalmRun, Receive, InOrder;
    CalmRunsStayInOrder(s, steps, c);
    RunKeepsConns(s, steps);
    assert ConnOk(Run(s, steps).conns[c]);
    OrderlyWait(Run(s, steps).conns[c]);
  }

  /** In every run, on a connection with nothing left over and nothing queued, and whatever notifications are under way or
      raised by the dispatcher: calling a unary dispatcher that does not throw returns exactly the response it leaves, if
      and only if arguments, response and those notifications fit in 16 MB each. Otherwise nothing is returned. */
  lemma CallsComplete(s: System, steps: seq<Step>, c: nat, call: Wire.Request, r: Reaction)
    requires Started(s) && c in Run(s, steps).conns && InOrder(Run(s, steps).conns[c])
    requires call.Call? && RequestFits(call) && r.ending.Returned?
    requires var now := Run(s, steps); var conn := now.conns[c];
             && conn.open && conn.pending.Idle? && conn.up == [] && IdsLeft(now.server.registry)
             && call.service in now.server.unary && call.service !in now.server.streaming
    ensures var now := Run(s, steps);
            var served := Apply(Apply(now, Request(c, call, Blocking)), Serve(c, r)).conns[c];
            var d, before, result := ReceiveAll(served), now.conns[c].returned, Return(|now.conns[c].issued|, r.response);
            if 4 + |call.args| <= Framing.MAX_PAYLOAD && |r.response| <= Framing.MAX_PAYLOAD && AllSendable(Notices(served.down))
            then d.pending.Idle? && InOrder(d) && d.returned == before + [result]
            else d.returned == before
  {
    hide Run;
    RunKeepsConns(s, steps);
    var now := Run(s, steps);
    assert ConnOk(now.conns[c]);
    CallCompletes(now, c, call, r);
  }

  lemma CallCompletes(now: System, c: nat, call: Wire.Request, r: Reaction)
    requires c in now.conns && ConnInv(now.conns[c]) && InOrder(now.conns[c])
    requires call.Call? && RequestFits(call) && r.ending.Returned?
    requires var conn := now.conns[c];
             && conn.open && conn.pending.Idle? && conn.up == [] && IdsLeft(now.server.registry)
             && call.service in now.server.unary && call.service !in now.server.streaming
    ensures var served := Apply(Apply(now, Request(c, call, Blocking)), Serve(c, r)).conns[c];
            var d, before, result := ReceiveAll(served), now.conns[c].returned, Return(|now.conns[c].issued|, r.response);
            if 4 + |call.args| <= Framing.MAX_PAYLOAD && |r.response| <= Framing.MAX_PAYLOAD && AllSendable(Notices(served.down))
            then d.pending.Idle? && InOrder(d) && d.returned == before + [result]
            else d.returned == before
  {
    hide ReceiveAll, Handle, Spread, ConnInv, InOrder, ServeOldest, AllSendable;
    var conn := now.conns[c];
    var waiting := Issue(conn, call, Blocking);
    IssueKeeps(conn, call, Blocking);
    NothingYet(conn, call);
    var asked := With(now, c, waiting);
    assert Apply(now, Request(c, call, Blocking)) == asked;
    var q := SeqOf(|conn.issued|);
    assert waiting.up == [Ask(q, call)] && waiting.up[0] == Ask(q, call);
    assert SendableUp(waiting.up[0]) <==> 4 + |call.args| <= Framing.MAX_PAYLOAD;
    if Enabled(asked, Serve(c, r)) {
      assert Apply(asked, Serve(c, r)) == ServeOldest(asked, c, r);
      ServeFrame(asked, c, r);
      CallServed(asked, c, call, q, r);
      CallEnds(ServeOldest(asked, c, r).conns[c], q, r.response);
    } else {
      if Replies(Readable(waiting.down)) != [] {
        FirstReadable(waiting.down);
      }
      NoReplyYet(waiting);
    }
  }

  lemma NothingYet(conn: Conn, call: Wire.Request)
    requires ConnInv(conn) && InOrder(conn) && conn.pending.Idle?
    ensures var d := Issue(conn, call, Blocking); InOrder(d) && Replies(d.down) == [] && d.returned == conn.returned
    ensures var d := Issue(conn, call, Blocking); d.pending == Unary(|conn.issued|) && |d.answers| == |conn.issued|
  {
  }

  lemma NoReplyYet(conn: Conn)
    requires conn.pending.Unary? && !conn.garbled && Replies(Readable(conn.down)) == []
    ensures ReceiveAll(conn).returned == conn.returned
  {
    hide ReceiveAll, Rounds;
    ReceiveAllIsAwait(conn);
    AwaitTakesFirstReply(Readable(conn.down), SeqOf(conn.pending.index));
    assert conn.returned + [] == conn.returned;
  }

  lemma {:induction false} SendableSplits(ms: seq<ToClient>)
    ensures AllSendable(ms) <==> AllSendable(Notices(ms)) && AllSendable(Replies(ms))
  {
    hide Sendable;
    if ms != [] {
      AllSendableStep(ms);
      SendableSplits(ms[1..]);
      NoticesStep(ms);
      RepliesStep(ms);
      if ms[0].Notify? {
        assert Replies(ms) == Replies(ms[1..]);
        AllSendableStep(Notices(ms));
        assert Notices(ms)[1..] == Notices(ms[1..]);
      } else {
        assert Notices(ms) == Notices(ms[1..]);
        AllSendableStep(Replies(ms));
        assert Replies(ms)[1..] == Replies(ms[1..]);
      }
    }
  }

  /** With its only reply at the end of the channel, a call returns it if and only if the whole channel can be read. */
  lemma CallEnds(conn: Conn, q: nat, response: bytes)
    requires ConnInv(conn) && InOrder(conn) && conn.pending.Unary? && Replies(conn.down) == [Result(q, response)]
    requires conn.down != [] && conn.down[|conn.down| - 1] == Result(q, response) && U32(q)
    requires var i := conn.pending.index; i < |conn.answers| && conn.answers[i].outs == [Result(q, response)]
    ensures var d := ReceiveAll(conn);
            if |response| <= Framing.MAX_PAYLOAD && AllSendable(Notices(conn.down))
            then d.pending.Idle? && InOrder(d) && d.returned == conn.returned + [Return(conn.pending.index, response)]
            else d.returned == conn.returned
  {
    hide ReceiveAll, ConnInv, InOrder, Notices, Replies;
    var last, n := Result(q, response), |conn.down| - 1;
    SendableSplits(conn.down);
    assert AllSendable([last]) <==> |response| <= Framing.MAX_PAYLOAD by { assert [last][0] == last; }
    InOrderIsNotGarbled(conn);
    assert conn.down == conn.down[..n] + [last];
    LastReplyReadableIff(conn.down[..n], last);
    if AllSendable(conn.down) {
      OrderlyWait(conn);
    } else {
      NoReplyYet(conn);
    }
  }

  lemma LastReplyReadableIff(ahead: seq<ToClient>, last: ToClient)
    requires Replies(ahead + [last]) == [last]
    ensures Replies(Readable(ahead + [last])) != [] <==> AllSendable(ahead + [last])
  {
    hide Sendable, Replies, Readable;
    var all := ahead + [last];
    var r := Readable(all);
    RepliesConcat(ahead, [last]);
    OneReply(last);
    assert Replies(all)[0] == last && !last.Notify?;
    assert |Replies(ahead)| + 1 == |Replies(all)|;
    if |r| < |all| {
      assert r == all[..|r|] == ahead[..|r|] && !Sendable(all[|r|]);
      assert ahead == r + ahead[|r|..];
      RepliesConcat(r, ahead[|r|..]);
    } else {
      assert r == all;
    }
  }

  lemma OneReply(last: ToClient)
    ensures Replies([last]) == if last.Notify? then [] else [last]
  {
    assert [last][1..] == [];
  }

  /** Serving the call puts its one result, behind what was queued, in the channel. */
  lemma CallServed(s: System, c: nat, call: Wire.Request, q: nat, r: Reaction)
    requires Enabled(s, Serve(c, r)) && ConnInv(s.conns[c]) && InOrder(s.conns[c]) && s.conns[c].pending.Unary?
    requires s.conns[c].up[0] == Ask(q, call) && call.Call? && r.ending.Returned?
    requires call.service in s.server.unary && call.service !in s.server.streaming
    ensures var d := ServeOldest(s, c, r).conns[c]; var i := s.conns[c].pending.index;
            && ConnInv(d) && InOrder(d) && d.pending == s.conns[c].pending && d.returned == s.conns[c].returned
            && Replies(d.down) == [Result(q, r.response)] && d.down != [] && d.down[|d.down| - 1] == Result(q, r.response)
            && i < |d.answers| && d.answers[i].outs == [Result(q, r.response)]
  {
    hide ConnInv, InOrder, Delivery, Replies, Notices, Spread, PushesOf;
    var conn := s.conns[c];
    var pushes := PushesOf(LinksOf(s.server.registry), r.actions);
    var result := Result(q, r.response);
    var h := HandleRequest(s.server, conn.tracking, q, call, r);
    assert h.events == pushes + [Emit(result)] && !h.escaped;
    var a := Record(s, c, r);
    UnaryAnswer(s.server, conn.tracking, q, call, r);
    assert a.outs == [result];
    var ms := Delivery(h.events, conn.addr, true, s.server.subs);
    PushesAreSilent(LinksOf(s.server.registry), r.actions);
    ResultComesLast(pushes, result, conn.addr, s.server.subs);
    AnswersBefore(conn);
    CallDelivered(conn, h.tracking, a, ms, result);
    assert ServeOldest(s, c, r).conns[c] == Serviced(conn, h.tracking, a, ms);
  }

  lemma CallDelivered(conn: Conn, t: Tracking, a: Answered, ms: seq<ToClient>, result: ToClient)
    requires ConnInv(conn) && InOrder(conn) && conn.pending.Unary? && |conn.answers| == conn.pending.index && conn.up != []
    requires conn.up[0].Ask? && AnswerFits(a, conn.up[0].request, conn.up[0].seqId) && a.outs == [result] && result.Result?
    requires Replies(ms) == [result] && ms != [] && ms[|ms| - 1] == result
    ensures var d := Serviced(conn, t, a, ms); var i := conn.pending.index;
            && ConnInv(d) && InOrder(d) && d.pending == conn.pending && d.returned == conn.returned
            && Replies(d.down) == [result] && d.down != [] && d.down[|d.down| - 1] == result
            && i < |d.answers| && d.answers[i].outs == [result]
  {
    hide ConnInv, Replies, Notices, UpInv;
    ServicedKeeps(conn, t, a, ms);
    ServedInOrderIff(conn, t, a, ms);
    RepliesConcat(conn.down, ms);
    assert Replies(conn.down) == [];
  }

  /** On the asking connection whatever the dispatcher raises arrives ahead of its result. */
  lemma ResultComesLast(events: seq<Event>, result: ToClient, addr: nat, subs: Subs)
    requires result.Result? && Emits(events) == []
    ensures var ms := Delivery(events + [Emit(result)], addr, true, subs);
            Replies(ms) == [result] && ms != [] && ms[|ms| - 1] == result
  {
    hide Emits, Delivery, Replies;
    EmitsConcat(events, [Emit(result)]);
    OnlyOne(result);
    assert [] + [result] == [result];
    DeliveryReplies(events + [Emit(result)], addr, true, subs);
    LastDelivered(events, result, addr, subs);
  }

  lemma {:induction false} LastDelivered(events: seq<Event>, last: ToClient, addr: nat, subs: Subs)
    ensures var ms := Delivery(events + [Emit(last)], addr, true, subs); ms != [] && ms[|ms| - 1] == last
  {
    var all := events + [Emit(last)];
    if events == [] {
      assert all == [Emit(last)] && all[1..] == [] && Delivery([], addr, true, subs) == [];
    } else {
      LastDelivered(events[1..], last, addr, subs);
      assert all[1..] == events[1..] + [Emit(last)];
    }
  }

  lemma AnswersBefore(conn: Conn)
    requires ConnInv(conn) && InOrder(conn) && conn.pending.Unary? && conn.up != [] && conn.up[0].Ask?
    ensures |conn.answers| == conn.pending.index
    ensures conn.up[0] == Ask(SeqOf(conn.pending.index), conn.issued[conn.pending.index])
  {
    AskTaken(conn.up, conn.issued, |conn.answers|);
  }

  /** A blocking call to anything but a streaming dispatcher, unless user code throws with a text over 1 MB, and a streaming
      call to a disciplined one are answered in the way the caller waits for. */
  lemma ProperAnswers(a: Answered, q: nat, p: Pending)
    requires Genuine(a, q) && !p.Idle?
    requires if p.Unary? then !IsStreaming(a.server, a.request) && !Escapes(a.server, a.request, a.reaction) else IsStreaming(a.server, a.request) && Disciplined(a.reaction)
    ensures Proper(p, q, a.outs)
  {
    if p.Unary? {
      OneAnswer(a.server, a.tracking, q, a.request, a.reaction);
    } else {
      StreamShape(LinksOf(a.server.registry), q, a.reaction);
      OneTerminatorIff(q, a.reaction);
      RepliesCarrySeq(a.server, a.tracking, q, a.request, a.reaction);
      ChunksAreStreams(q, Chunks(a.reaction.actions));
    }
  }

  lemma {:induction false} ChunksAreStreams(q: nat, chunks: seq<bytes>)
    ensures forall k :: 0 <= k < |chunks| ==> ChunkMessages(q, chunks)[k] == Stream(q, chunks[k])
  {
    if chunks != [] {
      ChunksAreStreams(q, chunks[1..]);
    }
  }

  // ---------------------------------------------------------------- requests over the limit

  predicate Blocked(conn: Conn) { conn.up != [] && !SendableUp(conn.up[0]) }

  /** Neither a request over 16 MB nor anything sent behind it is ever answered. */
  lemma {:induction false} NothingServedBehind(s: System, steps: seq<Step>, c: nat)
    requires c in s.conns && Blocked(s.conns[c])
    ensures c in Run(s, steps).conns && Run(s, steps).conns[c].answers == s.conns[c].answers && Blocked(Run(s, steps).conns[c])
    decreases |steps|
  {
    hide Apply, Blocked;
    if steps != [] {
      var before := steps[..|steps| - 1];
      NothingServedBehind(s, before, c);
      BlockedStays(Run(s, before), steps[|steps| - 1], c);
    }
  }

  lemma BlockedStays(s: System, step: Step, c: nat)
    requires c in s.conns && Blocked(s.conns[c])
    ensures c in Apply(s, step).conns && Apply(s, step).conns[c].answers == s.conns[c].answers && Blocked(Apply(s, step).conns[c])
  {
    hide SendableUp, Local, Spread, Answering, ServeOldest;
    if IsLocal(step) {
      if Enabled(s, step) && step.c == c {
        LocalKeepsAnswers(s.conns[c], step);
        LocalKeepsHead(s.conns[c], step);
      }
    } else if step.Serve? {
      if Enabled(s, step) {
        ServeOthers(s, step.c, step.reaction, c);
      }
    } else if step.Raise? {
      SpreadFrame(s.conns, [PushTo(step.typeId, step.key, step.value)], s.server.subs, c);
    } else {
      EdgeFrame(s, step, c);
    }
  }

  lemma LocalKeepsHead(conn: Conn, step: Step)
    requires conn.up != []
    ensures Local(conn, step).up != [] && Local(conn, step).up[0] == conn.up[0]
  {
    hide Sendable, Encodable;
  }

  lemma SpreadFrame(conns: map<nat, Conn>, events: seq<Event>, subs: Subs, c: nat)
    requires c in conns
    ensures c in Spread(conns, events, subs)
    ensures var d := Spread(conns, events, subs)[c]; d.answers == conns[c].answers && d.up == conns[c].up
  {
    hide Delivery;
  }

  /** What a step adds to the answers of a connection: at most the one to its oldest request. */
  lemma AnswersAfter(s: System, step: Step, k: nat)
    requires k in Apply(s, step).conns
    ensures Apply(s, step).conns[k].answers ==
            (if k in s.conns then s.conns[k].answers else []) +
            (if step.Serve? && step.c == k && Enabled(s, step) && s.conns[k].up[0].Ask? then [Record(s, k, step.reaction)] else [])
  {
    hide SendableUp, Local, Spread, Record, ServeOldest;
    if k in s.conns {
      assert s.conns[k].answers + [] == s.conns[k].answers;
      if IsLocal(step) {
        if Enabled(s, step) && step.c == k {
          LocalKeepsAnswers(s.conns[k], step);
        }
      } else if step.Serve? {
        if Enabled(s, step) {
          if step.c == k { ServedAnswers(s, k, step.reaction); } else { ServeOthers(s, step.c, step.reaction, k); }
        }
      } else if step.Raise? {
        SpreadFrame(s.conns, [PushTo(step.typeId, step.key, step.value)], s.server.subs, k);
      } else {
        EdgeFrame(s, step, k);
      }
    } else {
      NewOnesAnswer(s, step, k);
    }
  }

  lemma ServedAnswers(s: System, c: nat, r: Reaction)
    requires Enabled(s, Serve(c, r))
    ensures c in ServeOldest(s, c, r).conns
    ensures ServeOldest(s, c, r).conns[c].answers == s.conns[c].answers + if s.conns[c].up[0].Ask? then [Record(s, c, r)] else []
  {
    hide Handle, Delivery, Record, Settled, Gone, SendableUp, Notices, Spread;
    assert s.conns[c].answers + [] == s.conns[c].answers;
  }

  lemma NewOnesAnswer(s: System, step: Step, k: nat)
    requires k !in s.conns && k in Apply(s, step).conns
    ensures Apply(s, step).conns[k].answers == [] && !step.Serve?
  {
    hide Handle, Delivery, SendableUp;
  }

  lemma ServeOthers(s: System, k: nat, r: Reaction, c: nat)
    requires c in s.conns && k != c && Enabled(s, Serve(k, r))
    ensures c in ServeOldest(s, k, r).conns
    ensures var d := ServeOldest(s, k, r).conns[c]; d.answers == s.conns[c].answers && d.up == s.conns[c].up
  {
    hide Handle, Delivery, Record, Settled, Gone, SendableUp, Notices;
  }

  // ---------------------------------------------------------------- what the service knows of its connections

  predicate SameServices(a: map<nat, Conn>, b: map<nat, Conn>) {
    a.Keys == b.Keys && forall k :: k in a ==> SameService(a[k], b[k])
  }

  lemma LocalSameService(conn: Conn, step: Step)
    ensures SameService(conn, Local(conn, step))
  {
    hide Issue, Control, Receive, Poll, Connection.Misread;
  }

  lemma LocalSameServices(s: System, step: Step)
    requires IsLocal(step)
    ensures SameServices(s.conns, Apply(s, step).conns) && Apply(s, step) == s.(conns := Apply(s, step).conns)
  {
    if Enabled(s, step) {
      LocalSameService(s.conns[step.c], step);
    }
  }

  lemma SpreadSameServices(conns: map<nat, Conn>, events: seq<Event>, subs: Subs)
    ensures SameServices(conns, Spread(conns, events, subs))
  {
  }
}
