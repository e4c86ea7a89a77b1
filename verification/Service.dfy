/** The service's side of a connection (src/runtime.cpp): what one message does to the registries, to what the
    connection has to clean up, and to the transports. User code is an arbitrary Reaction. */
module Service {
  import opened Bytes
  import opened Sets
  import opened Limits
  import opened Wire
  import opened Streams
  import opened Objects
  import opened Subscriptions
  import Handshake

  const UNKNOWN_SERVICE: nat := 2
  const OBJECT_NOT_FOUND: nat := 300
  const OBJECT_CREATION_FAILED: nat := 301
  const PROPERTY_ERROR: nat := 302

  datatype Server = Server(unary: set<nat>, streaming: set<nat>, registry: Registry, subs: Subs)

  /** What client_loop keeps for one connection: the objects it created and the properties it watches. */
  datatype Tracking = Tracking(objects: set<int>, keys: set<Key>)

  /** What handling a message leaves: `escaped` when it ends the connection's loop by an exception. */
  datatype Handled = Handled(server: Server, tracking: Tracking, events: seq<Event>, escaped: bool)

  /** A notification leaves only objects that a subscribe message has linked to the registry. */
  function LinksOf(r: Registry): Links {
    map id | id in r.objects && r.objects[id].linked :: r.objects[id].typeId
  }

  function PushesOf(links: Links, actions: seq<Action>): seq<Event> {
    if actions == [] then [] else Pushes(links, actions[0]) + PushesOf(links, actions[1..])
  }

  /** The result, or the exception as an error reply. */
  function Answer(seqId: nat, r: Reaction, code: nat): seq<Event> {
    match r.ending
    case Returned => [Emit(Result(seqId, r.response))]
    case Threw(text) => ErrorEvents(seqId, code, text)
  }

  predicate TooLong(r: Reaction) { r.ending.Threw? && |r.ending.text| > MAX_TEXT }

  /** User code's exception carries a text over 1 MB, so that building the error reply throws. */
  predicate Escapes(s: Server, request: Request, r: Reaction) {
    match request
    case Call(service, _, _) => if service in s.streaming then StreamEscapes(r) else service in s.unary && TooLong(r)
    case Create(typeId, _, _) => typeId in s.registry.factories && TooLong(r)
    case PropGet(_, o, _) => o in s.registry.objects && TooLong(r)
    case PropSet(_, o, _, _) => o in s.registry.objects && TooLong(r)
    case ObjectCall(_, o, _, _) => o in s.registry.objects && TooLong(r)
  }

  /** Fewer than 2^31 objects have been created, so the next id is still a negative 32-bit integer. */
  predicate IdsLeft(r: Registry) { I32_MIN <= r.nextId < 0 }

  function ObjectRef(typeId: nat, id: int): bytes
    requires I32_MIN <= id < 0
  {
    Pow256Values();
    Pack(RELEASE_HEADER, [typeId, ObjectBits(id)])
  }

  /** handle_message. */
  function Handle(s: Server, who: nat, t: Tracking, m: ToServer, r: Reaction): Handled
    requires IdsLeft(s.registry)
  {
    match m
    case Ask(q, request) => HandleRequest(s, t, q, request, r)
    case Release(_, o) => Handled(s.(registry := Released(s.registry, o)), t.(objects := t.objects - {o}), [], false)
    case Subscribe(_, o, p) =>
      Handled(s.(subs := SubscribedTo(s.subs, who, Key(o, p)), registry := Linked(s.registry, o)),
              t.(keys := t.keys + {Key(o, p)}), [], false)
    case Unsubscribe(_, o, p) =>
      Handled(s.(subs := UnsubscribedFrom(s.subs, who, Key(o, p))), t.(keys := t.keys - {Key(o, p)}), [], false)
    case Shutdown => Handled(s, t, [], false)
    case InitAck(_, _, _) => Handled(s, t, [], false)
  }

  function HandleRequest(s: Server, t: Tracking, q: nat, request: Request, r: Reaction): Handled
    requires IdsLeft(s.registry)
  {
    var links := LinksOf(s.registry);
    var escaped := Escapes(s, request, r);
    match request
    case Call(service, _, _) =>
      if service in s.streaming then Handled(s, t, StreamEvents(links, q, r), escaped)
      else if service !in s.unary then Handled(s, t, [Emit(Error(q, UNKNOWN_SERVICE, []))], escaped)
      else Handled(s, t, PushesOf(links, r.actions) + Answer(q, r, UNKNOWN_METHOD), escaped)
    case Create(typeId, _, _) =>
      var (registry, id) := Created(s.registry, typeId, r.made && r.ending.Returned?);
      var pushes := if typeId in s.registry.factories then PushesOf(links, r.actions) else [];
      if id.Some? then
        Handled(s.(registry := registry), t.(objects := t.objects + {id.value}),
                pushes + [Emit(Result(q, ObjectRef(typeId, id.value)))], escaped)
      else Handled(s, t, pushes + ErrorEvents(q, OBJECT_CREATION_FAILED, FactoryText(s, typeId, r)), escaped)
    case PropGet(_, o, _) => HandleOnObject(s, t, q, o, r, PROPERTY_ERROR)
    case PropSet(_, o, _, _) => HandleOnObject(s, t, q, o, r, PROPERTY_ERROR)
    case ObjectCall(_, o, _, _) => HandleOnObject(s, t, q, o, r, UNKNOWN_METHOD)
  }

  /** The text of a failed creation: the factory's, or one of the registry's own. */
  function FactoryText(s: Server, typeId: nat, r: Reaction): bytes {
    if typeId in s.registry.factories && r.ending.Threw? then r.ending.text else []
  }

  function HandleOnObject(s: Server, t: Tracking, q: nat, o: int, r: Reaction, code: nat): Handled {
    if o !in s.registry.objects then Handled(s, t, [Emit(Error(q, OBJECT_NOT_FOUND, []))], false)
    else Handled(s, t, PushesOf(LinksOf(s.registry), r.actions) + Answer(q, r, code), TooLong(r))
  }

  /** The cleanup on a connection's three return paths. */
  function Disconnected(s: Server, who: nat, t: Tracking): Server {
    s.(registry := ReleasedAll(s.registry, t.objects), subs := UnsubscribedAll(s.subs, who))
  }

  // ---------------------------------------------------------------- one answer per request

  lemma {:induction false} PushesAreSilent(links: Links, actions: seq<Action>)
    ensures Emits(PushesOf(links, actions)) == []
  {
    if actions != [] {
      PushesAreSilent(links, actions[1..]);
      PushesEmitNothing(links, actions[0], PushesOf(links, actions[1..]));
    }
  }

  lemma AnswerIsLast(links: Links, actions: seq<Action>, last: seq<Event>)
    ensures Emits(PushesOf(links, actions) + last) == Emits(last)
  {
    PushesAreSilent(links, actions);
    EmitsConcat(PushesOf(links, actions), last);
    assert [] + Emits(last) == Emits(last);
  }

  lemma OnlyOne(m: ToClient)
    ensures Emits([Emit(m)]) == [m] && Emits([]) == []
  {
    EmitsOne(m, []);
    assert [Emit(m)] + [] == [Emit(m)];
  }

  /** Whether a request goes to a streaming dispatcher. */
  predicate IsStreaming(s: Server, request: Request) {
    request.Call? && request.service in s.streaming
  }

  /** The final outcome of a request that does not stream. */
  predicate IsOutcome(m: ToClient, q: nat) {
    (m.Result? || m.Error?) && m.seqId == q
  }

  /** What a result or an exception puts in the channel. */
  function AnswerMessages(q: nat, r: Reaction, code: nat): seq<ToClient> {
    match r.ending
    case Returned => [Result(q, r.response)]
    case Threw(text) => if |text| <= MAX_TEXT then [Error(q, code, text)] else []
  }

  lemma AnswerEmits(q: nat, r: Reaction, code: nat)
    ensures Emits(Answer(q, r, code)) == AnswerMessages(q, r, code)
    ensures r.ending.Threw? ==> Emits(ErrorEvents(q, code, r.ending.text)) == AnswerMessages(q, r, code)
  {
    if AnswerMessages(q, r, code) != [] {
      OnlyOne(AnswerMessages(q, r, code)[0]);
    }
    assert Emits([]) == [];
  }

  /** A request that does not stream is answered by exactly one result or error with its sequence id, unless user code
      throws with a text over 1 MB: then, and only then, it gets no answer and the connection's loop ends. */
  lemma OneAnswer(s: Server, t: Tracking, q: nat, request: Request, r: Reaction)
    requires IdsLeft(s.registry) && !IsStreaming(s, request)
    ensures var h := HandleRequest(s, t, q, request, r); var replies := Emits(h.events);
            && (h.escaped <==> Escapes(s, request, r))
            && if h.escaped then replies == [] else |replies| == 1 && IsOutcome(replies[0], q)
  {
    hide ErrorEvents, Answer;
    match request
    case Call(service, _, _) =>
      if service in s.unary { OutcomeEmits(s, q, r, UNKNOWN_METHOD); } else { OnlyOne(Error(q, UNKNOWN_SERVICE, [])); }
    case Create(typeId, _, _) => CreateAnswer(s, t, q, request, r);
    case PropGet(_, o, _) => ObjectAnswer(s, t, q, o, r, PROPERTY_ERROR);
    case PropSet(_, o, _, _) => ObjectAnswer(s, t, q, o, r, PROPERTY_ERROR);
    case ObjectCall(_, o, _, _) => ObjectAnswer(s, t, q, o, r, UNKNOWN_METHOD);
  }

  lemma OutcomeEmits(s: Server, q: nat, r: Reaction, code: nat)
    ensures var replies := Emits(PushesOf(LinksOf(s.registry), r.actions) + Answer(q, r, code));
            replies == AnswerMessages(q, r, code) && if TooLong(r) then replies == [] else |replies| == 1 && IsOutcome(replies[0], q)
  {
    AnswerIsLast(LinksOf(s.registry), r.actions, Answer(q, r, code));
    AnswerEmits(q, r, code);
  }

  lemma ObjectAnswer(s: Server, t: Tracking, q: nat, o: int, r: Reaction, code: nat)
    ensures var h := HandleOnObject(s, t, q, o, r, code); var replies := Emits(h.events);
            && (h.escaped <==> o in s.registry.objects && TooLong(r))
            && if h.escaped then replies == [] else |replies| == 1 && IsOutcome(replies[0], q)
  {
    hide Answer;
    OutcomeEmits(s, q, r, code);
    OnlyOne(Error(q, OBJECT_NOT_FOUND, []));
  }

  lemma CreateAnswer(s: Server, t: Tracking, q: nat, request: Request, r: Reaction)
    requires IdsLeft(s.registry) && request.Create?
    ensures var h := HandleRequest(s, t, q, request, r); var replies := Emits(h.events);
            if h.escaped then replies == [] else |replies| == 1 && IsOutcome(replies[0], q)
  {
    hide ObjectRef;
    var typeId := request.typeId;
    var links, code := LinksOf(s.registry), OBJECT_CREATION_FAILED;
    var (_, id) := Created(s.registry, typeId, r.made && r.ending.Returned?);
    var last := if id.Some? then [Emit(Result(q, ObjectRef(typeId, id.value)))] else ErrorEvents(q, code, FactoryText(s, typeId, r));
    AnswerIsLast(links, r.actions, last);
    assert [] + last == last;
    if last != [] {
      OnlyOne(last[0].m);
    }
    assert Emits([]) == [];
  }

  /** A unary call is answered by the very bytes its dispatcher left in the response, or by its exception; a call of a
      service that is not registered by "unknown service". */
  lemma UnaryAnswer(s: Server, t: Tracking, q: nat, request: Request, r: Reaction)
    requires IdsLeft(s.registry) && request.Call? && request.service !in s.streaming
    ensures Emits(HandleRequest(s, t, q, request, r).events) ==
            if request.service !in s.unary then [Error(q, 2, [])]
            else match r.ending
              case Returned => [Result(q, r.response)]
              case Threw(text) => if |text| <= 0x10_0000 then [Error(q, 3, text)] else []
  {
    hide Answer;
    OutcomeEmits(s, q, r, UNKNOWN_METHOD);
    OnlyOne(Error(q, 2, []));
  }

  predicate OnObject(request: Request) { request.PropGet? || request.PropSet? || request.ObjectCall? }

  /** Getting or setting a property and calling a method of a live object are answered by the bytes that the object left in
      the response, or by its exception; of any other object by "object not found". */
  lemma ObjectRequestAnswer(s: Server, t: Tracking, q: nat, request: Request, r: Reaction)
    requires IdsLeft(s.registry) && OnObject(request)
    ensures Emits(HandleRequest(s, t, q, request, r).events) ==
            if request.object_ !in s.registry.objects then [Error(q, 300, [])]
            else match r.ending
              case Returned => [Result(q, r.response)]
              case Threw(text) => if |text| <= 0x10_0000 then [Error(q, if request.ObjectCall? then 3 else 302, text)] else []
  {
    hide Answer;
    var code := if request.ObjectCall? then UNKNOWN_METHOD else PROPERTY_ERROR;
    assert HandleRequest(s, t, q, request, r) == HandleOnObject(s, t, q, request.object_, r, code);
    OutcomeEmits(s, q, r, code);
    OnlyOne(Error(q, 300, []));
  }

  /** Eight bytes: the type, then the signed id, little-endian. */
  predicate Names(p: bytes, typeId: nat, id: int) {
    |p| == 8 && FromLe(p[..4]) == typeId && ToSigned(FromLe(p[4..]), 4) == id
  }

  lemma RefBytes(typeId: nat, id: int)
    requires U32(typeId) && I32_MIN <= id < 0
    ensures Names(ObjectRef(typeId, id), typeId, id)
  {
    hide Le, FromLe;
    Pow256Values();
    var bits := ObjectBits(id);
    var tail := Pack([4], [bits]);
    assert [bits][1..] == [] && [4][1..] == [] && tail == Le(bits, 4) + Pack([], []) && Pack([], []) == [];
    assert RELEASE_HEADER[1..] == [4] && [typeId, bits][1..] == [bits];
    var p := ObjectRef(typeId, id);
    assert p == Le(typeId, 4) + tail && tail == Le(bits, 4);
    assert p[..4] == Le(typeId, 4) && p[4..] == Le(bits, 4);
    assert ToSigned(bits, 4) == id;
    LeRoundTrip(typeId, 4);
    LeRoundTrip(bits, 4);
    SignedRoundTrip(id, 4);
  }

  /** Creating an object succeeds exactly when the type has a factory that returns one. The answer then names the requested
      type and an object that was not live before and is live now, with that type and one reference, as the only change
      to the objects; the connection tracks it. Otherwise the answer is the factory's exception and nothing changes. */
  lemma CreateNames(s: Server, t: Tracking, q: nat, request: Request, r: Reaction)
    requires IdsLeft(s.registry) && Sound(s.registry) && request.Create? && U32(request.typeId)
    ensures var h := HandleRequest(s, t, q, request, r);
            var replies, objects, id := Emits(h.events), s.registry.objects, s.registry.nextId;
            var text := if request.typeId in s.registry.factories && r.ending.Threw? then r.ending.text else [];
            if request.typeId in s.registry.factories && r.made && r.ending.Returned? then
              && |replies| == 1 && replies[0].Result? && replies[0].seqId == q && Names(replies[0].payload, request.typeId, id)
              && id !in objects && h.server.registry.objects == objects[id := Info(request.typeId, 1, false)]
              && h.tracking.objects == t.objects + {id}
            else
              h.server == s && h.tracking == t && replies == if |text| <= 0x10_0000 then [Error(q, 301, text)] else []
  {
    hide ObjectRef;
    var typeId := request.typeId;
    var links, code := LinksOf(s.registry), OBJECT_CREATION_FAILED;
    var (_, id) := Created(s.registry, typeId, r.made && r.ending.Returned?);
    var last := if id.Some? then [Emit(Result(q, ObjectRef(typeId, id.value)))] else ErrorEvents(q, code, FactoryText(s, typeId, r));
    AnswerIsLast(links, r.actions, last);
    assert [] + last == last;
    if last != [] {
      OnlyOne(last[0].m);
    }
    assert Emits([]) == [];
    if id.Some? {
      RefBytes(typeId, id.value);
    }
  }

  predicate Creates(s: Server, request: Request, r: Reaction) {
    request.Create? && request.typeId in s.registry.factories && r.made && r.ending.Returned?
  }

  /** A create request is answered by a result only when it succeeds, and that result names the new object. */
  lemma CreateResult(s: Server, t: Tracking, q: nat, request: Request, r: Reaction, p: bytes)
    requires IdsLeft(s.registry) && request.Create? && U32(request.typeId)
    requires Result(q, p) in Emits(HandleRequest(s, t, q, request, r).events)
    ensures Creates(s, request, r) && Names(p, request.typeId, s.registry.nextId)
  {
    hide ObjectRef, Names;
    var typeId, code := request.typeId, OBJECT_CREATION_FAILED;
    var (_, id) := Created(s.registry, typeId, r.made && r.ending.Returned?);
    var last := if id.Some? then [Emit(Result(q, ObjectRef(typeId, id.value)))] else ErrorEvents(q, code, FactoryText(s, typeId, r));
    AnswerIsLast(LinksOf(s.registry), r.actions, last);
    assert [] + last == last && Emits([]) == [];
    if last != [] {
      OnlyOne(last[0].m);
    }
    RefBytes(typeId, s.registry.nextId);
  }

  /** A subscribe message for a live object links it to the registry, so that it notifies from then on. */
  lemma SubscribeLinks(s: Server, who: nat, t: Tracking, typeId: nat, o: int, p: nat, r: Reaction)
    requires IdsLeft(s.registry)
    ensures var after := Handle(s, who, t, Subscribe(typeId, o, p), r).server;
            && Subscribed(after.subs, who, Key(o, p)) && after.registry.objects.Keys == s.registry.objects.Keys
            && forall id :: id in s.registry.objects ==>
                 var now := after.registry.objects[id];
                 && now.typeId == s.registry.objects[id].typeId && now.refs == s.registry.objects[id].refs
                 && (now.linked <==> s.registry.objects[id].linked || id == o)
  {
  }

  predicate CarrySeq(ms: seq<ToClient>, q: nat) {
    forall k :: 0 <= k < |ms| ==> !ms[k].Notify? && ms[k].seqId == q
  }

  lemma {:induction false} ChunksCarrySeq(q: nat, chunks: seq<bytes>)
    ensures CarrySeq(ChunkMessages(q, chunks), q)
  {
    if chunks != [] {
      ChunksCarrySeq(q, chunks[1..]);
    }
  }

  lemma StreamCarriesSeq(links: Links, q: nat, r: Reaction)
    ensures CarrySeq(Emits(StreamEvents(links, q, r)), q)
  {
    hide StreamEvents, AfterStop, Chunks, ErrorSent, FailText;
    StreamShape(links, q, r);
    ChunksCarrySeq(q, Chunks(r.actions));
  }

  /** Whatever user code does, every message sent to the asking connection carries the request's sequence id. */
  lemma RepliesCarrySeq(s: Server, t: Tracking, q: nat, request: Request, r: Reaction)
    requires IdsLeft(s.registry)
    ensures CarrySeq(Emits(HandleRequest(s, t, q, request, r).events), q)
  {
    if IsStreaming(s, request) {
      hide StreamEvents;
      StreamCarriesSeq(LinksOf(s.registry), q, r);
    } else {
      hide HandleRequest;
      OneAnswer(s, t, q, request, r);
    }
  }

  // ---------------------------------------------------------------- the loop of one connection

  datatype Served = Served(server: Server, events: seq<Event>, clean: bool)

  function AndThen(events: seq<Event>, rest: Served): Served { rest.(events := events + rest.events) }

  /** client_loop over everything the connection will receive, each message with the reaction of user code to it.
      A payload that does not decode escapes as an exception, without cleanup. */
  function Serve(s: Server, who: nat, t: Tracking, inbox: seq<(Incoming<ToServer>, Reaction)>): Served
    requires IdsLeft(s.registry) && s.registry.nextId - |inbox| >= I32_MIN
    decreases |inbox|
  {
    if inbox == [] then Served(Disconnected(s, who, t), [], true)
    else
      var (incoming, r) := inbox[0];
      match incoming
      case BadMagic => Served(Disconnected(s, who, t), [], true)
      case Malformed => Served(s, [], false)
      case Ignored => Serve(s, who, t, inbox[1..])
      case Good(m) =>
        if m.Shutdown? then Served(Disconnected(s, who, t), [], true)
        else
          var h := Handle(s, who, t, m, r);
          if h.escaped then Served(h.server, h.events, false)
          else AndThen(h.events, Serve(h.server, who, h.tracking, inbox[1..]))
  }

  class ServiceRuntime {
    const registry: ObjectRegistry
    const subscriptions: SubscriptionRegistry
    var dispatchers: set<nat>
    var streamDispatchers: set<nat>
    var methods: seq<Handshake.Descriptor>
    var localCapabilities: nat

    ghost predicate Valid()
      reads this, registry, registry.objects.Values
    {
      registry.Valid()
    }

    ghost function State(): Server
      requires Valid()
      reads this, registry, registry.objects.Values, subscriptions
    {
      Server(dispatchers, streamDispatchers, registry.State(), subscriptions.subs)
    }

    constructor ()
      ensures Valid() && State() == Server({}, {}, EMPTY, map[]) && methods == [] && localCapabilities == 0
    {
      registry := new ObjectRegistry();
      subscriptions := new SubscriptionRegistry();
      dispatchers, streamDispatchers, methods, localCapabilities := {}, {}, [], 0;
    }

    method RegisterDispatcher(service: nat)
      requires Valid()
      modifies this`dispatchers
      ensures Valid() && State() == old(State()).(unary := old(dispatchers) + {service})
    {
      dispatchers := dispatchers + {service};
    }

    method RegisterStreamDispatcher(service: nat)
      requires Valid()
      modifies this`streamDispatchers
      ensures Valid() && State() == old(State()).(streaming := old(streamDispatchers) + {service})
    {
      streamDispatchers := streamDispatchers + {service};
    }

    method RegisterMethod(service: nat, method_: nat, flags: nat)
      modifies this`methods
      ensures methods == old(methods) + [Handshake.Descriptor(service, method_, flags, 0)]
    {
      methods := methods + [Handshake.Descriptor(service, method_, flags, 0)];
    }

    method HasMethod(service: nat, method_: nat) returns (found: bool)
      ensures found <==> Handshake.Lists(methods, service, method_)
    {
      var i := 0;
      while i < |methods|
        invariant 0 <= i <= |methods|
        invariant !Handshake.Lists(methods[..i], service, method_)
      {
        if methods[i].service == service && methods[i].method_ == method_ {
          return true;
        }
        i := i + 1;
      }
      assert methods[..i] == methods;
      found := false;
    }

    /** The set capabilities plus streaming (bit 0) and objects (bit 4) when such features are registered. */
    method Capabilities() returns (caps: nat)
      ensures forall k :: Handshake.Bit(caps, k) <==>
          Handshake.Bit(localCapabilities, k) || (k == 0 && streamDispatchers != {}) || (k == 4 && registry.factories != {})
    {
      caps := localCapabilities;
      if streamDispatchers != {} {
        Handshake.SetBitSets(caps, 0);
        caps := Handshake.SetBit(caps, 0);
      }
      if registry.factories != {} {
        Handshake.SetBitSets(caps, 4);
        caps := Handshake.SetBit(caps, 4);
      }
    }

    method HandleMessage(who: nat, m: ToServer, r: Reaction, t: Tracking, sink: Sink) returns (t': Tracking, escaped: bool)
      requires Valid() && IdsLeft(registry.State()) && registry.nextId !in registry.objects
      modifies registry, registry.objects.Values, subscriptions, sink
      ensures Valid() && fresh(registry.objects.Values - old(registry.objects.Values))
      ensures var h := Handle(old(State()), who, t, m, r);
              State() == h.server && t' == h.tracking && sink.events == old(sink.events) + h.events && escaped == h.escaped
    {
      t', escaped := t, false;
      match m {
        case Subscribe(_, o, p) =>
          t' := t.(keys := t.keys + {Key(o, p)});
          subscriptions.Subscribe(who, Key(o, p));
          registry.Link(o);
        case Unsubscribe(_, o, p) =>
          t' := t.(keys := t.keys - {Key(o, p)});
          subscriptions.Unsubscribe(who, Key(o, p));
        case Release(_, o) =>
          registry.Release(o);
          t' := t.(objects := t.objects - {o});
        case Ask(q, request) => t', escaped := Reply(q, request, r, t, sink);
        case _ =>
      }
    }

    method Reply(q: nat, request: Request, r: Reaction, t: Tracking, sink: Sink) returns (t': Tracking, escaped: bool)
      requires Valid() && IdsLeft(registry.State()) && registry.nextId !in registry.objects
      modifies registry, sink
      ensures Valid() && fresh(registry.objects.Values - old(registry.objects.Values))
      ensures var h := HandleRequest(old(State()), t, q, request, r);
              State() == h.server && t' == h.tracking && sink.events == old(sink.events) + h.events && escaped == h.escaped
    {
      hide ObjectRef, PushesOf, StreamEvents, StreamEscapes;
      t', escaped := t, false;
      match request {
        case Call(service, _, _) =>
          if service in streamDispatchers {
            escaped := ServeStream(sink, Links(), q, r);
          } else if service !in dispatchers {
            sink.Send(Emit(Error(q, UNKNOWN_SERVICE, [])));
          } else {
            escaped := Dispatch(sink, q, r, UNKNOWN_METHOD);
          }
        case Create(typeId, _, _) => t', escaped := CreateObject(q, typeId, r, t, sink);
        case PropGet(_, o, _) => escaped := OnObject(sink, q, o, r, PROPERTY_ERROR);
        case PropSet(_, o, _, _) => escaped := OnObject(sink, q, o, r, PROPERTY_ERROR);
        case ObjectCall(_, o, _, _) => escaped := OnObject(sink, q, o, r, UNKNOWN_METHOD);
      }
    }

    method CreateObject(q: nat, typeId: nat, r: Reaction, t: Tracking, sink: Sink) returns (t': Tracking, escaped: bool)
      requires Valid() && IdsLeft(registry.State()) && registry.nextId !in registry.objects
      modifies registry, sink
      ensures Valid() && fresh(registry.objects.Values - old(registry.objects.Values))
      ensures forall c, args :: var h := HandleRequest(old(State()), t, q, Create(typeId, c, args), r);
              State() == h.server && t' == h.tracking && sink.events == old(sink.events) + h.events && escaped == h.escaped
    {
      hide ObjectRef, PushesOf;
      t', escaped := t, false;
      ghost var start := sink.events;
      var known := typeId in registry.factories;
      if known {
        RunPushes(sink, r.actions);
      }
      ghost var pushes := if known then PushesOf(LinksOf(registry.State()), r.actions) else [];
      assert sink.events == start + pushes;
      var text := if known && r.ending.Threw? then r.ending.text else [];
      var id := registry.CreateObject(typeId, r.made && r.ending.Returned?);
      if id.Some? {
        t' := t.(objects := t.objects + {id.value});
        sink.Send(Emit(Result(q, ObjectRef(typeId, id.value))));
        Assoc(start, pushes, [Emit(Result(q, ObjectRef(typeId, id.value)))]);
      } else {
        escaped := SendError(sink, q, OBJECT_CREATION_FAILED, text);
        Assoc(start, pushes, ErrorEvents(q, OBJECT_CREATION_FAILED, text));
      }
    }

    method OnObject(sink: Sink, q: nat, o: int, r: Reaction, code: nat) returns (escaped: bool)
      requires Valid()
      modifies sink
      ensures Valid() && State() == old(State())
      ensures forall t :: var h := HandleOnObject(old(State()), t, q, o, r, code);
              sink.events == old(sink.events) + h.events && escaped == h.escaped
    {
      var obj := registry.Get(o);
      if obj == null {
        sink.Send(Emit(Error(q, OBJECT_NOT_FOUND, [])));
        escaped := false;
      } else {
        escaped := Dispatch(sink, q, r, code);
      }
    }

    /** create_error_message and send; true when building the message throws. */
    method SendError(sink: Sink, q: nat, code: nat, text: bytes) returns (escaped: bool)
      modifies sink
      ensures sink.events == old(sink.events) + ErrorEvents(q, code, text) && escaped == (|text| > MAX_TEXT)
    {
      escaped := |text| > MAX_TEXT;
      if !escaped {
        sink.Send(Emit(Error(q, code, text)));
      }
    }

    function Links(): Links
      requires Valid()
      reads this, registry, registry.objects.Values
      ensures Links() == LinksOf(registry.State())
    {
      map id | id in registry.objects && registry.objects[id].linked :: registry.objects[id].typeId
    }

    /** User code runs, then its result or its exception becomes the reply. */
    method Dispatch(sink: Sink, q: nat, r: Reaction, code: nat) returns (escaped: bool)
      requires Valid()
      modifies sink
      ensures Valid() && State() == old(State()) && escaped == TooLong(r)
      ensures sink.events == old(sink.events) + (PushesOf(LinksOf(registry.State()), r.actions) + Answer(q, r, code))
    {
      hide PushesOf;
      ghost var start := sink.events;
      RunPushes(sink, r.actions);
      Assoc(start, PushesOf(LinksOf(registry.State()), r.actions), Answer(q, r, code));
      escaped := false;
      match r.ending {
        case Returned => sink.Send(Emit(Result(q, r.response)));
        case Threw(text) => escaped := SendError(sink, q, code, text);
      }
    }

    /** Object::notify_property for each notification user code raises: unlinked objects stay silent. */
    method RunPushes(sink: Sink, actions: seq<Action>)
      requires Valid()
      modifies sink
      ensures Valid() && State() == old(State())
      ensures sink.events == old(sink.events) + PushesOf(LinksOf(registry.State()), actions)
    {
      var links := Links();
      var i := 0;
      assert actions[0..] == actions;
      while i < |actions|
        invariant 0 <= i <= |actions| && Valid() && State() == old(State())
        invariant sink.events + PushesOf(links, actions[i..]) == old(sink.events) + PushesOf(links, actions)
      {
        assert actions[i..][1..] == actions[i + 1..];
        Assoc(sink.events, Pushes(links, actions[i]), PushesOf(links, actions[i + 1..]));
        if actions[i].Push? && actions[i].object_ in links {
          sink.Send(PushTo(links[actions[i].object_], Key(actions[i].object_, actions[i].property), actions[i].value));
        }
        i := i + 1;
      }
    }

    /** One connection from its first message to its end; false when an exception ended it. */
    method ClientLoop(who: nat, inbox: seq<(Incoming<ToServer>, Reaction)>, sink: Sink) returns (clean: bool)
      requires Valid() && Sound(registry.State()) && registry.nextId - |inbox| >= I32_MIN
      modifies registry, registry.objects.Values, subscriptions, sink
      ensures Valid()
      ensures var served := Serve(old(State()), who, Tracking({}, {}), inbox);
              State() == served.server && sink.events == old(sink.events) + served.events && clean == served.clean
    {
      var t := Tracking({}, {});
      ghost var served := Serve(State(), who, t, inbox);
      ghost var start := sink.events;
      var i := 0;
      clean := true;
      assert inbox[0..] == inbox;
      while true
        invariant 0 <= i <= |inbox| && Valid() && clean
        invariant fresh(registry.objects.Values - old(registry.objects.Values))
        invariant Sound(registry.State()) && registry.nextId - (|inbox| - i) >= I32_MIN
        invariant var rest := Serve(State(), who, t, inbox[i..]);
                  && rest.server == served.server && rest.clean == served.clean
                  && sink.events + rest.events == start + served.events
        decreases |inbox| - i
      {
        if i == |inbox| {
          break;
        }
        assert inbox[i..][1..] == inbox[i + 1..];
        var (incoming, r) := inbox[i];
        i := i + 1;
        match incoming {
          case BadMagic => break;
          case Malformed => return false;
          case Ignored => continue;
          case Good(m) =>
            if m.Shutdown? {
              break;
            }
            ghost var h := Handle(State(), who, t, m, r);
            HandleKeepsSound(State(), who, t, m, r);
            ghost var rest := Serve(h.server, who, h.tracking, inbox[i..]);
            Assoc(sink.events, h.events, rest.events);
            assert registry.nextId !in registry.State().objects;
            var escaped;
            t, escaped := HandleMessage(who, m, r, t, sink);
            if escaped {
              return false;
            }
        }
      }
      registry.ReleaseTracked(t.objects);
      subscriptions.UnsubscribeAll(who);
    }
  }

  /** No message makes the registry unsound, and none creates more than one object. */
  lemma HandleKeepsSound(s: Server, who: nat, t: Tracking, m: ToServer, r: Reaction)
    requires IdsLeft(s.registry) && Sound(s.registry)
    ensures Sound(Handle(s, who, t, m, r).server.registry)
    ensures s.registry.nextId - 1 <= Handle(s, who, t, m, r).server.registry.nextId <= s.registry.nextId
  {
    if m.Ask? && m.request.Create? {
      CreateIsFresh(s.registry, m.request.typeId, r.made && r.ending.Returned?);
    }
  }
}
