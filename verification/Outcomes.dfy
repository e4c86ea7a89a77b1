/** What the two ends of the system make of each other: which notifications user code's pushes put on which channel, what a
    blocking request brings its caller, and which callbacks run. */
module Outcomes {
  import opened Bytes
  import opened Sets
  import Framing
  import opened Limits
  import opened Wire
  import opened Streams
  import opened Objects
  import opened Subscriptions
  import opened Service
  import opened Client
  import opened Connection
  import opened Session
  import Watching
  import Lifecycle
  import Loop

  // ---------------------------------------------------------------- pushes

  /** The notifications that a transport watching `watched` is sent for some actions: for each push of a live, linked
      object's watched property, its type, object, property and value. */
  function Raised(objects: map<int, Info>, watched: set<Key>, actions: seq<Action>): seq<ToClient> {
    if actions == [] then []
    else
      var rest := Raised(objects, watched, actions[1..]);
      match actions[0]
      case Push(o, p, v) =>
        if o in objects && objects[o].linked && Key(o, p) in watched then [Notify(objects[o].typeId, o, p, v)] + rest else rest
      case _ => rest
  }

  /** A dispatcher gets no further than its first write to a stream that has ended. */
  function Performed(actions: seq<Action>, ended: bool): seq<Action> {
    if actions == [] || (actions[0].Write? && ended) then []
    else [actions[0]] + Performed(actions[1..], ended || actions[0].End? || actions[0].Abort?)
  }

  /** What user code does for a request: nothing when nobody is there to serve it. */
  function ActionsOf(s: Server, request: Wire.Request, r: Reaction): seq<Action> {
    match request
    case Call(service, _, _) =>
      if service in s.streaming then Performed(r.actions, false) else if service in s.unary then r.actions else []
    case Create(typeId, _, _) => if typeId in s.registry.factories then r.actions else []
    case PropGet(_, o, _) => if o in s.registry.objects then r.actions else []
    case PropSet(_, o, _, _) => if o in s.registry.objects then r.actions else []
    case ObjectCall(_, o, _, _) => if o in s.registry.objects then r.actions else []
  }

  lemma {:induction false} DeliveryConcat(a: seq<Event>, b: seq<Event>, addr: nat, self: bool, subs: Subs)
    ensures Delivery(a + b, addr, self, subs) == Delivery(a, addr, self, subs) + Delivery(b, addr, self, subs)
  {
    hide Share;
    if a == [] {
      assert a + b == b;
    } else {
      DeliveryConcat(a[1..], b, addr, self, subs);
      assert (a + b)[1..] == a[1..] + b;
      Assoc(Share(a[0], addr, self, subs), Delivery(a[1..], addr, self, subs), Delivery(b, addr, self, subs));
    }
  }

  lemma ShareOfPush(t: nat, key: Key, v: bytes, addr: nat, self: bool, subs: Subs)
    requires Tidy(subs)
    ensures Share(PushTo(t, key, v), addr, self, subs) ==
            if key in Keys(subs, addr) then [Notify(t, key.object_, key.property, v)] else []
  {
    Watching.KeysAreSubscriptions(subs, addr, key);
    Watching.CountOnce(Targets(subs, key), addr);
  }

  /** A channel other than the asking one gets nothing but what the pushes send it. */
  lemma PushDelivered(reg: Registry, a: Action, addr: nat, subs: Subs)
    requires Tidy(subs)
    ensures Delivery(Pushes(LinksOf(reg), a), addr, false, subs) == Raised(reg.objects, Keys(subs, addr), [a])
  {
    hide Share;
    assert [a][1..] == [] && Raised(reg.objects, Keys(subs, addr), []) == [];
    var e := Pushes(LinksOf(reg), a);
    if e != [] {
      assert e[1..] == [] && Delivery([], addr, false, subs) == [];
      ShareOfPush(e[0].typeId, e[0].key, e[0].value, addr, false, subs);
    }
  }

  lemma RaisedStep(objects: map<int, Info>, watched: set<Key>, actions: seq<Action>)
    requires actions != []
    ensures Raised(objects, watched, actions) == Raised(objects, watched, [actions[0]]) + Raised(objects, watched, actions[1..])
  {
    assert [actions[0]][1..] == [] && Raised(objects, watched, []) == [];
  }

  lemma {:induction false} PushesDelivered(reg: Registry, actions: seq<Action>, addr: nat, subs: Subs)
    requires Tidy(subs)
    ensures Delivery(PushesOf(LinksOf(reg), actions), addr, false, subs) == Raised(reg.objects, Keys(subs, addr), actions)
  {
    if actions != [] {
      hide Raised, Delivery, Pushes, LinksOf, Keys;
      var links := LinksOf(reg);
      PushesDelivered(reg, actions[1..], addr, subs);
      PushDelivered(reg, actions[0], addr, subs);
      DeliveryConcat(Pushes(links, actions[0]), PushesOf(links, actions[1..]), addr, false, subs);
      RaisedStep(reg.objects, Keys(subs, addr), actions);
    } else {
      assert Delivery([], addr, false, subs) == [];
    }
  }

  /** Replies are for the asking connection. */
  lemma EmitNotDelivered(m: ToClient, addr: nat, subs: Subs)
    ensures Delivery([Emit(m)], addr, false, subs) == [] && Delivery([], addr, false, subs) == []
  {
    assert [Emit(m)][1..] == [];
  }

  lemma {:induction false} BodyDelivered(reg: Registry, q: nat, actions: seq<Action>, ended: bool, addr: nat, subs: Subs)
    requires Tidy(subs)
    ensures Delivery(RunBody(LinksOf(reg), q, actions, ended).events, addr, false, subs) ==
            Raised(reg.objects, Keys(subs, addr), Performed(actions, ended))
  {
    hide Raised, Delivery, Pushes, LinksOf, Keys;
    var links, watched := LinksOf(reg), Keys(subs, addr);
    assert Delivery([], addr, false, subs) == [] && Raised(reg.objects, watched, []) == [] by {
      NothingRaised(reg.objects, watched, addr, subs);
    }
    if actions != [] && !(actions[0].Write? && ended) {
      var a, rest, now := actions[0], actions[1..], ended || actions[0].End? || actions[0].Abort?;
      var later := RunBody(links, q, rest, now).events;
      var performed := Performed(actions, ended);
      assert performed[0] == a && performed[1..] == Performed(rest, now);
      BodyDelivered(reg, q, rest, now, addr, subs);
      RaisedStep(reg.objects, watched, performed);
      PushDelivered(reg, a, addr, subs);
      var first := FirstEvents(links, q, a, ended);
      assert RunBody(links, q, actions, ended).events == first + later by { BodyStep(links, q, actions, ended); }
      DeliveryConcat(first, later, addr, false, subs);
      if a.Write? || a.End? {
        NoPush(links, a);
        EmitNotDelivered(if a.Write? then Stream(q, a.chunk) else StreamEnd(q), addr, subs);
      }
    }
  }

  lemma NothingRaised(objects: map<int, Info>, watched: set<Key>, addr: nat, subs: Subs)
    ensures Delivery([], addr, false, subs) == [] && Raised(objects, watched, []) == []
  {
  }

  lemma NoPush(links: Links, a: Action)
    requires !a.Push?
    ensures Pushes(links, a) == []
  {
  }

  function FirstEvents(links: Links, q: nat, a: Action, ended: bool): seq<Event> {
    match a
    case Write(chunk) => [Emit(Stream(q, chunk))]
    case End => if ended then [] else [Emit(StreamEnd(q))]
    case Abort => Pushes(links, a)
    case Push(_, _, _) => Pushes(links, a)
  }

  lemma BodyStep(links: Links, q: nat, actions: seq<Action>, ended: bool)
    requires actions != [] && !(actions[0].Write? && ended)
    ensures RunBody(links, q, actions, ended).events ==
            FirstEvents(links, q, actions[0], ended) +
            RunBody(links, q, actions[1..], ended || actions[0].End? || actions[0].Abort?).events
  {
    var later := RunBody(links, q, actions[1..], ended || actions[0].End? || actions[0].Abort?).events;
    assert [] + later == later;
  }

  /** Whatever kind of request user code serves, any other channel gets exactly what its pushes raise there. */
  lemma RequestDelivered(s: Server, t: Tracking, q: nat, request: Wire.Request, r: Reaction, addr: nat)
    requires IdsLeft(s.registry) && Tidy(s.subs)
    ensures Delivery(HandleRequest(s, t, q, request, r).events, addr, false, s.subs) ==
            Raised(s.registry.objects, Keys(s.subs, addr), ActionsOf(s, request, r))
  {
    hide Delivery, PushesOf, RunBody, ObjectRef, Raised, Keys, Performed, LinksOf;
    var reg, links := s.registry, LinksOf(s.registry);
    var events, actions := HandleRequest(s, t, q, request, r).events, ActionsOf(s, request, r);
    NothingRaised(reg.objects, Keys(s.subs, addr), addr, s.subs);
    if IsStreaming(s, request) {
      var body := RunBody(links, q, r.actions, false);
      var closing := Closing(q, body.ended, if body.threw then Threw(WRITE_AFTER_END) else r.ending);
      BodyDelivered(reg, q, r.actions, false, addr, s.subs);
      DeliveryConcat(body.events, closing, addr, false, s.subs);
      if closing != [] {
        EmitNotDelivered(closing[0].m, addr, s.subs);
      }
    } else {
      var last := LastEvents(s, t, q, request, r);
      PushesDelivered(reg, actions, addr, s.subs);
      PushesDelivered(reg, [], addr, s.subs);
      DeliveryConcat(PushesOf(links, actions), last, addr, false, s.subs);
      if last != [] {
        assert last == [Emit(last[0].m)];
        EmitNotDelivered(last[0].m, addr, s.subs);
      }
      var raised := Raised(reg.objects, Keys(s.subs, addr), actions);
      assert raised + [] == raised;
    }
  }

  /** A request that does not stream: pushes, and then at most one message to the asker. */
  lemma LastEvents(s: Server, t: Tracking, q: nat, request: Wire.Request, r: Reaction) returns (last: seq<Event>)
    requires IdsLeft(s.registry) && !IsStreaming(s, request)
    ensures HandleRequest(s, t, q, request, r).events == PushesOf(LinksOf(s.registry), ActionsOf(s, request, r)) + last
    ensures last == [] || (|last| == 1 && last[0].Emit?)
  {
    hide ObjectRef;
    var pushes := PushesOf(LinksOf(s.registry), ActionsOf(s, request, r));
    var events := HandleRequest(s, t, q, request, r).events;
    assert PushesOf(LinksOf(s.registry), []) == [];
    last := events[|pushes|..];
    assert pushes == events[..|pushes|];
  }

  /** In every run: when a request is served, the channel of every other open connection grows by exactly the
      notifications that user code's pushes raise for what that connection watches or inherited, in order. */
  lemma PushesReachWatchers(s: System, steps: seq<Step>, c: nat, r: Reaction, k: nat)
    requires Started(s)
    requires var now := Run(s, steps);
             Enabled(now, Step.Serve(c, r)) && now.conns[c].up[0].Ask? && k != c && k in now.conns && now.conns[k].open
    ensures var now := Run(s, steps); var next, conn := ServeOldest(now, c, r), now.conns[k];
            var raised := Raised(now.server.registry.objects, conn.tracking.keys + LeftAt(now.left, conn.addr),
                                 ActionsOf(now.server, now.conns[c].up[0].request, r));
            k in next.conns && next.conns[k].down == conn.down + raised && next.conns[k].pushed == conn.pushed + raised
  {
    hide Run, Raised, ActionsOf, HandleRequest, Delivery, ServeOldest;
    Watching.RunKeepsWatches(s, steps);
    var now := Run(s, steps);
    Watching.ReadWatchInv(now.conns, now.server.subs, now.left, k);
    var asker, conn := now.conns[c], now.conns[k];
    var m := asker.up[0];
    RequestDelivered(now.server, asker.tracking, m.seqId, m.request, r, conn.addr);
    OnlyNotices(now, c, r, k);
    OtherDelivered(now, c, r, k);
  }

  lemma OnlyNotices(s: System, c: nat, r: Reaction, k: nat)
    requires Enabled(s, Step.Serve(c, r)) && s.conns[c].up[0].Ask? && k in s.conns
    ensures var conn, m := s.conns[c], s.conns[c].up[0];
            var ms := Delivery(HandleRequest(s.server, conn.tracking, m.seqId, m.request, r).events, s.conns[k].addr, false, s.server.subs);
            Notices(ms) == ms
  {
    hide HandleRequest;
    var conn, m := s.conns[c], s.conns[c].up[0];
    var events := HandleRequest(s.server, conn.tracking, m.seqId, m.request, r).events;
    DeliveryIsNotices(events, s.conns[k].addr, s.server.subs);
  }

  lemma {:induction false} DeliveryIsNotices(events: seq<Event>, addr: nat, subs: Subs)
    ensures Notices(Delivery(events, addr, false, subs)) == Delivery(events, addr, false, subs)
  {
    if events != [] {
      hide Replies;
      var first, rest := Share(events[0], addr, false, subs), Delivery(events[1..], addr, false, subs);
      DeliveryIsNotices(events[1..], addr, subs);
      assert forall i :: 0 <= i < |first| ==> first[i].Notify?;
      AllNotices(first);
      NoticesConcat(first, rest);
    }
  }

  lemma OtherDelivered(s: System, c: nat, r: Reaction, k: nat)
    requires Enabled(s, Step.Serve(c, r)) && s.conns[c].up[0].Ask? && k != c && k in s.conns && s.conns[k].open
    ensures var next, asker, m := ServeOldest(s, c, r), s.conns[c], s.conns[c].up[0];
            var ms := Delivery(HandleRequest(s.server, asker.tracking, m.seqId, m.request, r).events, s.conns[k].addr, false, s.server.subs);
            && k in next.conns && next.conns[k].down == s.conns[k].down + ms
            && next.conns[k].pushed == s.conns[k].pushed + Notices(ms)
  {
    hide HandleRequest, Delivery, Record, Settled, Gone, SendableUp, Notices;
  }

  // ---------------------------------------------------------------- subscribed objects

  /** Nothing unlinks an object while it lives. */
  lemma StaysLinked(s: System, step: Step, o: int)
    requires Lifecycle.LifeInv(s)
    requires o in s.server.registry.objects && s.server.registry.objects[o].linked && o in Apply(s, step).server.registry.objects
    ensures Apply(s, step).server.registry.objects[o].linked
    ensures Apply(s, step).server.registry.objects[o].typeId == s.server.registry.objects[o].typeId
  {
    hide Local, Spread, SendableUp, OpenAddrs, ServeOldest, Gone, LeftAt, Lifecycle.LifeInv, UnsubscribedAll;
    if Enabled(s, step) && step.Serve? {
      ServedStaysLinked(s, step.c, step.reaction, o);
    }
  }

  lemma ServedStaysLinked(s: System, c: nat, r: Reaction, o: int)
    requires Lifecycle.LifeInv(s) && Enabled(s, Step.Serve(c, r))
    requires o in s.server.registry.objects && s.server.registry.objects[o].linked && o in ServeOldest(s, c, r).server.registry.objects
    ensures ServeOldest(s, c, r).server.registry.objects[o].linked
    ensures ServeOldest(s, c, r).server.registry.objects[o].typeId == s.server.registry.objects[o].typeId
  {
    hide Delivery, Spread, Serviced, Record, Gone, SendableUp, Settled, PushesOf, RunBody, ObjectRef, Answer;
  }

  lemma LiveIsKnown(s: System, o: int)
    requires Lifecycle.LifeInv(s) && o in s.server.registry.objects
    ensures o in s.creator
  {
  }

  lemma {:induction false} KnownStays(s: System, steps: seq<Step>, more: seq<Step>, o: int)
    requires Started(s) && o in Run(s, steps).creator
    ensures o in Run(Run(s, steps), more).creator
    decreases |more|
  {
    hide Apply, Lifecycle.LifeInv, Started;
    if more != [] {
      var n := |more| - 1;
      KnownStays(s, steps, more[..n], o);
      Loop.RunSplits(s, steps, more[..n]);
      Lifecycle.RunKeepsLives(s, steps + more[..n]);
      Lifecycle.DeletedGrows(Run(Run(s, steps), more[..n]), more[n], o);
    }
  }

  /** Over every run an object that is still alive is still linked: its id was not given to another one meanwhile. */
  lemma {:induction false} StaysLinkedInRuns(s: System, steps: seq<Step>, more: seq<Step>, o: int)
    requires Started(s)
    requires var objects := Run(s, steps).server.registry.objects; o in objects && objects[o].linked
    requires o in Run(Run(s, steps), more).server.registry.objects
    ensures Run(Run(s, steps), more).server.registry.objects[o].linked
    ensures Run(Run(s, steps), more).server.registry.objects[o].typeId == Run(s, steps).server.registry.objects[o].typeId
    decreases |more|
  {
    hide Apply, Lifecycle.LifeInv, Started;
    if more != [] {
      var n := |more| - 1;
      Loop.RunSplits(s, steps, more[..n]);
      var before := Run(Run(s, steps), more[..n]);
      Lifecycle.RunKeepsLives(s, steps);
      LiveIsKnown(Run(s, steps), o);
      KnownStays(s, steps, more[..n], o);
      Lifecycle.RunKeepsLives(s, steps + more[..n]);
      Lifecycle.IdsAreNeverReused(s, steps + more[..n], more[n], o);
      StaysLinkedInRuns(s, steps, more[..n], o);
      StaysLinked(before, more[n], o);
    }
  }

  /** Once a subscription to a live object has been handled, a push of that property by any later request, in any run, puts
      the notification on the subscriber's channel, as long as the object lives and the subscriber still watches it. */
  lemma SubscriberIsNotified(s: System, steps: seq<Step>, more: seq<Step>, k: nat, c: nat, none: Reaction, r: Reaction,
                             o: int, p: nat, v: bytes)
    requires Started(s)
    requires var was := Run(s, steps);
             && Enabled(was, Step.Serve(k, none)) && o in was.server.registry.objects
             && was.conns[k].up[0].Subscribe? && was.conns[k].up[0].object_ == o
    requires var now := Run(Run(s, steps + [Step.Serve(k, none)]), more);
             && Enabled(now, Step.Serve(c, r)) && now.conns[c].up[0].Ask? && k != c && k in now.conns && now.conns[k].open
             && o in now.server.registry.objects && Key(o, p) in now.conns[k].tracking.keys
             && ActionsOf(now.server, now.conns[c].up[0].request, r) == [Push(o, p, v)]
    ensures var now := Run(Run(s, steps + [Step.Serve(k, none)]), more);
            var next := ServeOldest(now, c, r);
            && k in next.conns
            && next.conns[k].down == now.conns[k].down + [Notify(Run(s, steps).server.registry.objects[o].typeId, o, p, v)]
  {
    hide Run, Apply, ServeOldest, ActionsOf, SendableUp, Started;
    var subscribing := steps + [Step.Serve(k, none)];
    SubscribedIsLinked(s, steps, k, none, o);
    StaysLinkedInRuns(s, subscribing, more, o);
    Loop.RunSplits(s, subscribing, more);
    PushesReachWatchers(s, subscribing + more, c, r, k);
    var objects := Run(Run(s, subscribing), more).server.registry.objects;
    OnePush(objects, Run(Run(s, subscribing), more), k, o, p, v);
  }

  /** A subscription ahead of its object's creation is kept but links nothing: what the object pushes reaches nobody. */
  lemma EarlySubscriptionIsSilent(s: Server, who: nat, t: Tracking, m: ToServer, none: Reaction,
                                  maker: nat, t': Tracking, q: nat, request: Wire.Request, r: Reaction, v: bytes)
    requires IdsLeft(s.registry) && Sound(s.registry) && Tidy(s.subs)
    requires m.Subscribe? && m.object_ == s.registry.nextId && Creates(s, request, r)
    ensures var subscribed := Handle(s, who, t, m, none).server;
            var server := Handle(subscribed, maker, t', Ask(q, request), r).server;
            && m.object_ in server.registry.objects && Key(m.object_, m.property) in Keys(server.subs, who)
            && forall watched :: Raised(server.registry.objects, watched, [Push(m.object_, m.property, v)]) == []
  {
    hide Answer, PushesOf, ObjectRef, StreamEvents, Escapes;
    assert [Push(m.object_, m.property, v)][1..] == [];
  }

  lemma OnePush(objects: map<int, Info>, now: System, k: nat, o: int, p: nat, v: bytes)
    requires o in objects && objects[o].linked && k in now.conns && Key(o, p) in now.conns[k].tracking.keys
    ensures Raised(objects, now.conns[k].tracking.keys + LeftAt(now.left, now.conns[k].addr), [Push(o, p, v)]) ==
            [Notify(objects[o].typeId, o, p, v)]
  {
    var watched := now.conns[k].tracking.keys + LeftAt(now.left, now.conns[k].addr);
    assert [Push(o, p, v)][1..] == [] && Raised(objects, watched, []) == [];
  }

  lemma SubscribedIsLinked(s: System, steps: seq<Step>, k: nat, none: Reaction, o: int)
    requires var was := Run(s, steps);
             && Enabled(was, Step.Serve(k, none)) && o in was.server.registry.objects
             && was.conns[k].up[0].Subscribe? && was.conns[k].up[0].object_ == o
    ensures var objects := Run(s, steps + [Step.Serve(k, none)]).server.registry.objects;
            o in objects && objects[o].linked && objects[o].typeId == Run(s, steps).server.registry.objects[o].typeId
  {
    hide Run, ServeOldest, SendableUp;
    var was := Run(s, steps);
    var m := was.conns[k].up[0];
    Loop.RunSplits(s, steps, [Step.Serve(k, none)]);
    Loop.OneStep(was, Step.Serve(k, none));
    Loop.ServeApplies(was, k, none);
    SubscribeLinks(was.server, was.conns[k].addr, was.conns[k].tracking, m.typeId, o, m.property, none);
    ServedServer(was, k, none);
  }

  lemma ServedServer(s: System, c: nat, r: Reaction)
    requires Enabled(s, Step.Serve(c, r))
    ensures ServeOldest(s, c, r).server == Handle(s.server, s.conns[c].addr, s.conns[c].tracking, s.conns[c].up[0], r).server
  {
    hide Handle, Delivery, Record, Settled, Gone, SendableUp, Serviced, Spread;
  }

  // ---------------------------------------------------------------- what a blocking request brings

  /** What the caller is to get: the response of whoever serves the request, or the service error. */
  predicate Brings(s: Server, request: Wire.Request, r: Reaction, out: Outcome) {
    if request.Call? && request.service !in s.unary then out == ServiceError(2, [])
    else if OnObject(request) && request.object_ !in s.registry.objects then out == ServiceError(300, [])
    else if request.Create? && !Creates(s, request, r) then
      out == ServiceError(301, if request.typeId in s.registry.factories && r.ending.Threw? then r.ending.text else [])
    else if request.Create? then out.Payload? && Names(out.b, request.typeId, s.registry.nextId)
    else match r.ending
      case Returned => out == Payload(r.response)
      case Threw(text) => out == ServiceError(if request.Call? || request.ObjectCall? then 3 else 302, text)
  }

  /** The one reply to a request that does not stream, and does not make the loop escape, is what the caller is to get. */
  lemma ReplyBrings(s: Server, t: Tracking, q: nat, request: Wire.Request, r: Reaction)
    requires IdsLeft(s.registry) && Sound(s.registry) && !IsStreaming(s, request) && !Escapes(s, request, r)
    requires request.Create? ==> U32(request.typeId)
    ensures var replies := Emits(HandleRequest(s, t, q, request, r).events);
            |replies| == 1 && !replies[0].Notify? && replies[0].seqId == q && Brings(s, request, r, OutcomeOf(Got(replies[0])))
  {
    hide HandleRequest, Names;
    OneAnswer(s, t, q, request, r);
    if request.Call? {
      UnaryAnswer(s, t, q, request, r);
    } else if OnObject(request) {
      ObjectRequestAnswer(s, t, q, request, r);
    } else {
      CreateNames(s, t, q, request, r);
    }
  }

  /** Serving what a waiting call asked for, on a connection with nothing left over, puts its reply in the channel. */
  lemma RepliesServed(s: System, c: nat, r: Reaction)
    requires Enabled(s, Step.Serve(c, r)) && ConnInv(s.conns[c]) && InOrder(s.conns[c]) && s.conns[c].pending.Unary?
    requires s.conns[c].up[0].Ask?
    ensures c in ServeOldest(s, c, r).conns
    ensures var d := ServeOldest(s, c, r).conns[c];
            && Replies(d.down) == Record(s, c, r).outs && d.pending == s.conns[c].pending && d.garbled == s.conns[c].garbled
  {
    hide ConnInv, InOrder, Delivery, Replies, Notices, Spread, HandleRequest, SendableUp, Settled, Gone;
    var conn := s.conns[c];
    var m := conn.up[0];
    var events := HandleRequest(s.server, conn.tracking, m.seqId, m.request, r).events;
    RepliesCarrySeq(s.server, conn.tracking, m.seqId, m.request, r);
    DeliveryReplies(events, conn.addr, true, s.server.subs);
    AnswersBefore(conn);
    NothingWaits(conn);
    RepliesConcat(conn.down, Delivery(events, conn.addr, true, s.server.subs));
    assert [] + Emits(events) == Emits(events);
  }

  lemma NothingWaits(conn: Conn)
    requires InOrder(conn) && conn.pending.Unary? && |conn.answers| == conn.pending.index
    ensures Replies(conn.down) == []
  {
  }

  /** In every run, on a connection with nothing left over and nothing queued: a blocking request of any kind that does not
      stream brings its caller exactly what whoever serves it leaves, or its service error, provided that the request and
      what is sent to the caller stay within the limits. */
  lemma RequestsBring(s: System, steps: seq<Step>, c: nat, request: Wire.Request, r: Reaction)
    requires Started(s) && c in Run(s, steps).conns && InOrder(Run(s, steps).conns[c])
    requires RequestFits(request) && RequestSize(request) <= Framing.MAX_PAYLOAD
    requires var now := Run(s, steps); var conn := now.conns[c];
             && conn.open && conn.pending.Idle? && conn.up == [] && IdsLeft(now.server.registry)
             && !IsStreaming(now.server, request) && !Escapes(now.server, request, r)
    requires AllSendable(Served(Run(s, steps), c, request, r).down)
    ensures var now := Run(s, steps); var i, d := |now.conns[c].issued|, Served(now, c, request, r);
            && d.pending == Unary(i) && Brings(now.server, request, r, OutcomeOf(Await(Readable(d.down), SeqOf(i)).wait))
            && ReceiveAll(d).pending.Idle?
  {
    hide Run, Served, ReceiveAll, Rounds, ConnInv, InOrder, Brings, Escapes, HandleRequest, AllSendable;
    RunKeepsConns(s, steps);
    Lifecycle.RunKeepsLives(s, steps);
    var now := Run(s, steps);
    assert ConnOk(now.conns[c]);
    var conn := now.conns[c];
    var i, q, d := |conn.issued|, SeqOf(|conn.issued|), Served(now, c, request, r);
    IssueKeeps(conn, request, Blocking);
    NothingYet(conn, request);
    ServedIs(now, c, request, r);
    var asked := With(now, c, Issue(conn, request, Blocking));
    RepliesServed(asked, c, r);
    ReplyBrings(now.server, conn.tracking, q, request, r);
    AllReadable(d.down);
    AwaitTakesFirstReply(d.down, q);
    InOrderIsNotGarbled(Issue(conn, request, Blocking));
    ReceiveAllIsAwait(d);
  }

  /** The connection after issuing a request that is then served. */
  function Served(s: System, c: nat, request: Wire.Request, r: Reaction): Conn
    requires c in s.conns
  {
    var next := Apply(Apply(s, Step.Request(c, request, Blocking)), Step.Serve(c, r));
    if c in next.conns then next.conns[c] else s.conns[c]
  }

  lemma ServedIs(s: System, c: nat, request: Wire.Request, r: Reaction)
    requires c in s.conns && RequestFits(request) && RequestSize(request) <= Framing.MAX_PAYLOAD
    requires var conn := s.conns[c]; conn.open && conn.pending.Idle? && conn.up == [] && IdsLeft(s.server.registry)
    ensures var asked := With(s, c, Issue(s.conns[c], request, Blocking));
            && Enabled(asked, Step.Serve(c, r)) && asked.conns[c].up[0] == Ask(SeqOf(|s.conns[c].issued|), request)
            && asked.server == s.server && asked.conns[c].tracking == s.conns[c].tracking
            && c in ServeOldest(asked, c, r).conns && Served(s, c, request, r) == ServeOldest(asked, c, r).conns[c]
  {
    hide ServeOldest;
    var asked := With(s, c, Issue(s.conns[c], request, Blocking));
    assert Apply(s, Step.Request(c, request, Blocking)) == asked;
    assert asked.conns[c].up == [Ask(SeqOf(|s.conns[c].issued|), request)];
    ServeFrame(asked, c, r);
    Loop.ServeApplies(asked, c, r);
  }

  lemma AllReadable(ms: seq<ToClient>)
    requires AllSendable(ms)
    ensures Readable(ms) == ms
  {
  }

  // ---------------------------------------------------------------- callbacks

  /** After any calm run, a callback registered for a property from the start, and for nothing else, has run once for each
      notification of that property sent so far, in order and with its value, except for those still in the channel. */
  lemma CallbackSeesEveryNotification(s: System, steps: seq<Step>, c: nat, callbacks: map<Key, nat>, o: int, p: nat, callback: nat)
    requires Started(s) && CalmRun(s, steps, c) && c in Run(s, steps).conns
    requires Key(o, p) in callbacks && OwnCallback(callbacks, Key(o, p), callback)
    ensures var conn := Run(s, steps).conns[c];
            RunsOf(Fires(callbacks, conn.dispatched), callback) + ValuesOf(conn.down, o, p) == ValuesOf(conn.pushed, o, p)
  {
    hide Run, CalmRun, InOrder;
    CalmRunsStayInOrder(s, steps, c);
    RunKeepsConns(s, steps);
    var conn := Run(s, steps).conns[c];
    assert ConnOk(conn);
    CallbackSeesItsProperty(callbacks, o, p, callback, conn.dispatched);
    ValuesAmongNotices(conn.down, o, p);
    ValuesConcat(conn.dispatched, Notices(conn.down), o, p);
  }

  lemma {:induction false} ValuesConcat(a: seq<ToClient>, b: seq<ToClient>, o: int, p: nat)
    ensures ValuesOf(a + b, o, p) == ValuesOf(a, o, p) + ValuesOf(b, o, p)
  {
    if a == [] {
      assert a + b == b;
    } else {
      ValuesConcat(a[1..], b, o, p);
      assert (a + b)[1..] == a[1..] + b;
      Assoc(ValuesOf([a[0]], o, p), ValuesOf(a[1..], o, p), ValuesOf(b, o, p));
      ValuesStep(a, o, p);
      ValuesStep(a + b, o, p);
    }
  }

  lemma ValuesStep(ms: seq<ToClient>, o: int, p: nat)
    requires ms != []
    ensures ValuesOf(ms, o, p) == ValuesOf([ms[0]], o, p) + ValuesOf(ms[1..], o, p)
  {
    assert [ms[0]][1..] == [] && ValuesOf([], o, p) == [];
  }

  lemma {:induction false} ValuesAmongNotices(ms: seq<ToClient>, o: int, p: nat)
    ensures ValuesOf(Notices(ms), o, p) == ValuesOf(ms, o, p)
  {
    if ms != [] {
      ValuesAmongNotices(ms[1..], o, p);
      NoticesStep(ms);
      ValuesStep(ms, o, p);
      ValuesConcat(Notices([ms[0]]), Notices(ms[1..]), o, p);
      if !ms[0].Notify? {
        assert [ms[0]][1..] == [] && ValuesOf([ms[0]], o, p) == [] && ValuesOf([], o, p) == [];
      }
    }
  }
}
