/** How a connection's loop (client_loop in src/runtime.cpp) ends: what a clean exit leaves behind, and that the loop as a
    whole does what the system's single steps do. */
module Loop {
  import opened Bytes
  import opened Sets
  import opened Limits
  import opened Wire
  import opened Streams
  import opened Objects
  import opened Subscriptions
  import opened Service
  import opened Client
  import opened Connection
  import opened Session
  import Watching
  import Lifecycle

  type Inbox = seq<(Incoming<ToServer>, Reaction)>

  // ---------------------------------------------------------------- what is left behind

  /** Every live object was there before, or is one that only this connection holds. */
  predicate OnlyMine(r: Registry, before: set<int>, mine: set<int>) {
    forall id :: id in r.objects && id !in before ==> id in mine && r.objects[id].refs == 1
  }

  lemma HandledMine(s: Server, who: nat, t: Tracking, m: ToServer, r: Reaction, before: set<int>)
    requires IdsLeft(s.registry) && Sound(s.registry) && OnlyMine(s.registry, before, t.objects)
    ensures var h := Handle(s, who, t, m, r); OnlyMine(h.server.registry, before, h.tracking.objects)
  {
    hide Handle;
    if Handle(s, who, t, m, r).server.registry.nextId == s.registry.nextId {
      Lifecycle.HandleDrops(s, who, t, m, r);
    } else {
      Lifecycle.HandleCreates(s, who, t, m, r);
    }
  }

  lemma ExitCleansUp(s: Server, who: nat, t: Tracking, before: set<int>)
    requires Sound(s.registry) && Tidy(s.subs) && OnlyMine(s.registry, before, t.objects)
    ensures var after := Disconnected(s, who, t);
            && after.registry.objects.Keys <= before && Keys(after.subs, who) == {}
            && forall w :: w != who ==> Keys(after.subs, w) == Keys(s.subs, w)
  {
    forall w, key: Key { Watching.KeysAfter(s.subs, who, key, w); }
    var left := Disconnected(s, who, t).registry.objects;
    forall id | id in left
      ensures id in before
    {
      assert id in s.registry.objects && !(id in t.objects && s.registry.objects[id].refs == 1);
    }
  }

  /** However a loop ends, it changes no other connection's subscriptions; if it ends by one of its return paths, its own
      are all gone, and so is every object that came to be meanwhile. */
  lemma {:induction false} LoopCleansUp(s: Server, who: nat, t: Tracking, inbox: Inbox, before: set<int>)
    requires IdsLeft(s.registry) && s.registry.nextId - |inbox| >= I32_MIN && Sound(s.registry) && Tidy(s.subs)
    requires OnlyMine(s.registry, before, t.objects)
    ensures var end := Service.Serve(s, who, t, inbox);
            && (forall w :: w != who ==> Keys(end.server.subs, w) == Keys(s.subs, w))
            && (end.clean ==> Keys(end.server.subs, who) == {} && end.server.registry.objects.Keys <= before)
    decreases |inbox|
  {
    hide Handle, Keys, Tidy, OnlyMine, Disconnected;
    ExitCleansUp(s, who, t, before);
    if inbox != [] {
      var (incoming, r) := inbox[0];
      if incoming.Ignored? {
        LoopCleansUp(s, who, t, inbox[1..], before);
      } else if incoming.Good? && !incoming.m.Shutdown? {
        var h := Handle(s, who, t, incoming.m, r);
        HandleKeepsSound(s, who, t, incoming.m, r);
        Watching.HandleSubs(s, who, t, incoming.m, r);
        HandledMine(s, who, t, incoming.m, r, before);
        LoopCleansUp(h.server, who, h.tracking, inbox[1..], before);
      }
    }
  }

  /** So a connection that starts with nothing and whose loop ends cleanly leaves no subscription and no object behind. */
  lemma CleanLoopLeavesNothing(s: Server, who: nat, inbox: Inbox)
    requires IdsLeft(s.registry) && s.registry.nextId - |inbox| >= I32_MIN && Sound(s.registry) && Tidy(s.subs)
    ensures var end := Service.Serve(s, who, Tracking({}, {}), inbox);
            && (forall w :: w != who ==> Keys(end.server.subs, w) == Keys(s.subs, w))
            && (end.clean ==> Keys(end.server.subs, who) == {}
                              && forall id :: id in end.server.registry.objects ==> id in s.registry.objects)
  {
    hide Service.Serve, Keys, Tidy;
    LoopCleansUp(s, who, Tracking({}, {}), inbox, s.registry.objects.Keys);
  }

  // ---------------------------------------------------------------- the loop is a run

  /** The messages that a connection's client has sent. */
  function MessagesOf(inbox: Inbox): seq<ToServer> {
    if inbox == [] then [] else (if inbox[0].0.Good? then [inbox[0].0.m] else []) + MessagesOf(inbox[1..])
  }

  /** The steps that the loop takes: one for each message, and the end. */
  function StepsOf(c: nat, inbox: Inbox): seq<Step> {
    if inbox == [] then [Leave(c)]
    else match inbox[0].0
      case BadMagic => [Leave(c)]
      case Malformed => [Escape(c)]
      case Ignored => StepsOf(c, inbox[1..])
      case Good(m) => if m.Shutdown? then [Leave(c)] else [Step.Serve(c, inbox[0].1)] + StepsOf(c, inbox[1..])
  }

  lemma {:induction false} RunSplits(s: System, a: seq<Step>, b: seq<Step>)
    ensures Run(s, a + b) == Run(Run(s, a), b)
    decreases |b|
  {
    hide Apply;
    if b == [] {
      assert a + b == a;
    } else {
      var n := |b| - 1;
      RunSplits(s, a, b[..n]);
      assert (a + b)[..|a + b| - 1] == a + b[..n];
    }
  }

  lemma OneStep(s: System, step: Step)
    ensures Run(s, [step]) == Apply(s, step)
  {
    hide Apply;
    assert [step][..0] == [] && Run(s, []) == s;
  }

  lemma {:induction false} ClosedIsOver(s: System, c: nat, inbox: Inbox)
    requires c in s.conns && !s.conns[c].open
    ensures Run(s, StepsOf(c, inbox)) == s
  {
    hide Local, ServeOldest, OpenAddrs;
    if inbox == [] {
      OneStep(s, Leave(c));
    } else {
      match inbox[0].0
      case BadMagic => OneStep(s, Leave(c));
      case Malformed => OneStep(s, Escape(c));
      case Ignored => ClosedIsOver(s, c, inbox[1..]);
      case Good(m) =>
        if m.Shutdown? {
          OneStep(s, Leave(c));
        } else {
          OneStep(s, Step.Serve(c, inbox[0].1));
          ClosedIsOver(s, c, inbox[1..]);
          RunSplits(s, [Step.Serve(c, inbox[0].1)], StepsOf(c, inbox[1..]));
        }
    }
  }

  /** What handling one message leaves of its connection. */
  lemma ServeEffect(s: System, c: nat, r: Reaction)
    requires Enabled(s, Step.Serve(c, r)) && !s.conns[c].escaped
    ensures var conn := s.conns[c]; var h := Handle(s.server, conn.addr, conn.tracking, conn.up[0], r);
            var next := ServeOldest(s, c, r);
            && next.server == h.server && c in next.conns
            && var mine := next.conns[c];
               && mine.addr == conn.addr && mine.tracking == h.tracking && mine.up == conn.up[1..]
               && mine.open == !h.escaped && mine.escaped == h.escaped
  {
    hide Handle, Delivery, Record, Settled, Gone, SendableUp, Notices, Spread;
  }

  lemma EndEffect(s: System, c: nat)
    requires c in s.conns && s.conns[c].open && !s.conns[c].escaped
    ensures var left := Apply(s, Leave(c));
            && left.server == Disconnected(s.server, s.conns[c].addr, s.conns[c].tracking)
            && c in left.conns && !left.conns[c].open && !left.conns[c].escaped
    ensures var gone := Apply(s, Escape(c)); gone.server == s.server && c in gone.conns && !gone.conns[c].open && gone.conns[c].escaped
  {
    hide Disconnected, Gone;
  }

  /** The loop of a connection, over whatever arrives on it, leaves the service as the steps of a run do that serve its
      messages one by one and then let it leave or, exactly when the loop ends by an exception, escape. */
  lemma {:induction false} LoopIsRun(s: System, c: nat, inbox: Inbox)
    requires c in s.conns && s.conns[c].open && !s.conns[c].escaped && s.conns[c].up == MessagesOf(inbox)
    requires forall k :: 0 <= k < |MessagesOf(inbox)| ==> SendableUp(MessagesOf(inbox)[k])
    requires var reg := s.server.registry; IdsLeft(reg) && reg.nextId - |inbox| >= I32_MIN && Sound(reg)
    ensures var conn := s.conns[c]; var end := Service.Serve(s.server, conn.addr, conn.tracking, inbox);
            var after := Run(s, StepsOf(c, inbox));
            after.server == end.server && c in after.conns && !after.conns[c].open && (end.clean <==> !after.conns[c].escaped)
    decreases |inbox|
  {
    hide Handle, Apply, Run, SendableUp, Disconnected, ServeOldest;
    var conn := s.conns[c];
    EndEffect(s, c);
    OneStep(s, Leave(c));
    OneStep(s, Escape(c));
    if inbox != [] {
      var (incoming, r) := inbox[0];
      if incoming.Ignored? {
        assert MessagesOf(inbox) == MessagesOf(inbox[1..]);
        LoopIsRun(s, c, inbox[1..]);
      } else if incoming.Good? && !incoming.m.Shutdown? {
        assert conn.up[0] == incoming.m && conn.up[1..] == MessagesOf(inbox[1..]);
        ServingStep(s, c, inbox);
      }
    }
  }

  lemma {:induction false} ServingStep(s: System, c: nat, inbox: Inbox)
    requires c in s.conns && s.conns[c].open && !s.conns[c].escaped && s.conns[c].up == MessagesOf(inbox)
    requires forall k :: 0 <= k < |MessagesOf(inbox)| ==> SendableUp(MessagesOf(inbox)[k])
    requires var reg := s.server.registry; IdsLeft(reg) && reg.nextId - |inbox| >= I32_MIN && Sound(reg)
    requires inbox != [] && inbox[0].0.Good? && !inbox[0].0.m.Shutdown?
    ensures var conn := s.conns[c]; var end := Service.Serve(s.server, conn.addr, conn.tracking, inbox);
            var after := Run(s, StepsOf(c, inbox));
            after.server == end.server && c in after.conns && !after.conns[c].open && (end.clean <==> !after.conns[c].escaped)
    decreases |inbox|, 0
  {
    hide Handle, Apply, Run, SendableUp, Disconnected, ServeOldest;
    var conn, r, rest := s.conns[c], inbox[0].1, inbox[1..];
    var h := Handle(s.server, conn.addr, conn.tracking, inbox[0].0.m, r);
    var ms := MessagesOf(inbox);
    assert ms[0] == inbox[0].0.m && ms[1..] == MessagesOf(rest);
    assert Enabled(s, Step.Serve(c, r));
    var next := ServeOldest(s, c, r);
    assert Apply(s, Step.Serve(c, r)) == next by { ServeApplies(s, c, r); }
    ServeEffect(s, c, r);
    HandleKeepsSound(s.server, conn.addr, conn.tracking, inbox[0].0.m, r);
    OneStep(s, Step.Serve(c, r));
    RunSplits(s, [Step.Serve(c, r)], StepsOf(c, rest));
    if h.escaped {
      ClosedIsOver(next, c, rest);
    } else {
      forall k | 0 <= k < |MessagesOf(rest)|
        ensures SendableUp(MessagesOf(rest)[k])
      {
        assert ms[k + 1] == MessagesOf(rest)[k];
      }
      LoopIsRun(next, c, rest);
    }
  }

  lemma ServeApplies(s: System, c: nat, r: Reaction)
    requires Enabled(s, Step.Serve(c, r))
    ensures Apply(s, Step.Serve(c, r)) == ServeOldest(s, c, r)
  {
    hide ServeOldest, SendableUp;
  }
}
