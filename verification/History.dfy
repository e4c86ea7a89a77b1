/** What the service keeps about a connection, told from the messages it has handled for it. */
module History {
  import opened Bytes
  import opened Sets
  import opened Limits
  import opened Wire
  import opened Streams
  import opened Objects
  import opened Subscriptions
  import opened Service
  import opened Client
  import opened Connection
  import opened Session
  import Watching
  import Outcomes

  /** The message of connection k that a step handles. */
  function HandledBy(s: System, step: Step, k: nat): Option<ToServer> {
    if step.Serve? && step.c == k && Enabled(s, step) then Some(s.conns[k].up[0]) else None
  }

  predicate Leaves(s: System, step: Step, k: nat) { step == Leave(k) && Enabled(s, step) }

  /** The last word on a property: it was subscribed to, and neither an unsubscribe nor the end of the connection followed. */
  predicate Wants(s: System, steps: seq<Step>, k: nat, o: int, p: nat)
    decreases |steps|
  {
    if steps == [] then false
    else
      var n := |steps| - 1;
      var was := Run(s, steps[..n]);
      match HandledBy(was, steps[n], k)
      case Some(Subscribe(_, o', p')) => (o' == o && p' == p) || Wants(s, steps[..n], k, o, p)
      case Some(Unsubscribe(_, o', p')) => !(o' == o && p' == p) && Wants(s, steps[..n], k, o, p)
      case _ => !Leaves(was, steps[n], k) && Wants(s, steps[..n], k, o, p)
  }

  /** What one step makes of the properties a connection watches. */
  lemma StepWatches(s: System, step: Step, k: nat, o: int, p: nat)
    requires k in s.conns
    ensures k in Apply(s, step).conns
    ensures Key(o, p) in Apply(s, step).conns[k].tracking.keys <==>
            match HandledBy(s, step, k)
            case Some(Subscribe(_, o', p')) => (o' == o && p' == p) || Key(o, p) in s.conns[k].tracking.keys
            case Some(Unsubscribe(_, o', p')) => !(o' == o && p' == p) && Key(o, p) in s.conns[k].tracking.keys
            case _ => !Leaves(s, step, k) && Key(o, p) in s.conns[k].tracking.keys
  {
    hide Local, Spread, SendableUp, OpenAddrs, ServeOldest, Handle, Delivery, Disconnected, Gone;
    if Enabled(s, step) {
      match step
      case Serve(c, r) => ServeTracking(s, c, r, k);
      case Raise(t, key, v) => SpreadTracking(s.conns, [PushTo(t, key, v)], s.server.subs, k);
      case Connect(_, _) =>
      case Leave(_) =>
      case Escape(_) =>
      case AddRef(_) =>
      case _ => LocalTracking(s.conns[step.c], step);
    }
  }

  lemma SpreadTracking(conns: map<nat, Conn>, events: seq<Event>, subs: Subs, k: nat)
    requires k in conns
    ensures k in Spread(conns, events, subs) && Spread(conns, events, subs)[k].tracking == conns[k].tracking
  {
    hide Delivery;
  }

  lemma LocalTracking(conn: Conn, step: Step)
    ensures Local(conn, step).tracking == conn.tracking
  {
    hide Issue, Control, Receive, Poll, Connection.Misread;
  }

  /** Handling a message changes what its own connection watches, by the message's object and property. */
  lemma ServeTracking(s: System, c: nat, r: Reaction, k: nat)
    requires Enabled(s, Step.Serve(c, r)) && k in s.conns
    ensures Apply(s, Step.Serve(c, r)) == ServeOldest(s, c, r) && k in ServeOldest(s, c, r).conns
    ensures var before, after := s.conns[k].tracking.keys, ServeOldest(s, c, r).conns[k].tracking.keys;
            if k != c then after == before
            else match s.conns[c].up[0]
              case Subscribe(_, o, p) => after == before + {Key(o, p)}
              case Unsubscribe(_, o, p) => after == before - {Key(o, p)}
              case _ => after == before
  {
    hide Delivery, Spread, Record, Gone, SendableUp, Settled;
    hide PushesOf, RunBody, ObjectRef, Answer, Escapes, StreamEvents, Released, Created;
    SpreadTracking(s.conns, Handle(s.server, s.conns[c].addr, s.conns[c].tracking, s.conns[c].up[0], r).events, s.server.subs, k);
  }

  lemma KeepsConn(s: System, step: Step, k: nat)
    ensures k in s.conns ==> k in Apply(s, step).conns
    ensures k !in s.conns && k in Apply(s, step).conns ==> step.Connect? && Apply(s, step).conns[k].tracking == Tracking({}, {})
    ensures k !in s.conns ==> HandledBy(s, step, k) == None && !Leaves(s, step, k)
  {
    hide Local, SendableUp, OpenAddrs, Handle, Delivery, Disconnected, Gone, Record, Settled, Serviced;
  }

  /** In every run a connection watches exactly the properties whose last word was a subscribe. */
  lemma {:induction false} WatchesWhatItAskedFor(s: System, steps: seq<Step>, k: nat, o: int, p: nat)
    requires Started(s)
    ensures k !in Run(s, steps).conns ==> !Wants(s, steps, k, o, p)
    ensures k in Run(s, steps).conns ==> (Key(o, p) in Run(s, steps).conns[k].tracking.keys <==> Wants(s, steps, k, o, p))
    decreases |steps|
  {
    hide Apply, HandledBy, Leaves;
    if steps != [] {
      var n := |steps| - 1;
      var was := Run(s, steps[..n]);
      WatchesWhatItAskedFor(s, steps[..n], k, o, p);
      KeepsConn(was, steps[n], k);
      if k in was.conns {
        StepWatches(was, steps[n], k, o, p);
      }
    }
  }

  /** So a notification of a property, raised at any moment of any run, goes to an open connection exactly when the last word
      it sent about that property was a subscribe, or an escaped connection at its address had left a watch of it. */
  lemma NotifiedIffSubscribed(s: System, steps: seq<Step>, k: nat, t: nat, o: int, p: nat, v: bytes)
    requires Started(s)
    requires var now := Run(s, steps); k in now.conns && now.conns[k].open
    ensures var now := Run(s, steps); var next, conn := Apply(now, Raise(t, Key(o, p), v)), now.conns[k];
            var told := Wants(s, steps, k, o, p) || Key(o, p) in LeftAt(now.left, conn.addr);
            k in next.conns && next.conns[k].down == conn.down + if told then [Notify(t, o, p, v)] else []
  {
    hide Run, Apply, Wants;
    WatchesWhatItAskedFor(s, steps, k, o, p);
    Watching.RaiseReachesWatchers(s, steps, k, t, Key(o, p), v);
  }

  // ---------------------------------------------------------------- the objects of a connection

  /** The object that a step creates for connection k: the next id, when the factory makes one. */
  function CreatedBy(s: System, step: Step, k: nat): Option<int> {
    match HandledBy(s, step, k)
    case Some(Ask(_, request)) => if Creates(s.server, request, step.reaction) then Some(s.server.registry.nextId) else None
    case _ => None
  }

  /** The connection created the object, and neither released it nor ended since. */
  predicate Holds(s: System, steps: seq<Step>, k: nat, id: int)
    decreases |steps|
  {
    if steps == [] then false
    else
      var n := |steps| - 1;
      var was := Run(s, steps[..n]);
      match HandledBy(was, steps[n], k)
      case Some(Ask(_, _)) => CreatedBy(was, steps[n], k) == Some(id) || Holds(s, steps[..n], k, id)
      case Some(Release(_, o)) => o != id && Holds(s, steps[..n], k, id)
      case _ => !Leaves(was, steps[n], k) && Holds(s, steps[..n], k, id)
  }

  lemma ServeObjects(s: System, c: nat, r: Reaction, k: nat)
    requires Enabled(s, Step.Serve(c, r)) && k in s.conns
    ensures Apply(s, Step.Serve(c, r)) == ServeOldest(s, c, r) && k in ServeOldest(s, c, r).conns
    ensures var before, after := s.conns[k].tracking.objects, ServeOldest(s, c, r).conns[k].tracking.objects;
            if k != c then after == before
            else match s.conns[c].up[0]
              case Ask(_, request) => after == before + if Creates(s.server, request, r) then {s.server.registry.nextId} else {}
              case Release(_, o) => after == before - {o}
              case _ => after == before
  {
    hide Delivery, Spread, Record, Gone, SendableUp, Settled, PushesOf, RunBody, ObjectRef, Answer, Escapes, StreamEvents, Released;
    SpreadTracking(s.conns, Handle(s.server, s.conns[c].addr, s.conns[c].tracking, s.conns[c].up[0], r).events, s.server.subs, k);
  }

  lemma StepObjects(s: System, step: Step, k: nat, id: int)
    requires k in s.conns
    ensures k in Apply(s, step).conns
    ensures id in Apply(s, step).conns[k].tracking.objects <==>
            match HandledBy(s, step, k)
            case Some(Ask(_, _)) => CreatedBy(s, step, k) == Some(id) || id in s.conns[k].tracking.objects
            case Some(Release(_, o)) => o != id && id in s.conns[k].tracking.objects
            case _ => !Leaves(s, step, k) && id in s.conns[k].tracking.objects
  {
    hide Local, Spread, SendableUp, OpenAddrs, ServeOldest, Handle, Delivery, Disconnected, Gone, Creates;
    if Enabled(s, step) {
      match step
      case Serve(c, r) => ServeObjects(s, c, r, k);
      case Raise(t, key, v) => SpreadTracking(s.conns, [PushTo(t, key, v)], s.server.subs, k);
      case Connect(_, _) =>
      case Leave(_) =>
      case Escape(_) =>
      case AddRef(_) =>
      case _ => LocalTracking(s.conns[step.c], step);
    }
  }

  /** In every run the objects that a connection will release when it ends are those it created and has not released. */
  lemma {:induction false} HoldsWhatItCreated(s: System, steps: seq<Step>, k: nat, id: int)
    requires Started(s)
    ensures k !in Run(s, steps).conns ==> !Holds(s, steps, k, id)
    ensures k in Run(s, steps).conns ==> (id in Run(s, steps).conns[k].tracking.objects <==> Holds(s, steps, k, id))
    decreases |steps|
  {
    hide Apply, HandledBy, Leaves, Creates;
    if steps != [] {
      var n := |steps| - 1;
      var was := Run(s, steps[..n]);
      HoldsWhatItCreated(s, steps[..n], k, id);
      KeepsConn(was, steps[n], k);
      if k in was.conns {
        StepObjects(was, steps[n], k, id);
      }
    }
  }
}
