/** The life of remote objects over every run: ids are negative and never reused, nothing is deleted twice, and what
    clients created is gone once they have all left. */
module Lifecycle {
  import opened Bytes
  import opened Limits
  import opened Wire
  import opened Streams
  import opened Objects
  import opened Service
  import opened Client
  import opened Connection
  import opened Session

  /** The ids handed out so far are those from -1 down to the next one. */
  ghost predicate IdsInv(reg: Registry, creator: map<int, nat>) {
    Sound(reg) && forall id :: id in creator <==> reg.nextId < id < 0
  }

  /** Every id handed out belongs to a live object or to one that was deleted exactly once. */
  ghost predicate DeletedInv(reg: Registry, creator: map<int, nat>, deleted: multiset<int>) {
    forall id :: deleted[id] == if id in creator && id !in reg.objects then 1 else 0
  }

  /** A connection keeps only what it created. */
  predicate TrackedInv(conns: map<nat, Conn>, creator: map<int, nat>) {
    forall k, id :: k in conns && id in conns[k].tracking.objects ==> id in creator && creator[id] == k
  }

  predicate Tracks(conns: map<nat, Conn>, k: nat, id: int) {
    k in conns && (conns[k].open || conns[k].escaped) && id in conns[k].tracking.objects
  }

  /** A live object without extra references has exactly one, and its creator, not yet cleaned up after, tracks it. */
  predicate OwnedInv(reg: Registry, conns: map<nat, Conn>, creator: map<int, nat>, shared: set<int>) {
    forall id :: id in reg.objects && id !in shared ==>
        reg.objects[id].refs == 1 && id in creator && Tracks(conns, creator[id], id)
  }

  ghost predicate LifeInv(s: System) {
    && IdsInv(s.server.registry, s.creator)
    && DeletedInv(s.server.registry, s.creator, s.deleted)
    && TrackedInv(s.conns, s.creator)
    && OwnedInv(s.server.registry, s.conns, s.creator, s.shared)
  }

  lemma SameServicesKeep(s: System, conns: map<nat, Conn>)
    requires LifeInv(s) && SameServices(s.conns, conns)
    ensures LifeInv(s.(conns := conns))
  {
    forall id | id in s.server.registry.objects && id !in s.shared
      ensures id in s.creator && Tracks(conns, s.creator[id], id)
    {
      assert Tracks(s.conns, s.creator[id], id);
    }
  }

  /** What a step does to a registry: at most one new id, and otherwise only references dropped. */
  predicate Drops(before: Registry, after: Registry, ids: set<int>) {
    && after.nextId == before.nextId
    && after.objects.Keys == before.objects.Keys - Deleted(before, ids)
    && forall id :: id in after.objects ==>
         after.objects[id].refs == before.objects[id].refs - (if id in ids then 1 else 0)
  }

  lemma DropsKeep(s: System, after: Registry, ids: set<int>)
    requires LifeInv(s) && Drops(s.server.registry, after, ids)
    ensures IdsInv(after, s.creator)
    ensures DeletedInv(after, s.creator, s.deleted + Gone(s.server.registry, after))
    ensures forall id :: id in after.objects && id !in s.shared ==>
        id !in ids && after.objects[id].refs == 1 && id in s.creator && Tracks(s.conns, s.creator[id], id)
  {
  }

  lemma TrackedKept(conns: map<nat, Conn>, creator: map<int, nat>, c: nat, mine: Conn)
    requires TrackedInv(conns, creator) && c in conns && mine.tracking.objects <= conns[c].tracking.objects
    ensures TrackedInv(conns[c := mine], creator)
  {
  }

  /** One connection's tracked objects change, and the registry with them. */
  lemma DropsByConnection(s: System, c: nat, mine: Conn, after: Registry, ids: set<int>)
    requires LifeInv(s) && Drops(s.server.registry, after, ids) && c in s.conns
    requires mine.tracking.objects <= s.conns[c].tracking.objects
    requires s.conns[c].tracking.objects - ids <= mine.tracking.objects
    requires mine.open || mine.escaped || s.conns[c].tracking.objects <= ids
    ensures var conns := s.conns[c := mine]; TrackedInv(conns, s.creator) && OwnedInv(after, conns, s.creator, s.shared)
  {
    TrackedKept(s.conns, s.creator, c, mine);
    DropsKeep(s, after, ids);
    var conns := s.conns[c := mine];
    forall id | id in after.objects && id !in s.shared
      ensures after.objects[id].refs == 1 && id in s.creator && Tracks(conns, s.creator[id], id)
    {
      assert Tracks(s.conns, s.creator[id], id) && id !in ids;
      if s.creator[id] == c {
        assert id in mine.tracking.objects;
      }
    }
  }

  lemma HandleDrops(server: Server, who: nat, t: Tracking, m: ToServer, r: Reaction)
    requires IdsLeft(server.registry) && Sound(server.registry)
    requires Handle(server, who, t, m, r).server.registry.nextId == server.registry.nextId
    ensures var h, ids := Handle(server, who, t, m, r), if m.Release? then {m.object_} else {};
            Drops(server.registry, h.server.registry, ids) && h.tracking.objects == t.objects - ids
  {
    var h := Handle(server, who, t, m, r);
    if m.Release? {
      ReleaseDeletes(server.registry, {m.object_});
      assert h.server.registry == ReleasedAll(server.registry, {m.object_});
    } else if m.Subscribe? {
      assert h.server.registry == Linked(server.registry, m.object_);
    } else {
      assert h.server.registry == server.registry && h.tracking.objects == t.objects;
    }
  }

  lemma HandleCreates(server: Server, who: nat, t: Tracking, m: ToServer, r: Reaction)
    requires IdsLeft(server.registry) && Sound(server.registry)
    requires Handle(server, who, t, m, r).server.registry.nextId != server.registry.nextId
    ensures var h, id := Handle(server, who, t, m, r), server.registry.nextId;
            && h.server.registry.nextId == id - 1 && h.tracking.objects == t.objects + {id}
            && h.server.registry.objects.Keys == server.registry.objects.Keys + {id} && h.server.registry.objects[id].refs == 1
            && (forall i :: i in server.registry.objects ==> h.server.registry.objects[i] == server.registry.objects[i])
  {
    assert m.Ask? && m.request.Create?;
  }

  lemma CreationTracked(s: System, c: nat, mine: Conn)
    requires LifeInv(s) && c in s.conns && mine.tracking.objects == s.conns[c].tracking.objects + {s.server.registry.nextId}
    ensures TrackedInv(s.conns[c := mine], s.creator[s.server.registry.nextId := c])
  {
    assert s.server.registry.nextId !in s.creator;
    assert forall id :: id in s.conns[c].tracking.objects ==> id in s.creator && s.creator[id] == c;
  }

  lemma CreatedByConnection(s: System, c: nat, mine: Conn, after: Registry)
    requires LifeInv(s) && c in s.conns && s.conns[c].open && mine.open
    requires var id := s.server.registry.nextId;
             && after.nextId == id - 1 && mine.tracking.objects == s.conns[c].tracking.objects + {id}
             && after.objects.Keys == s.server.registry.objects.Keys + {id} && after.objects[id].refs == 1
             && (forall i :: i in s.server.registry.objects ==> after.objects[i] == s.server.registry.objects[i])
    ensures var creator, conns := s.creator[s.server.registry.nextId := c], s.conns[c := mine];
            && IdsInv(after, creator) && DeletedInv(after, creator, s.deleted + Gone(s.server.registry, after))
            && TrackedInv(conns, creator) && OwnedInv(after, conns, creator, s.shared)
  {
    var fresh_ := s.server.registry.nextId;
    var creator, conns := s.creator[fresh_ := c], s.conns[c := mine];
    CreationTracked(s, c, mine);
    assert s.server.registry.objects.Keys - after.objects.Keys == {};
    forall id | id in after.objects && id !in s.shared
      ensures id in creator && Tracks(conns, creator[id], id)
    {
      if id != fresh_ {
        assert Tracks(s.conns, s.creator[id], id);
      }
    }
  }

  lemma AnsweringKeeps(s: System, c: nat, r: Reaction)
    requires LifeInv(s) && Enabled(s, Serve(c, r))
    ensures LifeInv(Answering(s, c, r))
  {
    var conn := s.conns[c];
    var m := conn.up[0];
    var h := Handle(s.server, conn.addr, conn.tracking, m, r);
    var after := Answering(s, c, r);
    var others := s.(conns := Spread(s.conns, h.events, s.server.subs));
    SpreadSameServices(s.conns, h.events, s.server.subs);
    SameServicesKeep(s, others.conns);
    var mine := after.conns[c];
    assert mine.open && mine.tracking == h.tracking && after.conns == others.conns[c := mine];
    if h.server.registry.nextId == s.server.registry.nextId {
      var ids := if m.Release? then {m.object_} else {};
      HandleDrops(s.server, conn.addr, conn.tracking, m, r);
      DropsKeep(others, h.server.registry, ids);
      DropsByConnection(others, c, mine, h.server.registry, ids);
    } else {
      HandleCreates(s.server, conn.addr, conn.tracking, m, r);
      CreatedByConnection(others, c, mine, h.server.registry);
    }
  }

  lemma ServeKeeps(s: System, c: nat, r: Reaction)
    requires LifeInv(s) && Enabled(s, Serve(c, r))
    ensures LifeInv(ServeOldest(s, c, r))
  {
    hide LifeInv, Handle, Answering;
    AnsweringFrame(s, c, r);
    AnsweringKeeps(s, c, r);
    EscapeKeeps(Answering(s, c, r), c);
  }

  lemma EscapeKeeps(s: System, c: nat)
    requires LifeInv(s) && c in s.conns
    ensures LifeInv(Escaped(s, c))
  {
    assert forall k, id :: Tracks(s.conns, k, id) ==> Tracks(Escaped(s, c).conns, k, id);
  }

  lemma LeaveKeeps(s: System, c: nat)
    requires LifeInv(s) && Enabled(s, Leave(c))
    ensures LifeInv(Left(s, c))
  {
    var ids, reg := s.conns[c].tracking.objects, s.server.registry;
    ReleaseDeletes(reg, ids);
    assert Drops(reg, ReleasedAll(reg, ids), ids);
    DropsKeep(s, ReleasedAll(reg, ids), ids);
    DropsByConnection(s, c, Left(s, c).conns[c], ReleasedAll(reg, ids), ids);
  }

  /** Every step keeps the objects accounted for. */
  lemma ApplyKeepsLives(s: System, step: Step)
    requires LifeInv(s)
    ensures LifeInv(Apply(s, step))
  {
    if Enabled(s, step) {
      match step {
        case Connect(c, addr) =>
          var after := s.conns[c := NewConn(addr)];
          assert forall k, id :: Tracks(s.conns, k, id) ==> Tracks(after, k, id);
        case Serve(c, r) => ServeKeeps(s, c, r);
        case Leave(c) => LeaveKeeps(s, c);
        case Escape(c) => EscapeKeeps(s, c);
        case Raise(t, k, v) =>
          SpreadSameServices(s.conns, [PushTo(t, k, v)], s.server.subs);
          SameServicesKeep(s, Spread(s.conns, [PushTo(t, k, v)], s.server.subs));
        case AddRef(id) =>
        case _ =>
          LocalSameServices(s, step);
          SameServicesKeep(s, Apply(s, step).conns);
      }
    }
  }

  lemma {:induction false} RunKeepsLives(s: System, steps: seq<Step>)
    requires Started(s)
    ensures LifeInv(Run(s, steps))
    decreases |steps|
  {
    if steps != [] {
      RunKeepsLives(s, steps[..|steps| - 1]);
      ApplyKeepsLives(Run(s, steps[..|steps| - 1]), steps[|steps| - 1]);
    }
  }

  // ---------------------------------------------------------------- who created what

  predicate Credited(a: Answered, creator: map<int, nat>, k: nat) {
    Creates(a.server, a.request, a.reaction) ==> a.server.registry.nextId in creator && creator[a.server.registry.nextId] == k
  }

  /** The object that a create request made is credited to the connection that asked for it. */
  predicate CreditInv(conns: map<nat, Conn>, creator: map<int, nat>) {
    forall k, i :: k in conns && 0 <= i < |conns[k].answers| ==> Credited(conns[k].answers[i], creator, k)
  }

  lemma CreditStays(s: System, step: Step, a: Answered, k: nat)
    requires LifeInv(s) && Credited(a, s.creator, k)
    ensures Credited(a, Apply(s, step).creator, k)
  {
    hide LifeInv, Apply;
    DeletedGrows(s, step, a.server.registry.nextId);
  }

  lemma NewAnswerCredited(s: System, c: nat, r: Reaction)
    requires LifeInv(s) && Enabled(s, Serve(c, r)) && s.conns[c].up[0].Ask?
    ensures Credited(Record(s, c, r), Apply(s, Serve(c, r)).creator, c)
  {
    hide PushesOf, Delivery, Spread, Serviced, SendableUp, Emits, Gone, OwnedInv, DeletedInv, TrackedInv, ErrorEvents;
  }

  lemma ApplyKeepsCredit(s: System, step: Step)
    requires LifeInv(s) && CreditInv(s.conns, s.creator)
    ensures CreditInv(Apply(s, step).conns, Apply(s, step).creator)
  {
    hide LifeInv, Apply, Credited, Record, SendableUp;
    var after := Apply(s, step);
    forall k, i | k in after.conns && 0 <= i < |after.conns[k].answers|
      ensures Credited(after.conns[k].answers[i], after.creator, k)
    {
      AnswersAfter(s, step, k);
      var before := if k in s.conns then s.conns[k].answers else [];
      if i < |before| {
        assert after.conns[k].answers[i] == before[i];
        CreditStays(s, step, before[i], k);
      } else {
        NewAnswerCredited(s, k, step.reaction);
      }
    }
  }

  lemma {:induction false} RunKeepsCredit(s: System, steps: seq<Step>)
    requires Started(s)
    ensures CreditInv(Run(s, steps).conns, Run(s, steps).creator)
    decreases |steps|
  {
    hide Apply, LifeInv, CreditInv;
    if steps == [] {
      assert CreditInv(s.conns, s.creator) by { NoCredit(s); }
    } else {
      RunKeepsCredit(s, steps[..|steps| - 1]);
      RunKeepsLives(s, steps[..|steps| - 1]);
      ApplyKeepsCredit(Run(s, steps[..|steps| - 1]), steps[|steps| - 1]);
    }
  }

  lemma NoCredit(s: System)
    requires Started(s)
    ensures CreditInv(s.conns, s.creator)
  {
  }

  /** In every run, what create_object returns to its caller names the requested type and an object that this very
      connection created; that object is live, or has been deleted exactly once. */
  lemma CreatedObjectIsMine(s: System, steps: seq<Step>, c: nat, r: Return)
    requires Started(s) && c in Run(s, steps).conns && r in Run(s, steps).conns[c].returned
    requires |Run(s, steps).conns[c].issued| <= U32_COUNT && AllWithin(Run(s, steps).conns[c])
    requires var conn := Run(s, steps).conns[c];
             r.index < |conn.issued| ==> conn.issued[r.index].Create? && U32(conn.issued[r.index].typeId)
    ensures var now := Run(s, steps); var conn := now.conns[c];
            && r.index < |conn.issued| && |r.payload| == 8 && FromLe(r.payload[..4]) == conn.issued[r.index].typeId
            && var id := ToSigned(FromLe(r.payload[4..]), 4);
               id in now.creator && now.creator[id] == c && (id in now.server.registry.objects <==> now.deleted[id] == 0)
  {
    hide Run, CreditInv, LifeInv, HandleRequest, AllWithin, Creates;
    CorrelatedReplies(s, steps, c, r);
    RunKeepsCredit(s, steps);
    var now := Run(s, steps);
    var a := now.conns[c].answers[r.index];
    assert Credited(a, now.creator, c) by { ReadCredit(now.conns, now.creator, c, r.index); }
    DeletedAtMostOnce(s, steps, a.server.registry.nextId);
  }

  lemma ReadCredit(conns: map<nat, Conn>, creator: map<int, nat>, k: nat, i: nat)
    requires CreditInv(conns, creator) && k in conns && i < |conns[k].answers|
    ensures Credited(conns[k].answers[i], creator, k)
  {
  }

  // ---------------------------------------------------------------- what it comes to

  /** In every run all ids are negative, none of a deleted object is live again, and none is deleted twice. */
  lemma DeletedAtMostOnce(s: System, steps: seq<Step>, id: int)
    requires Started(s)
    ensures var now := Run(s, steps);
            && now.deleted[id] <= 1
            && (id in now.server.registry.objects ==> id < 0 && now.deleted[id] == 0)
            && (id in now.creator ==> id in now.server.registry.objects || now.deleted[id] == 1)
  {
    RunKeepsLives(s, steps);
  }

  /** No step hands out an id a second time: a new object's id was never created before. */
  lemma IdsAreNeverReused(s: System, steps: seq<Step>, step: Step, id: int)
    requires Started(s)
    ensures var now := Run(s, steps); var next := Apply(now, step);
            && (id in now.creator ==> id in next.creator && next.creator[id] == now.creator[id])
            && (id in next.server.registry.objects && id !in now.server.registry.objects ==> id !in now.creator)
  {
    RunKeepsLives(s, steps);
    ApplyKeepsLives(Run(s, steps), step);
    var now := Run(s, steps);
    var next := Apply(now, step);
    DeletedGrows(now, step, id);
    assert DeletedInv(next.server.registry, next.creator, next.deleted);
  }

  lemma DeletedGrows(s: System, step: Step, id: int)
    requires LifeInv(s)
    ensures Apply(s, step).deleted[id] >= s.deleted[id]
    ensures id in s.creator ==> id in Apply(s, step).creator && Apply(s, step).creator[id] == s.creator[id]
  {
    hide Local, ServeOldest, Spread, Disconnected, OwnedInv, TrackedInv, DeletedInv, SendableUp, Gone, OpenAddrs;
    if Enabled(s, step) && step.Serve? {
      ServingGrows(s, step.c, step.reaction, id);
    }
  }

  lemma ServingGrows(s: System, c: nat, r: Reaction, id: int)
    requires LifeInv(s) && Enabled(s, Serve(c, r))
    ensures var after := ServeOldest(s, c, r);
            && after.deleted[id] >= s.deleted[id]
            && (id in s.creator ==> id in after.creator && after.creator[id] == s.creator[id])
  {
    hide Handle, Serviced, Delivery, Spread, Record, Settled, Gone, OwnedInv, TrackedInv, DeletedInv, SendableUp;
    AnsweringFrame(s, c, r);
  }

  /** Every live object that nobody gave a second reference is tracked by its creator until that is cleaned up after. */
  lemma LiveObjectsAreTracked(s: System, steps: seq<Step>, id: int)
    requires Started(s)
    requires id in Run(s, steps).server.registry.objects && id !in Run(s, steps).shared
    ensures var now := Run(s, steps); id in now.creator && Tracks(now.conns, now.creator[id], id)
  {
    RunKeepsLives(s, steps);
  }

  /** Once every connection has left through its return paths, only objects given extra references remain. */
  lemma NothingRemains(s: System, steps: seq<Step>)
    requires Started(s)
    requires var now := Run(s, steps); forall k :: k in now.conns ==> !now.conns[k].open && !now.conns[k].escaped
    ensures Run(s, steps).server.registry.objects.Keys <= Run(s, steps).shared
  {
    var now := Run(s, steps);
    forall id | id in now.server.registry.objects
      ensures id in now.shared
    {
      if id !in now.shared {
        LiveObjectsAreTracked(s, steps, id);
      }
    }
  }
}
