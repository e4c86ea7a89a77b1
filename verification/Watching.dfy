/** Who watches what, over every run: what each connection keeps for its cleanup is what the subscription registry
    holds for its transport, and a notification reaches exactly the watchers, once each. */
module Watching {
  import opened Bytes
  import opened Sets
  import opened Limits
  import opened Wire
  import opened Streams
  import opened Subscriptions
  import opened Service
  import opened Client
  import opened Connection
  import opened Session

  /** No two open connections share a transport. */
  predicate OwnAddrs(conns: map<nat, Conn>) {
    forall i, j :: i in conns && j in conns && i != j && conns[i].open && conns[j].open ==> conns[i].addr != conns[j].addr
  }

  /** What the registry holds for the transport of an open connection is what that connection watches and what escaped ones
      have left at its address. */
  predicate Agreed(conns: map<nat, Conn>, subs: Subs, left: map<nat, set<Key>>) {
    forall k :: k in conns && conns[k].open ==>
        Keys(subs, conns[k].addr) == conns[k].tracking.keys + LeftAt(left, conns[k].addr)
  }

  /** For an address without an open connection it is what was left there. */
  ghost predicate OnlyLeft(conns: map<nat, Conn>, subs: Subs, left: map<nat, set<Key>>) {
    forall w :: w !in OpenAddrs(conns) ==> Keys(subs, w) == LeftAt(left, w)
  }

  ghost predicate WatchInv(conns: map<nat, Conn>, subs: Subs, left: map<nat, set<Key>>) {
    Tidy(subs) && OwnAddrs(conns) && Agreed(conns, subs, left) && OnlyLeft(conns, subs, left)
  }

  lemma SameServicesKeep(a: map<nat, Conn>, b: map<nat, Conn>, subs: Subs, left: map<nat, set<Key>>)
    requires WatchInv(a, subs, left) && SameServices(a, b)
    ensures WatchInv(b, subs, left)
  {
    assert OpenAddrs(a) == OpenAddrs(b);
  }

  lemma KeysAfter(subs: Subs, who: nat, key: Key, w: nat)
    requires Tidy(subs)
    ensures Keys(SubscribedTo(subs, who, key), w) == Keys(subs, w) + if w == who then {key} else {}
    ensures Keys(UnsubscribedFrom(subs, who, key), w) == Keys(subs, w) - if w == who then {key} else {}
    ensures Keys(UnsubscribedAll(subs, who), w) == if w == who then {} else Keys(subs, w)
  {
  }

  lemma KeysAreSubscriptions(subs: Subs, w: nat, key: Key)
    ensures key in Keys(subs, w) <==> Subscribed(subs, w, key)
  {
  }

  /** One connection changes its watched keys, the registry its entries with it, and the history what was left there. */
  lemma OwnKeysChange(conns: map<nat, Conn>, subs: Subs, left: map<nat, set<Key>>, c: nat, mine: Conn, subs': Subs,
                      left': map<nat, set<Key>>)
    requires WatchInv(conns, subs, left) && Tidy(subs') && c in conns && conns[c].open
    requires mine.open && mine.addr == conns[c].addr
    requires Keys(subs', mine.addr) == mine.tracking.keys + LeftAt(left', mine.addr)
    requires forall w :: w != mine.addr ==> Keys(subs', w) == Keys(subs, w) && LeftAt(left', w) == LeftAt(left, w)
    ensures WatchInv(conns[c := mine], subs', left')
  {
    hide Keys, LeftAt;
    assert OpenAddrs(conns[c := mine]) == OpenAddrs(conns) by { SameAddrs(conns, c, mine); }
    assert mine.addr in OpenAddrs(conns);
  }

  lemma SameAddrs(conns: map<nat, Conn>, c: nat, mine: Conn)
    requires c in conns && conns[c].open && mine.open && mine.addr == conns[c].addr
    ensures OpenAddrs(conns[c := mine]) == OpenAddrs(conns)
  {
    var after := conns[c := mine];
    forall w
      ensures w in OpenAddrs(after) <==> w in OpenAddrs(conns)
    {
      if w in OpenAddrs(conns) {
        var k :| k in conns && conns[k].open && conns[k].addr == w;
        assert after[k].open && after[k].addr == w;
      }
      if w in OpenAddrs(after) {
        var k :| k in after && after[k].open && after[k].addr == w;
        assert conns[k].open && conns[k].addr == w;
      }
    }
  }

  lemma AnsweringKeeps(s: System, c: nat, r: Reaction)
    requires WatchInv(s.conns, s.server.subs, s.left) && Enabled(s, Serve(c, r))
    ensures var after := Answering(s, c, r); WatchInv(after.conns, after.server.subs, after.left)
  {
    hide WatchInv, Handle, SendableUp;
    var conn, subs := s.conns[c], s.server.subs;
    var m := conn.up[0];
    var h := Handle(s.server, conn.addr, conn.tracking, m, r);
    var after := Answering(s, c, r);
    var others := Spread(s.conns, h.events, subs);
    SpreadSameServices(s.conns, h.events, subs);
    SameServicesKeep(s.conns, others, subs, s.left);
    var mine := after.conns[c];
    assert mine.addr == conn.addr && mine.open && mine.tracking == h.tracking;
    KeysFollow(s.server, s.left, conn.addr, conn.tracking, m, r) by { ReadWatchInv(s.conns, subs, s.left, c); }
    OwnKeysChange(others, subs, s.left, c, mine, h.server.subs, after.left);
  }

  lemma ReadWatchInv(conns: map<nat, Conn>, subs: Subs, left: map<nat, set<Key>>, c: nat)
    requires WatchInv(conns, subs, left) && c in conns && conns[c].open
    ensures Tidy(subs) && Keys(subs, conns[c].addr) == conns[c].tracking.keys + LeftAt(left, conns[c].addr)
  {
  }

  /** Whatever message is handled, what the connection watches and what was left at its address still make up what the
      registry holds for it. */
  lemma KeysFollow(server: Server, left: map<nat, set<Key>>, who: nat, t: Tracking, m: ToServer, r: Reaction)
    requires IdsLeft(server.registry) && Tidy(server.subs) && Keys(server.subs, who) == t.keys + LeftAt(left, who)
    ensures var h, left' := Handle(server, who, t, m, r), Settled(left, who, m);
            && Tidy(h.server.subs) && Keys(h.server.subs, who) == h.tracking.keys + LeftAt(left', who)
            && forall w :: w != who ==> Keys(h.server.subs, w) == Keys(server.subs, w) && LeftAt(left', w) == LeftAt(left, w)
  {
    hide Handle, Keys;
    HandleSubs(server, who, t, m, r);
  }

  lemma ServeKeeps(s: System, c: nat, r: Reaction)
    requires WatchInv(s.conns, s.server.subs, s.left) && Enabled(s, Serve(c, r))
    ensures var after := ServeOldest(s, c, r); WatchInv(after.conns, after.server.subs, after.left)
  {
    hide WatchInv, Handle, Answering;
    AnsweringKeeps(s, c, r);
    AnsweringStaysOpen(s, c, r);
    EscapeKeeps(Answering(s, c, r), c);
  }

  lemma AnsweringStaysOpen(s: System, c: nat, r: Reaction)
    requires Enabled(s, Serve(c, r))
    ensures c in Answering(s, c, r).conns && Answering(s, c, r).conns[c].open
  {
    hide Handle, Delivery, SendableUp;
  }

  lemma HandleSubs(server: Server, who: nat, t: Tracking, m: ToServer, r: Reaction)
    requires IdsLeft(server.registry) && Tidy(server.subs)
    ensures var h := Handle(server, who, t, m, r);
            && Tidy(h.server.subs)
            && (forall w :: Keys(h.server.subs, w) ==
                  Keys(server.subs, w) + (if w == who && m.Subscribe? then {Key(m.object_, m.property)} else {})
                                       - (if w == who && m.Unsubscribe? then {Key(m.object_, m.property)} else {}))
            && h.tracking.keys == t.keys + (if m.Subscribe? then {Key(m.object_, m.property)} else {})
                                         - (if m.Unsubscribe? then {Key(m.object_, m.property)} else {})
  {
    if m.Subscribe? || m.Unsubscribe? {
      var key := Key(m.object_, m.property);
      SubscribeRefines(server.subs, who, key);
      forall w { KeysAfter(server.subs, who, key, w); }
    } else {
      assert Handle(server, who, t, m, r).server.subs == server.subs;
      assert Handle(server, who, t, m, r).tracking.keys == t.keys;
    }
  }

  lemma ClosedAddrs(conns: map<nat, Conn>, c: nat, mine: Conn)
    requires OwnAddrs(conns) && c in conns && conns[c].open && !mine.open
    ensures OpenAddrs(conns[c := mine]) == OpenAddrs(conns) - {conns[c].addr}
  {
    var after := conns[c := mine];
    forall w | w in OpenAddrs(conns) && w != conns[c].addr
      ensures w in OpenAddrs(after)
    {
      var k :| k in conns && conns[k].open && conns[k].addr == w;
      assert after[k].open && after[k].addr == w;
    }
  }

  /** A connection ends: its address keeps what is left there, which is all the registry still holds for it. */
  lemma ClosedKeeps(conns: map<nat, Conn>, subs: Subs, left: map<nat, set<Key>>, c: nat, mine: Conn, subs': Subs,
                    left': map<nat, set<Key>>)
    requires WatchInv(conns, subs, left) && Tidy(subs') && c in conns && conns[c].open && !mine.open
    requires Keys(subs', conns[c].addr) == LeftAt(left', conns[c].addr)
    requires forall w :: w != conns[c].addr ==> Keys(subs', w) == Keys(subs, w) && LeftAt(left', w) == LeftAt(left, w)
    ensures WatchInv(conns[c := mine], subs', left')
  {
    hide Keys, LeftAt, OpenAddrs;
    ClosedAddrs(conns, c, mine);
  }

  lemma LeaveKeeps(s: System, c: nat)
    requires WatchInv(s.conns, s.server.subs, s.left) && Enabled(s, Leave(c))
    ensures var after := Left(s, c); WatchInv(after.conns, after.server.subs, after.left)
    ensures Keys(Left(s, c).server.subs, s.conns[c].addr) == {}
  {
    var after, subs, addr := Left(s, c), s.server.subs, s.conns[c].addr;
    UnsubscribeAllRefines(subs, addr);
    forall w, key: Key { KeysAfter(subs, addr, key, w); }
    ClosedKeeps(s.conns, subs, s.left, c, after.conns[c], after.server.subs, after.left);
  }

  lemma EscapeKeeps(s: System, c: nat)
    requires WatchInv(s.conns, s.server.subs, s.left) && c in s.conns && s.conns[c].open
    ensures var after := Escaped(s, c); WatchInv(after.conns, after.server.subs, after.left)
  {
    var after := Escaped(s, c);
    ReadWatchInv(s.conns, s.server.subs, s.left, c);
    ClosedKeeps(s.conns, s.server.subs, s.left, c, after.conns[c], after.server.subs, after.left);
  }

  lemma ConnectKeeps(s: System, c: nat, addr: nat)
    requires WatchInv(s.conns, s.server.subs, s.left) && Enabled(s, Connect(c, addr))
    ensures WatchInv(s.conns[c := NewConn(addr)], s.server.subs, s.left)
  {
    hide Keys;
    var after := s.conns[c := NewConn(addr)];
    forall k | k in s.conns && s.conns[k].open
      ensures after[k] == s.conns[k] && s.conns[k].addr in OpenAddrs(after) && s.conns[k].addr != addr
    {
      assert s.conns[k].addr in OpenAddrs(s.conns);
      assert after[k] == s.conns[k];
    }
    assert after[c].addr in OpenAddrs(after);
    assert forall w :: w in OpenAddrs(s.conns) ==> w in OpenAddrs(after);
  }

  /** Every step keeps the connections' own sets, what was left behind and the registry in agreement. */
  lemma ApplyKeepsWatches(s: System, step: Step)
    requires WatchInv(s.conns, s.server.subs, s.left)
    ensures var after := Apply(s, step); WatchInv(after.conns, after.server.subs, after.left)
  {
    hide WatchInv, Local, ServeOldest, OpenAddrs, SendableUp;
    if Enabled(s, step) {
      match step {
        case Connect(c, addr) => ConnectKeeps(s, c, addr);
        case Serve(c, r) => ServeKeeps(s, c, r);
        case Leave(c) => LeaveKeeps(s, c);
        case Escape(c) => EscapeKeeps(s, c);
        case Raise(t, k, v) =>
          SpreadSameServices(s.conns, [PushTo(t, k, v)], s.server.subs);
          SameServicesKeep(s.conns, Spread(s.conns, [PushTo(t, k, v)], s.server.subs), s.server.subs, s.left);
        case AddRef(id) =>
        case _ =>
          LocalSameServices(s, step);
          SameServicesKeep(s.conns, Apply(s, step).conns, s.server.subs, s.left);
      }
    }
  }

  lemma {:induction false} RunKeepsWatches(s: System, steps: seq<Step>)
    requires Started(s)
    ensures var after := Run(s, steps); WatchInv(after.conns, after.server.subs, after.left)
    decreases |steps|
  {
    hide Apply;
    if steps != [] {
      RunKeepsWatches(s, steps[..|steps| - 1]);
      ApplyKeepsWatches(Run(s, steps[..|steps| - 1]), steps[|steps| - 1]);
    }
  }

  // ---------------------------------------------------------------- notifications reach exactly the watchers

  lemma CountOnce(s: seq<nat>, x: nat)
    requires NoDuplicates(s)
    ensures multiset(s)[x] == if x in s then 1 else 0
  {
    if s != [] {
      var rest := s[1..];
      CountOnce(rest, x);
      assert s == [s[0]] + rest;
    }
  }

  /** In every run, an open connection is sent a notification exactly once if it watches the property or an escaped
      connection has left a watch of it at the same address, and not at all otherwise. */
  lemma NotifiedOnceIffWatching(s: System, steps: seq<Step>, k: nat, self: bool, t: nat, key: Key, v: bytes)
    requires Started(s)
    requires var now := Run(s, steps); k in now.conns && now.conns[k].open
    ensures var now := Run(s, steps); var conn := now.conns[k];
            Share(PushTo(t, key, v), conn.addr, self, now.server.subs) ==
            if key in conn.tracking.keys + LeftAt(now.left, conn.addr) then [Notify(t, key.object_, key.property, v)] else []
  {
    hide Run;
    RunKeepsWatches(s, steps);
    var now := Run(s, steps);
    var conn, subs := now.conns[k], now.server.subs;
    ReadWatchInv(now.conns, subs, now.left, k);
    KeysAreSubscriptions(subs, conn.addr, key);
    CountOnce(Targets(subs, key), conn.addr);
  }

  /** Every notification reaches a connection if it watches the property, once, and no other does. */
  ghost predicate ReachesExactly(subs: Subs, conn: Conn) {
    forall t: nat, key: Key, v: bytes ::
      Share(PushTo(t, key, v), conn.addr, false, subs) ==
      if key in conn.tracking.keys then [Notify(t, key.object_, key.property, v)] else []
  }

  /** In every run that holds for an open connection if and only if it watches everything that escaped connections have
      left at its address. */
  lemma NotifiedExactlyIff(s: System, steps: seq<Step>, k: nat)
    requires Started(s)
    requires var now := Run(s, steps); k in now.conns && now.conns[k].open
    ensures var now := Run(s, steps); var conn := now.conns[k];
            ReachesExactly(now.server.subs, conn) <==> LeftAt(now.left, conn.addr) <= conn.tracking.keys
  {
    hide Run, LeftAt, Share;
    var now := Run(s, steps);
    var conn, subs := now.conns[k], now.server.subs;
    var left := LeftAt(now.left, conn.addr);
    if left <= conn.tracking.keys {
      forall t: nat, key: Key, v: bytes
        ensures Share(PushTo(t, key, v), conn.addr, false, subs) ==
                if key in conn.tracking.keys then [Notify(t, key.object_, key.property, v)] else []
      {
        NotifiedOnceIffWatching(s, steps, k, false, t, key, v);
      }
    } else {
      var key :| key in left && key !in conn.tracking.keys;
      NotifiedOnceIffWatching(s, steps, k, false, 0, key, []);
      assert Share(PushTo(0, key, []), conn.addr, false, subs) != [];
    }
  }

  /** From an escape until its address is used again, notify still picks the destroyed transport for what it watched. */
  lemma DestroyedTransportIsTargetIff(s: System, steps: seq<Step>, addr: nat, key: Key)
    requires Started(s) && addr !in OpenAddrs(Run(s, steps).conns)
    ensures var now := Run(s, steps); addr in Targets(now.server.subs, key) <==> key in LeftAt(now.left, addr)
  {
    hide Run;
    RunKeepsWatches(s, steps);
    KeysAreSubscriptions(Run(s, steps).server.subs, addr, key);
  }

  /** So when the service notifies at any moment of any run, an open connection's channel grows by that notification if it
      watches the property or inherited a watch of it, and by nothing otherwise. */
  lemma RaiseReachesWatchers(s: System, steps: seq<Step>, k: nat, t: nat, key: Key, v: bytes)
    requires Started(s)
    requires var now := Run(s, steps); k in now.conns && now.conns[k].open
    ensures var now := Run(s, steps); var next, conn := Apply(now, Raise(t, key, v)), now.conns[k];
            var news := if key in conn.tracking.keys + LeftAt(now.left, conn.addr)
                        then [Notify(t, key.object_, key.property, v)] else [];
            k in next.conns && next.conns[k].down == conn.down + news && next.conns[k].pushed == conn.pushed + news
  {
    hide Run, LeftAt, Share, Spread;
    NotifiedOnceIffWatching(s, steps, k, false, t, key, v);
    var now := Run(s, steps);
    OneNotice(now.conns, now.server.subs, k, PushTo(t, key, v));
  }

  lemma OneNotice(conns: map<nat, Conn>, subs: Subs, k: nat, e: Event)
    requires k in conns && conns[k].open && e.PushTo?
    ensures k in Spread(conns, [e], subs)
    ensures var d, news := Spread(conns, [e], subs)[k], Share(e, conns[k].addr, false, subs);
            d.down == conns[k].down + news && d.pushed == conns[k].pushed + news
  {
    hide Targets, Notices;
    var news := Share(e, conns[k].addr, false, subs);
    assert [e][1..] == [] && Delivery([], conns[k].addr, false, subs) == [];
    assert Delivery([e], conns[k].addr, false, subs) == news + [] == news;
    AllNotices(news);
  }

  /** After a connection escapes, a newcomer on its transport is sent what the lost connection watched. */
  lemma ReusedTransportInheritsWatches(s: System, c: nat, newcomer: nat, t: nat, key: Key, v: bytes)
    requires WatchInv(s.conns, s.server.subs, s.left) && Enabled(s, Escape(c)) && newcomer !in s.conns
    requires key in s.conns[c].tracking.keys
    ensures var addr := s.conns[c].addr;
            var joined := Apply(Apply(s, Escape(c)), Connect(newcomer, addr));
            && newcomer in joined.conns && joined.conns[newcomer].tracking.keys == {} && key in LeftAt(joined.left, addr)
            && Share(PushTo(t, key, v), addr, false, joined.server.subs) == [Notify(t, key.object_, key.property, v)]
  {
    var addr, escaped := s.conns[c].addr, Apply(s, Escape(c));
    assert addr !in OpenAddrs(escaped.conns);
    ReadWatchInv(s.conns, s.server.subs, s.left, c);
    KeysAreSubscriptions(s.server.subs, addr, key);
    CountOnce(Targets(s.server.subs, key), addr);
  }
}
