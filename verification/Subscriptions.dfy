/** The subscription registry (src/subscription.cpp): for each (object, property) the list of subscribers, kept as
    a refinement of a set of (subscriber, key) pairs. */
module Subscriptions {
  import opened Sets
  import opened Streams

  type Subs = map<Key, seq<nat>>

  /** No empty buckets, and nobody twice in a bucket. */
  ghost predicate Tidy(subs: Subs) {
    forall k :: k in subs ==> subs[k] != [] && NoDuplicates(subs[k])
  }

  predicate Subscribed(subs: Subs, who: nat, key: Key) {
    key in subs && who in subs[key]
  }

  /** The abstract value: who watches what. */
  function Pairs(subs: Subs): set<(nat, Key)> {
    set k, w | k in subs && w in subs[k] :: (w, k)
  }

  function Keys(subs: Subs, who: nat): set<Key> {
    set k | k in subs && who in subs[k]
  }

  function Without(s: seq<nat>, who: nat): (r: seq<nat>)
    ensures forall w :: w in r <==> w in s && w != who
    ensures NoDuplicates(s) ==> NoDuplicates(r)
  {
    if s == [] then []
    else
      var rest := Without(s[1..], who);
      assert NoDuplicates(s) ==> NoDuplicates(s[1..]) && s[0] !in s[1..];
      if s[0] == who then rest else [s[0]] + rest
  }

  function Bucket(subs: Subs, key: Key): seq<nat> { if key in subs then subs[key] else [] }

  function SubscribedTo(subs: Subs, who: nat, key: Key): Subs {
    if who in Bucket(subs, key) then subs else subs[key := Bucket(subs, key) + [who]]
  }

  function UnsubscribedFrom(subs: Subs, who: nat, key: Key): Subs {
    if key !in subs then subs
    else if Without(subs[key], who) == [] then subs - {key}
    else subs[key := Without(subs[key], who)]
  }

  function UnsubscribedAll(subs: Subs, who: nat): Subs {
    map k | k in subs && Without(subs[k], who) != [] :: Without(subs[k], who)
  }

  // ---------------------------------------------------------------- the registry refines a set of pairs

  /** subscribe adds one pair and unsubscribe removes one; both leave the registry tidy. */
  lemma SubscribeRefines(subs: Subs, who: nat, key: Key)
    requires Tidy(subs)
    ensures Tidy(SubscribedTo(subs, who, key)) && Tidy(UnsubscribedFrom(subs, who, key))
    ensures Pairs(SubscribedTo(subs, who, key)) == Pairs(subs) + {(who, key)}
    ensures Pairs(UnsubscribedFrom(subs, who, key)) == Pairs(subs) - {(who, key)}
  {
  }

  /** unsubscribe_all removes every pair of one subscriber. */
  lemma UnsubscribeAllRefines(subs: Subs, who: nat)
    requires Tidy(subs)
    ensures Tidy(UnsubscribedAll(subs, who))
    ensures Pairs(UnsubscribedAll(subs, who)) == set p | p in Pairs(subs) && p.0 != who
  {
  }

  /** The pairs of a registry split into those of one key and those of the others. */
  lemma PairsSplit(subs: Subs, key: Key)
    requires Tidy(subs) && key in subs
    ensures |Pairs(subs)| == |subs[key]| + |Pairs(subs - {key})|
  {
    CountElements(subs[key]);
    CountTagged(Elements(subs[key]), key);
    var mine, others := Tag(Elements(subs[key]), key), Pairs(subs - {key});
    assert Pairs(subs) == mine + others && mine !! others;
    assert |mine + others| == |mine| + |others|;
  }

  /** Where a notification goes. */
  function Targets(subs: Subs, key: Key): seq<nat> { Bucket(subs, key) }

  /** Each notify targets exactly the current subscribers of its key, once each. */
  lemma NotifyTargets(subs: Subs, key: Key)
    requires Tidy(subs)
    ensures NoDuplicates(Targets(subs, key))
    ensures forall who :: who in Targets(subs, key) <==> (who, key) in Pairs(subs)
  {
  }

  // ---------------------------------------------------------------- the class

  class SubscriptionRegistry {
    var subs: Subs

    constructor ()
      ensures subs == map[]
    {
      subs := map[];
    }

    method Subscribe(who: nat, key: Key)
      modifies this
      ensures subs == SubscribedTo(old(subs), who, key)
    {
      var subscribers := Bucket(subs, key);
      var i := 0;
      while i < |subscribers|
        invariant 0 <= i <= |subscribers| && subs == old(subs)
        invariant who !in subscribers[..i]
      {
        if subscribers[i] == who {
          return;
        }
        i := i + 1;
      }
      assert subscribers[..i] == subscribers;
      subs := subs[key := subscribers + [who]];
    }

    method Unsubscribe(who: nat, key: Key)
      modifies this
      ensures subs == UnsubscribedFrom(old(subs), who, key)
    {
      if key !in subs {
        return;
      }
      var kept := RemoveIf(subs[key], who);
      subs := if kept == [] then subs - {key} else subs[key := kept];
    }

    /** Erases while iterating: every bucket is visited once, and dropped when it becomes empty. */
    method UnsubscribeAll(who: nat)
      modifies this
      ensures subs == UnsubscribedAll(old(subs), who)
    {
      var todo := subs.Keys;
      while todo != {}
        invariant todo <= old(subs).Keys
        invariant subs.Keys <= old(subs).Keys && todo <= subs.Keys
        invariant forall k :: k in todo ==> subs[k] == old(subs)[k]
        invariant forall k :: k in old(subs) && k !in todo ==>
            (k in subs <==> Without(old(subs)[k], who) != []) && (k in subs ==> subs[k] == Without(old(subs)[k], who))
        decreases todo
      {
        var k :| k in todo;
        var kept := RemoveIf(subs[k], who);
        subs := if kept == [] then subs - {k} else subs[k := kept];
        todo := todo - {k};
      }
    }

    method SubscriberCount(key: Key) returns (n: nat)
      requires Tidy(subs)
      ensures n == |Elements(Bucket(subs, key))|
    {
      CountElements(Bucket(subs, key));
      n := if key in subs then |subs[key]| else 0;
    }

    /** The total is the number of (subscriber, key) pairs. */
    method TotalSubscriptions() returns (total: nat)
      requires Tidy(subs)
      ensures total == |Pairs(subs)|
    {
      total := 0;
      var rest := subs;
      while rest.Keys != {}
        invariant rest.Keys <= subs.Keys && forall k :: k in rest ==> rest[k] == subs[k]
        invariant total + |Pairs(rest)| == |Pairs(subs)|
        decreases rest.Keys
      {
        var k :| k in rest.Keys;
        PairsSplit(rest, k);
        total := total + |rest[k]|;
        rest := rest - {k};
      }
    }
  }

  /** std::remove_if on one bucket. */
  method RemoveIf(s: seq<nat>, who: nat) returns (r: seq<nat>)
    ensures r == Without(s, who)
  {
    r := [];
    var i := 0;
    assert s[0..] == s && [] + Without(s, who) == Without(s, who);
    while i < |s|
      invariant 0 <= i <= |s|
      invariant r + Without(s[i..], who) == Without(s, who)
    {
      assert s[i..][1..] == s[i + 1..];
      ghost var rest := Without(s[i + 1..], who);
      if s[i] != who {
        assert r + ([s[i]] + rest) == (r + [s[i]]) + rest;
        r := r + [s[i]];
      }
      i := i + 1;
    }
  }
}
