/** Small facts about finite sets. */
module Sets {

  lemma SomeMember<T>(s: set<T>) returns (x: T)
    requires s != {}
    ensures x in s
  {
    x :| x in s;
  }

  /** The elements of a sequence. */
  function Elements<T(==)>(s: seq<T>): set<T> { set x | x in s }

  ghost predicate NoDuplicates<T>(s: seq<T>) {
    forall i, j :: 0 <= i < j < |s| ==> s[i] != s[j]
  }

  /** A sequence without duplicates is as long as its set of elements is large. */
  lemma {:induction false} CountElements<T>(s: seq<T>)
    requires NoDuplicates(s)
    ensures |s| == |Elements(s)|
  {
    if s != [] {
      CountElements(s[1..]);
      assert s[0] !in Elements(s[1..]);
      assert Elements(s) == Elements(s[1..]) + {s[0]};
    }
  }

  /** The pairs of one key. */
  function Tag<S(==), T(==)>(xs: set<S>, y: T): set<(S, T)> { set x | x in xs :: (x, y) }

  lemma {:induction false} CountTagged<S, T>(xs: set<S>, y: T)
    ensures |Tag(xs, y)| == |xs|
  {
    if xs != {} {
      var x := SomeMember(xs);
      CountTagged(xs - {x}, y);
      assert Tag(xs, y) == Tag(xs - {x}, y) + {(x, y)};
    }
  }
}
