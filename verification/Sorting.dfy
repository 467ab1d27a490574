/** The stable insertion sort behind SortStates, with its two comparators. */
module Sorting {
  import opened Slices
  import opened Schemas

  datatype Order = ByTopology(topology: seq<Name>) | ByAfter(schema: Schema)

  predicate Less(o: Order, a: Name, b: Name) {
    match o
    case ByTopology(t) => IndexOf(t, a) < IndexOf(t, b)
    case ByAfter(schema) => b !in Def(schema, a).after && a in Def(schema, b).after
  }

  /** Moves `x` left from the end of `s` while it is less than its neighbour. */
  function Insert(o: Order, s: seq<Name>, x: Name): (r: seq<Name>) {
    if s == [] || !Less(o, x, s[|s| - 1]) then s + [x]
    else Insert(o, s[..|s| - 1], x) + [s[|s| - 1]]
  }

  function StableSort(o: Order, s: seq<Name>): (r: seq<Name>) {
    if s == [] then [] else Insert(o, StableSort(o, s[..|s| - 1]), s[|s| - 1])
  }

  lemma {:induction false} InsertPermutes(o: Order, s: seq<Name>, x: Name)
    ensures multiset(Insert(o, s, x)) == multiset(s) + multiset{x}
  {
    if s != [] && Less(o, x, s[|s| - 1]) {
      InsertPermutes(o, s[..|s| - 1], x);
      assert s == s[..|s| - 1] + [s[|s| - 1]];
    }
  }

  lemma {:induction false} SortPermutes(o: Order, s: seq<Name>)
    ensures multiset(StableSort(o, s)) == multiset(s)
  {
    if s != [] {
      SortPermutes(o, s[..|s| - 1]);
      InsertPermutes(o, StableSort(o, s[..|s| - 1]), s[|s| - 1]);
      assert s == s[..|s| - 1] + [s[|s| - 1]];
    }
  }

  lemma InsertMembers(o: Order, s: seq<Name>, x: Name)
    ensures forall y :: y in Insert(o, s, x) <==> y in s || y == x
  {
    InsertPermutes(o, s, x);
    forall y ensures y in Insert(o, s, x) <==> y in s || y == x {
      assert y in Insert(o, s, x) <==> y in multiset(Insert(o, s, x));
    }
  }

  lemma SortMembers(o: Order, s: seq<Name>)
    ensures forall y :: y in StableSort(o, s) <==> y in s
  {
    SortPermutes(o, s);
    forall y ensures y in StableSort(o, s) <==> y in s {
      assert y in StableSort(o, s) <==> y in multiset(StableSort(o, s));
    }
  }

  lemma {:induction false} InsertNoDup(o: Order, s: seq<Name>, x: Name)
    requires NoDup(s) && x !in s
    ensures NoDup(Insert(o, s, x))
  {
    if s != [] && Less(o, x, s[|s| - 1]) {
      InsertNoDup(o, s[..|s| - 1], x);
      InsertMembers(o, s[..|s| - 1], x);
      var r := Insert(o, s[..|s| - 1], x);
      assert s[|s| - 1] !in r;
      assert forall i :: 0 <= i < |r| ==> r[i] in r;
    }
  }

  lemma {:induction false} SortNoDup(o: Order, s: seq<Name>)
    requires NoDup(s)
    ensures NoDup(StableSort(o, s))
  {
    if s != [] {
      SortNoDup(o, s[..|s| - 1]);
      SortMembers(o, s[..|s| - 1]);
      InsertNoDup(o, StableSort(o, s[..|s| - 1]), s[|s| - 1]);
    }
  }

  ghost predicate Ascending(topology: seq<Name>, s: seq<Name>) {
    forall i, j :: 0 <= i < j < |s| ==> IndexOf(topology, s[i]) <= IndexOf(topology, s[j])
  }

  lemma {:induction false} InsertAscending(topology: seq<Name>, s: seq<Name>, x: Name)
    requires Ascending(topology, s)
    ensures Ascending(topology, Insert(ByTopology(topology), s, x))
  {
    hide IndexOf;
    var o := ByTopology(topology);
    if s != [] && Less(o, x, s[|s| - 1]) {
      var init, last := s[..|s| - 1], s[|s| - 1];
      InsertAscending(topology, init, x);
      var r := Insert(o, init, x);
      InsertMembers(o, init, x);
      forall i | 0 <= i < |r| ensures IndexOf(topology, r[i]) <= IndexOf(topology, last) {
        assert r[i] in r;
      }
    }
  }

  lemma {:induction false} SortAscending(topology: seq<Name>, s: seq<Name>)
    ensures Ascending(topology, StableSort(ByTopology(topology), s))
  {
    if s != [] {
      SortAscending(topology, s[..|s| - 1]);
      InsertAscending(topology, StableSort(ByTopology(topology), s[..|s| - 1]), s[|s| - 1]);
    }
  }

  /** A comparator that never answers yes leaves the list alone. */
  lemma {:induction false} SortIdentity(o: Order, s: seq<Name>)
    requires forall i, j :: 0 <= i < |s| && 0 <= j < |s| ==> !Less(o, s[i], s[j])
    ensures StableSort(o, s) == s
  {
    if s != [] {
      SortIdentity(o, s[..|s| - 1]);
      assert s == s[..|s| - 1] + [s[|s| - 1]];
    }
  }

  // ----- stability, and neighbours where the comparator is not transitive

  lemma {:induction false} InsertStable(topology: seq<Name>, s: seq<Name>, x: Name, keep: set<Name>)
    requires forall a, b :: a in keep && b in keep ==> IndexOf(topology, a) == IndexOf(topology, b)
    ensures Only(Insert(ByTopology(topology), s, x), keep) == Only(s + [x], keep)
  {
    hide IndexOf;
    OnlyAppend(s, [x], keep);
    if s != [] && Less(ByTopology(topology), x, s[|s| - 1]) {
      var init, last := s[..|s| - 1], s[|s| - 1];
      InsertStable(topology, init, x, keep);
      OnlyAppend(init, [x], keep);
      OnlyAppend(init, [last], keep);
      OnlyAppend(Insert(ByTopology(topology), init, x), [last], keep);
      assert s == init + [last];
    }
  }

  /** States of equal position stay in their order. */
  lemma {:induction false} SortStable(topology: seq<Name>, s: seq<Name>, keep: set<Name>)
    requires forall a, b :: a in keep && b in keep ==> IndexOf(topology, a) == IndexOf(topology, b)
    ensures Only(StableSort(ByTopology(topology), s), keep) == Only(s, keep)
  {
    hide IndexOf;
    if s != [] {
      var init, last := s[..|s| - 1], s[|s| - 1];
      SortStable(topology, init, keep);
      InsertStable(topology, StableSort(ByTopology(topology), init), last, keep);
      OnlyAppend(StableSort(ByTopology(topology), init), [last], keep);
      OnlyAppend(init, [last], keep);
      assert s == init + [last];
    }
  }

  ghost predicate NoneSwapped(o: Order, s: seq<Name>) {
    forall i :: 0 <= i < |s| - 1 ==> !Less(o, s[i + 1], s[i])
  }

  lemma {:induction false} InsertNeighbours(o: Order, s: seq<Name>, x: Name)
    requires NoneSwapped(o, s)
    ensures var r := Insert(o, s, x);
            NoneSwapped(o, r) && r != [] && (r[|r| - 1] == x || (s != [] && r[|r| - 1] == s[|s| - 1]))
  {
    if s != [] && Less(o, x, s[|s| - 1]) {
      InsertNeighbours(o, s[..|s| - 1], x);
      assert !Less(o, s[|s| - 1], x) by { LessOneWay(o, x, s[|s| - 1]); }
      hide Less;
      assert |s| > 1 ==> !Less(o, s[|s| - 2 + 1], s[|s| - 2]);
    }
  }

  lemma LessOneWay(o: Order, a: Name, b: Name)
    requires Less(o, a, b)
    ensures !Less(o, b, a)
  {
  }

  /** No two neighbours are in the wrong order. */
  lemma {:induction false} SortNeighbours(o: Order, s: seq<Name>)
    ensures NoneSwapped(o, StableSort(o, s))
  {
    if s != [] {
      SortNeighbours(o, s[..|s| - 1]);
      InsertNeighbours(o, StableSort(o, s[..|s| - 1]), s[|s| - 1]);
    }
  }
}
