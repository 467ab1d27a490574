/** Runs of the time index with a state passed twice. */
module WaitLimits {
  import opened Slices
  import opened Schemas
  import opened Bindings
  import opened Indexes
  import opened Transitions
  import opened TimeSubscriptions

  // ----- a wait that never closes

  lemma TwiceTooEarly(a: Name)
    ensures !EarlierReached([a, a], [1, 1], map[a := 0]) && !AllPassed([a, a], [1, 1], map[a := 0])
    ensures AllPassed([a, a], [1, 1], map[a := 1])
  {
    var states: seq<Name> := [a, a];
    assert states[0] == states[1];
    assert Tick(map[a := 0], states[0]) < [1, 1][0];
  }

  /** Waiting twice for the first activation of an inactive state: when it has come, the
      binding is not closed, and a new wait for the same gets the same binding, still open. */
  method RepeatedWaitStaysOpen(a: Name)
    returns (ix: Index, b: Binding, closed: seq<Binding>, again: Option<Binding>)
    ensures fresh(ix) && b in ix.open && b !in closed && again == Some(b)
    ensures b.order == [a, a] && b.wants == [1, 1] && AllPassed([a, a], [1, 1], map[a := 1])
  {
    hide EarlierReached, AllPassed, Exact, Binding.Counts, Reached, AllReached, IndexMap, AwaitedTimes;
    ix := new Index();
    TwiceTooEarly(a);
    var r := AwaitTime(ix, [a, a], [1, 1], map[a := 0]);
    b := r.value;
    assert ix.open == {b} && !b.Able();
    closed := ProcessWhenTime(ix, map[a := 0], map[a := 1]);
    assert b !in closed && b !in Elems(closed);
    again := AwaitTime(ix, [a, a], [1, 1], map[a := 1]);
  }

  // ----- small lists

  lemma OneDue(b: Binding, s: Name, touch: Touch, flags: Snapshot)
    requires b in flags && Due(b, s, touch, flags)
    ensures DueOf([b], s, touch, flags) == [b]
  {
    assert [b][..0] == [];
  }

  lemma TwoDue(b: Binding, c: Binding, s: Name, touch: Touch, flags: Snapshot)
    requires b in flags && c in flags && Due(b, s, touch, flags)
    ensures DueOf([b, c], s, touch, flags) == if Due(c, s, touch, flags) then [b, c] else [b]
  {
    OneDue(b, s, touch, flags);
    assert [b, c][..1] == [b];
  }

  lemma SweptOnce(list: seq<Binding>, s: Name, b: Binding)
    ensures Swept(list, s, [b]) == if s in b.states then Gc(list, b) else list
  {
    assert [b][..0] == [];
  }

  lemma SweptPair(list: seq<Binding>, s: Name, b: Binding)
    requires s in b.states
    ensures Swept(list, s, [b, b]) == Gc(Gc(list, b), b)
  {
    SweptOnce(list, s, b);
    assert [b, b][..1] == [b];
  }

  lemma WithoutFirst(b: Binding, c: Binding)
    ensures Gc([b, c], b) == [c] && Gc([c], b) == []
  {
    assert IndexOf([b, c], b) == 0;
  }

  // ----- a wait that is returned twice

  /** The awaited last tick of `a` is 3, and the earlier one has come. */
  lemma TwiceAwaited(a: Name)
    ensures AwaitedTimes([a, a], [1, 3]) == map[a := 3]
    ensures EarlierReached([a, a], [1, 3], map[a := 1]) && !AllPassed([a, a], [1, 3], map[a := 1])
  {
    var states: seq<Name> := [a, a];
    assert states[..1] == [a] && [a][..0] == [];
    assert IndexMap([a]) == map[a := 0];
    assert IndexMap(states) == map[a := 1];
    assert Tick(map[a := 1], states[1]) < [1, 3][1];
  }

  lemma CountLast(s: seq<Name>, x: Name, y: Name)
    ensures Count(s + [x], y) == Count(s, y) + if x == y then 1 else 0
  {
    assert (s + [x])[..|s|] == s;
  }

  lemma TwoEntries(a: Name)
    ensures Count([a, a], a) == 2
  {
    CountLast([], a, a);
    CountLast([a], a, a);
    assert [] + [a] == [a] && [a] + [a] == [a, a];
  }

  /** A wait for two ticks of one state is listed twice under it, so its second tick returns
      it twice; both entries go. */
  method RepeatedWaitClosesTwice(a: Name) returns (ix: Index, b: Binding, closed: seq<Binding>)
    ensures fresh(ix) && closed == [b, b] && At(ix.lists, a) == []
  {
    hide EarlierReached, AllPassed, Binding.Counts, IndexMap, AwaitedTimes, Count, DueOf, Swept, Gc, Exact;
    ix := new Index();
    TwiceAwaited(a);
    TwoEntries(a);
    b := NewTime(ix, [a, a], [1, 3], map[a := 1]);
    assert At(ix.lists, a) == [b, b];
    CountedKeys(b);
    assert Elems([a, a]) == {a};
    TwiceDue(ix, b, a);
    hide Due, MadeAt;
    closed := CloseTwice(ix, b, a);
  }

  lemma TwiceDue(ix: Index, b: Binding, a: Name)
    requires b in ix.known && b.Able() && !b.negation && b.times == map[a := 3]
    requires b.flags.Keys == {a}
    ensures Due(b, a, Ticked(3), ix.Flags())
  {
  }

  method CloseTwice(ix: Index, b: Binding, a: Name) returns (closed: seq<Binding>)
    requires ix.Sane() && At(ix.lists, a) == [b, b] && b in ix.known && a in b.states
    requires Due(b, a, Ticked(3), ix.Flags())
    modifies ix`lists, ix`open, ix.known
    ensures closed == [b, b] && At(ix.lists, a) == []
  {
    hide DueOf, Swept, Gc, Due, Binding.Counts;
    TwoDue(b, b, a, Ticked(3), ix.Flags());
    closed := ix.TouchState(a, Ticked(3));
    SweptPair([b, b], a, b);
    WithoutFirst(b, b);
  }

  // ----- a wait that takes another one out

  lemma ThreeCounts(a: Name, c: Name)
    requires a != c
    ensures Count([a, a, c], a) == 2 && Count([a, a, c], c) == 1 && Count([c], c) == 1 && Count([c], a) == 0
  {
    hide Count;
    assert Count([], a) == 0 && Count([], c) == 0 by {
      CountMember([], a);
      CountMember([], c);
    }
    assert [] + [a] == [a] && [] + [c] == [c] && [a] + [a] == [a, a] && [a, a] + [c] == [a, a, c];
    CountLast([], a, a);
    CountLast([], a, c);
    CountLast([], c, a);
    CountLast([], c, c);
    CountLast([a], a, a);
    CountLast([a], a, c);
    CountLast([a, a], c, a);
    CountLast([a, a], c, c);
  }

  lemma ThreeAwaited(a: Name, c: Name)
    requires a != c
    ensures AwaitedTimes([a, a, c], [1, 1, 3]) == map[a := 1, c := 3] && AwaitedTimes([c], [9]) == map[c := 9]
  {
    hide AwaitedTimes;
    OneAwaited(a, 1);
    OneAwaited(c, 9);
    AwaitedMore([a], [1], a, 1);
    assert [a] + [a] == [a, a] && [1] + [1] == [1, 1];
    AwaitedMore([a, a], [1, 1], c, 3);
    assert [a, a] + [c] == [a, a, c] && [1, 1] + [3] == [1, 1, 3];
  }

  lemma OneAwaited(a: Name, t: nat)
    ensures AwaitedTimes([a], [t]) == map[a := t]
  {
    assert AwaitedTimes([], []) == map[];
    AwaitedMore([], [], a, t);
    assert [] + [a] == [a] && [] + [t] == [t];
    hide AwaitedTimes;
  }

  lemma ThreePassed(a: Name, c: Name)
    requires a != c
    ensures EarlierReached([a, a, c], [1, 1, 3], map[a := 1, c := 2])
    ensures !AllPassed([a, a, c], [1, 1, 3], map[a := 1, c := 2]) && !AllPassed([c], [9], map[a := 1, c := 2])
  {
    assert Tick(map[a := 1, c := 2], [a, a, c][2]) < [1, 1, 3][2];
    assert Tick(map[a := 1, c := 2], [c][0]) < [9][0];
  }

  /** Opens a wait for tick 3 of `c` that lists `a` twice. */
  method OpenFirst(ix: Index, a: Name, c: Name) returns (b: Binding)
    requires a != c && ix.Valid() && ix.known == {} && forall s :: At(ix.lists, s) == []
    modifies ix
    ensures ix.Valid() && fresh(b) && ix.known == {b} && At(ix.lists, a) == [b, b] && At(ix.lists, c) == [b]
    ensures b.states == {a, c} && b.times == map[a := 1, c := 3] && b.flags == map[a := true, c := false]
    ensures !b.negation && b.Able()
  {
    hide EarlierReached, AllPassed, Binding.Counts, AwaitedTimes, Count, Exact;
    ThreeCounts(a, c);
    ThreeAwaited(a, c);
    ThreePassed(a, c);
    b := NewTime(ix, [a, a, c], [1, 1, 3], map[a := 1, c := 2]);
    CountedKeys(b);
    assert Elems([a, a, c]) == {a, c};
  }

  /** Opens a wait for tick 9 of `c` behind it. */
  method OpenSecond(ix: Index, a: Name, c: Name) returns (b: Binding)
    requires a != c && ix.Valid()
    modifies ix
    ensures ix.Valid() && fresh(b) && ix.known == old(ix.known) + {b}
    ensures At(ix.lists, a) == old(At(ix.lists, a)) && At(ix.lists, c) == old(At(ix.lists, c)) + [b]
    ensures b.states == {c} && b.times == map[c := 9] && b.flags == map[c := false] && !b.negation
  {
    hide EarlierReached, AllPassed, Binding.Counts, AwaitedTimes, Count, Exact;
    ThreeCounts(a, c);
    ThreeAwaited(a, c);
    ThreePassed(a, c);
    b := NewTime(ix, [c], [9], map[a := 1, c := 2]);
    CountedKeys(b);
    assert Elems([c]) == {c};
  }

  /** Tick 3 of `c` closes the first wait, and one of its two entries under `a` stays. The
      next tick of `a` returns it again and deletes the list of `c`, which holds only the
      second wait by then. When tick 9 of `c` comes, nothing is returned. */
  method RepeatedWaitDropsAnother(a: Name, c: Name)
    returns (first: Binding, second: Binding, closed: seq<Binding>, again: seq<Binding>, late: seq<Binding>)
    requires a != c
    ensures closed == [first] && again == [first] && late == []
    ensures second.times == map[c := 9] && AllReached(second.times, map[c := 9])
  {
    hide DueOf, Swept, Gc, Exact, Binding.Counts;
    var ix := new Index();
    first := OpenFirst(ix, a, c);
    second := OpenSecond(ix, a, c);
    assert At(ix.lists, a) == [first, first] && At(ix.lists, c) == [first, second];
    closed := FirstCloses(ix, first, second, a, c);
    again := FirstAgain(ix, first, second, a, c);
    NoneDue(c, Ticked(9), ix.Flags());
    late := ix.TouchState(c, Ticked(9));
  }

  method FirstCloses(ix: Index, first: Binding, second: Binding, a: Name, c: Name) returns (closed: seq<Binding>)
    requires a != c && ix.Sane() && ix.known == {first, second} && first != second
    requires At(ix.lists, a) == [first, first] && At(ix.lists, c) == [first, second]
    requires first.states == {a, c} && first.times == map[a := 1, c := 3] && first.flags == map[a := true, c := false]
    requires second.times == map[c := 9] && second.flags == map[c := false]
    requires !first.negation && !second.negation && first.Able()
    modifies ix`lists, ix`open, first, second
    ensures ix.Sane() && closed == [first] && At(ix.lists, a) == [first] && At(ix.lists, c) == [second]
    ensures first.flags == map[a := true, c := true]
  {
    hide DueOf, Swept, Gc, Binding.Counts;
    assert first.flags[c := true] == map[a := true, c := true];
    assert Due(first, c, Ticked(3), ix.Flags());
    assert !Due(second, c, Ticked(3), ix.Flags()) by {
      assert !Touched(Ticked(3), second.times, second.flags, c)[c];
    }
    TwoDue(first, second, c, Ticked(3), ix.Flags());
    closed := ix.TouchState(c, Ticked(3));
    SweptOnce([first, first], a, first);
    SweptOnce([first, second], c, first);
    WithoutFirst(first, first);
    WithoutFirst(first, second);
  }

  method FirstAgain(ix: Index, first: Binding, second: Binding, a: Name, c: Name) returns (closed: seq<Binding>)
    requires a != c && ix.Sane() && ix.known == {first, second}
    requires At(ix.lists, a) == [first] && At(ix.lists, c) == [second]
    requires first.states == {a, c} && first.flags == map[a := true, c := true] && !first.negation && first.Able()
    modifies ix`lists, ix`open, first, second
    ensures ix.Sane() && closed == [first] && At(ix.lists, c) == []
  {
    hide DueOf, Swept, Gc, Binding.Counts;
    assert first.flags[a := true] == first.flags;
    OneDue(first, a, Ticked(3), ix.Flags());
    closed := ix.TouchState(a, Ticked(3));
    SweptOnce([second], c, first);
    WithoutFirst(first, second);
  }

  lemma NoneDue(s: Name, touch: Touch, flags: Snapshot)
    ensures DueOf([], s, touch, flags) == []
  {
  }
}
