/** Subscriptions to logical time: WhenTime on the ticks of states, WhenTimeSum on their sum. */
module TimeSubscriptions {
  import opened Slices
  import opened Schemas
  import opened Transitions
  import opened Bindings
  import opened Indexes
  import opened Subscriptions

  type Clock = map<Name, nat>

  /** The flags tell which states have reached their awaited tick. */
  ghost predicate Reached(flags: Flags, times: map<Name, nat>, clock: Clock) {
    flags.Keys == times.Keys && forall s :: s in flags ==> (flags[s] <==> Tick(clock, s) >= times[s])
  }

  ghost predicate AllReached(times: map<Name, nat>, clock: Clock) {
    forall s :: s in times ==> Tick(clock, s) >= times[s]
  }

  ghost predicate Monotone(before: Clock, clock: Clock) {
    forall s :: Tick(before, s) <= Tick(clock, s)
  }

  // ----- opening

  lemma {:induction false} IndexMapIsLast(states: seq<Name>, i: nat)
    requires i < |states|
    ensures states[i] in IndexMap(states) && i <= IndexMap(states)[states[i]]
    ensures states[IndexMap(states)[states[i]]] == states[i]
  {
    var init := states[..|states| - 1];
    if states[i] != states[|states| - 1] {
      IndexMapIsLast(init, i);
    }
  }

  lemma AwaitedMore(states: seq<Name>, times: seq<nat>, s: Name, t: nat)
    requires |states| == |times|
    ensures AwaitedTimes(states + [s], times + [t]) == AwaitedTimes(states, times)[s := t]
  {
    assert (states + [s])[..|states|] == states;
    assert IndexMap(states + [s]) == IndexMap(states)[s := |states|];
  }

  /** All passed occurrences of a state but its last one have come. */
  ghost predicate EarlierReached(states: seq<Name>, times: seq<nat>, clock: Clock)
    requires |states| == |times|
  {
    forall i, j :: 0 <= i < j < |states| && states[i] == states[j] ==> Tick(clock, states[i]) >= times[i]
  }

  ghost predicate AllPassed(states: seq<Name>, times: seq<nat>, clock: Clock)
    requires |states| == |times|
  {
    forall i :: 0 <= i < |states| ==> Tick(clock, states[i]) >= times[i]
  }

  /** One flag per state, from its last occurrence, while every occurrence is counted. */
  ghost predicate TimeCount(states: seq<Name>, times: seq<nat>, clock: Clock, flags: Flags, matched: int) {
    && |states| == |times| && Reached(flags, AwaitedTimes(states, times), clock)
    && |Matching(flags, false)| <= matched <= |states|
    && (matched == |states| <==> AllPassed(states, times, clock))
    && matched - |Matching(flags, false)| + |flags| <= |states|
    && (matched - |Matching(flags, false)| + |flags| == |states| <==> EarlierReached(states, times, clock))
  }

  lemma EarlierMore(states: seq<Name>, times: seq<nat>, clock: Clock, s: Name, t: nat)
    requires |states| == |times|
    ensures EarlierReached(states + [s], times + [t], clock) <==>
            && EarlierReached(states, times, clock)
            && forall i :: 0 <= i < |states| && states[i] == s ==> Tick(clock, s) >= times[i]
  {
    var more, wants := states + [s], times + [t];
    assert forall i :: 0 <= i < |states| ==> more[i] == states[i] && wants[i] == times[i];
    assert more[|states|] == s;
  }

  /** If all but the last occurrence have come, the flag tells about all of them. */
  lemma LastDecides(states: seq<Name>, times: seq<nat>, clock: Clock, flags: Flags, s: Name)
    requires |states| == |times| && Reached(flags, AwaitedTimes(states, times), clock)
    requires EarlierReached(states, times, clock)
    ensures (forall i :: 0 <= i < |states| && states[i] == s ==> Tick(clock, s) >= times[i]) <==>
            (s in flags ==> flags[s])
  {
    hide IndexMap, AwaitedTimes, EarlierReached, Reached;
    FlagIsLast(states, times, clock, flags, s);
    if s in flags {
      var last := IndexMap(states)[s];
      forall i | 0 <= i < |states| && states[i] == s ensures Tick(clock, s) >= times[i] || i == last {
        IndexMapIsLast(states, i);
        if i < last {
          EarlierAt(states, times, clock, i, last);
        }
      }
    }
  }

  lemma EarlierAt(states: seq<Name>, times: seq<nat>, clock: Clock, i: nat, j: nat)
    requires |states| == |times| && EarlierReached(states, times, clock)
    requires i < j < |states| && states[i] == states[j]
    ensures Tick(clock, states[i]) >= times[i]
  {
  }

  lemma FlagIsLast(states: seq<Name>, times: seq<nat>, clock: Clock, flags: Flags, s: Name)
    requires |states| == |times| && Reached(flags, AwaitedTimes(states, times), clock)
    ensures s in flags <==> s in IndexMap(states)
    ensures s in flags <==> s in states
    ensures s in flags ==> states[IndexMap(states)[s]] == s
    ensures s in flags ==> (flags[s] <==> Tick(clock, s) >= times[IndexMap(states)[s]])
  {
    hide IndexMap;
    assert s in states <==> s in Elems(states);
    if s in states {
      IndexMapIsLast(states, IndexOf(states, s));
    }
  }

  lemma PassedMore(states: seq<Name>, times: seq<nat>, clock: Clock, s: Name, t: nat)
    requires |states| == |times|
    ensures AllPassed(states + [s], times + [t], clock) <==> AllPassed(states, times, clock) && Tick(clock, s) >= t
  {
    var more, wants := states + [s], times + [t];
    assert forall i :: 0 <= i < |states| ==> more[i] == states[i] && wants[i] == times[i];
    assert more[|states|] == s && wants[|states|] == t;
  }

  lemma TimeCountMore(
    states: seq<Name>, times: seq<nat>, clock: Clock, flags: Flags, matched: int, s: Name, t: nat)
    requires TimeCount(states, times, clock, flags, matched)
    ensures TimeCount(states + [s], times + [t], clock, flags[s := Tick(clock, s) >= t],
              matched + if Tick(clock, s) >= t then 1 else 0)
  {
    var on := Tick(clock, s) >= t;
    hide EarlierReached, AllPassed, Matching, AwaitedTimes;
    AwaitedMore(states, times, s, t);
    EarlierMore(states, times, clock, s, t);
    PassedMore(states, times, clock, s, t);
    if EarlierReached(states, times, clock) {
      LastDecides(states, times, clock, flags, s);
    }
    if s in flags {
      CountSwitch(flags, false, s, on);
      assert flags[s := on].Keys == flags.Keys;
    } else {
      CountInsert(flags, false, s, on);
    }
  }

  lemma TimeCountNone(clock: Clock)
    ensures TimeCount([], [], clock, map[], 0)
  {
    assert Matching(map[], false) == {};
  }

  method TimeFlags(states: seq<Name>, times: seq<nat>, clock: Clock) returns (flags: Flags, matched: int)
    requires |states| == |times|
    ensures TimeCount(states, times, clock, flags, matched)
  {
    hide TimeCount;
    flags, matched := map[], 0;
    TimeCountNone(clock);
    for i := 0 to |states|
      invariant TimeCount(states[..i], times[..i], clock, flags, matched)
    {
      TimeCountMore(states[..i], times[..i], clock, flags, matched, states[i], times[i]);
      assert states[..i + 1] == states[..i] + [states[i]] && times[..i + 1] == times[..i] + [times[i]];
      flags := flags[states[i] := Tick(clock, states[i]) >= times[i]];
      if flags[states[i]] {
        matched := matched + 1;
      }
    }
    assert states[..|states|] == states && times[..|times|] == times;
  }

  /** Times and positions of the last occurrences agree; the states themselves may differ
      where later ones cover them. */
  predicate Matches(b: Binding, states: seq<Name>, times: seq<nat>) {
    b.wants == times && IndexMap(b.order) == IndexMap(states)
  }

  /** Whether a time binding can close was decided when it was made. */
  ghost predicate MadeAt(b: Binding) {
    |b.wants| == |b.order| && (b.Able() <==> EarlierReached(b.order, b.wants, b.made))
  }

  /** The first open binding that matches, if there is one. */
  method FindTime(ix: Index, states: seq<Name>, times: seq<nat>) returns (r: Option<Binding>)
    requires ix.Valid() && |states| == |times| > 0
    ensures r.Some? ==> r.value in ix.open && Matches(r.value, states, times)
    ensures r.None? ==> forall b :: b in ix.open ==> !Matches(b, states, times)
  {
    hide Binding.Counts;
    var known := At(ix.lists, states[0]);
    assert forall b :: b in known ==> b in ix.open;
    forall b | b in ix.open && Matches(b, states, times) ensures b in known {
      CountedKeys(b);
      assert states[0] in Elems(states);
      ExactAt(ix.lists, ix.open, states[0], b);
    }
    hide Exact, Matches;
    for i := 0 to |known|
      invariant forall k :: 0 <= k < i ==> !Matches(known[k], states, times)
    {
      if Matches(known[i], states, times) {
        assert known[i] in known;
        return Some(known[i]);
      }
    }
    return None;
  }

  /** The awaited tick of each state is the one passed with its last occurrence. */
  lemma AwaitedAreLast(states: seq<Name>, times: seq<nat>)
    requires |states| == |times|
    ensures AwaitedTimes(states, times).Keys == Elems(states)
    ensures forall i :: 0 <= i < |states| && states[i] !in states[i + 1..] ==>
              AwaitedTimes(states, times)[states[i]] == times[i]
  {
    forall i | 0 <= i < |states| && states[i] !in states[i + 1..]
      ensures AwaitedTimes(states, times)[states[i]] == times[i]
    {
      assert forall j :: i < j < |states| ==> states[j] == states[i + 1..][j - i - 1];
      IndexMapIsLast(states, i);
    }
  }

  lemma MatchedTimes(b: Binding, states: seq<Name>, times: seq<nat>)
    requires b.Counts() && Matches(b, states, times) && |states| == |times| > 0
    ensures b.times == AwaitedTimes(states, times)
  {
  }

  /** A binding made from counted flags waits. */
  lemma TimeWaits(b: Binding, clock: Clock)
    requires TimeCount(b.order, b.wants, clock, b.flags, b.matched) && b.order != [] && !b.negation
    requires !AllPassed(b.order, b.wants, clock)
    requires b.states == Elems(b.order) && b.total == |b.order| && b.times == AwaitedTimes(b.order, b.wants)
    requires b.extra == b.matched - |Matching(b.flags, b.negation)|
    ensures b.Waiting() && Reached(b.flags, b.times, clock)
    ensures b.Able() <==> EarlierReached(b.order, b.wants, clock)
  {
    hide AllPassed, EarlierReached, Matching;
    IndexMapIsLast(b.order, 0);
    assert b.order[0] in b.times;
    assert b.flags.Keys == b.states && |b.flags| == |b.flags.Keys|;
  }

  method NewTime(ix: Index, states: seq<Name>, times: seq<nat>, clock: Clock) returns (b: Binding)
    requires ix.Valid() && |states| == |times| > 0 && !AllPassed(states, times, clock)
    modifies ix
    ensures ix.Valid() && fresh(b) && ix.open == old(ix.open) + {b} && ix.known == old(ix.known) + {b}
    ensures forall s :: At(ix.lists, s) == old(At(ix.lists, s)) + Copies(b, Count(states, s))
    ensures b.order == states && b.wants == times && b.made == clock && !b.negation && MadeAt(b)
    ensures b.times == AwaitedTimes(states, times) && Reached(b.flags, b.times, clock)
  {
    hide AllPassed, EarlierReached, Matching, TimeCount, Index.Valid;
    var flags, matched := TimeFlags(states, times, clock);
    b := new Binding(states, times, false, AwaitedTimes(states, times), flags, matched, clock);
    TimeWaits(b, clock);
    hide AwaitedTimes, Reached, Binding.Waiting;
    ix.Insert(b);
  }

  /** WhenTime: an open binding that matches is returned, whatever the clock says; otherwise
      closed at once exactly when all times have passed, or a new binding with exact flags.
      States may repeat: whichever binding is returned, it can ever close if and only if all
      but the last occurrence of each state had passed when it was made. */
  method AwaitTime(ix: Index, states: seq<Name>, times: seq<nat>, clock: Clock) returns (r: Option<Binding>)
    requires ix.Valid() && |states| == |times| > 0 && forall b :: b in ix.open ==> MadeAt(b)
    modifies ix
    ensures ix.Valid() && forall b :: b in ix.open ==> MadeAt(b)
    ensures old(ix.known) <= ix.known && forall b :: b in ix.known ==> b in old(ix.known) || fresh(b)
    ensures r.None? <==> AllPassed(states, times, clock) && forall b :: b in old(ix.open) ==> !Matches(b, states, times)
    ensures r.None? ==> ix.open == old(ix.open)
    ensures r.Some? ==> ix.open == old(ix.open) + {r.value} && Matches(r.value, states, times)
    ensures r.Some? ==> r.value.times == AwaitedTimes(states, times) && MadeAt(r.value)
    ensures r.Some? && r.value !in old(ix.open) ==>
              && (forall b :: b in old(ix.open) ==> !Matches(b, states, times))
              && fresh(r.value) && !r.value.negation && r.value.order == states && r.value.made == clock
              && Reached(r.value.flags, r.value.times, clock)
  {
    hide Matches, Exact, MadeAt, Binding.Counts, AwaitedTimes, Reached;
    r := FindTime(ix, states, times);
    if r.Some? {
      MatchedTimes(r.value, states, times);
      return;
    }
    if forall i :: 0 <= i < |states| ==> Tick(clock, states[i]) >= times[i] {
      return None;
    }
    var b := NewTime(ix, states, times, clock);
    OwnMatch(b, states, times);
    return Some(b);
  }

  lemma OwnMatch(b: Binding, states: seq<Name>, times: seq<nat>)
    requires b.order == states && b.wants == times
    ensures Matches(b, states, times)
  {
  }

  /** A binding that can close closes at the right time: once the last occurrences have
      come, all have. */
  lemma PassedIsReached(states: seq<Name>, times: seq<nat>, clock: Clock)
    requires |states| == |times|
    ensures AllPassed(states, times, clock) <==>
            EarlierReached(states, times, clock) && AllReached(AwaitedTimes(states, times), clock)
  {
    hide IndexMap, AwaitedTimes, Reached;
    var flags := map s | s in AwaitedTimes(states, times) :: Tick(clock, s) >= AwaitedTimes(states, times)[s];
    assert Reached(flags, AwaitedTimes(states, times), clock) by {
      ReachedBy(AwaitedTimes(states, times), clock);
    }
    forall i | 0 <= i < |states| ensures states[i] in flags {
      FlagIsLast(states, times, clock, flags, states[i]);
    }
    forall s | s in flags ensures s in IndexMap(states) && states[IndexMap(states)[s]] == s {
      FlagIsLast(states, times, clock, flags, s);
    }
    if EarlierReached(states, times, clock) && AllReached(AwaitedTimes(states, times), clock) {
      forall i | 0 <= i < |states| ensures Tick(clock, states[i]) >= times[i] {
        LastDecides(states, times, clock, flags, states[i]);
      }
    }
    if AllPassed(states, times, clock) {
      forall s | s in AwaitedTimes(states, times) ensures Tick(clock, s) >= AwaitedTimes(states, times)[s] {
        FlagIsLast(states, times, clock, flags, s);
        assert s in flags && flags[s];
      }
      assert EarlierReached(states, times, clock);
    }
  }

  lemma ReachedBy(times: map<Name, nat>, clock: Clock)
    ensures Reached(map s | s in times :: Tick(clock, s) >= times[s], times, clock)
  {
  }

  // ----- processing

  /** Flags once the states in `done` have been compared with the clock. */
  function TimeProgress(flags: Flags, times: map<Name, nat>, done: set<Name>, clock: Clock): Flags {
    map s | s in flags :: if s in done then flags[s] || (s in times && Tick(clock, s) >= times[s]) else flags[s]
  }

  lemma TimeProgressStep(flags: Flags, times: map<Name, nat>, done: set<Name>, s: Name, clock: Clock)
    requires s !in done
    ensures Touched(Ticked(Tick(clock, s)), times, TimeProgress(flags, times, done, clock), s) ==
            TimeProgress(flags, times, done + {s}, clock)
  {
  }

  lemma TimeProgressStart(flags: Flags, times: map<Name, nat>, clock: Clock)
    ensures TimeProgress(flags, times, {}, clock) == flags
  {
  }

  /** Comparing every state that ticked makes the flags exact. */
  lemma TickedIsEnough(flags: Flags, times: map<Name, nat>, done: set<Name>, before: Clock, clock: Clock)
    requires Monotone(before, clock) && (Reached(flags, times, before) || Reached(flags, times, clock))
    requires forall s :: Tick(before, s) != Tick(clock, s) ==> s in done
    ensures Reached(TimeProgress(flags, times, done, clock), times, clock)
  {
  }

  /** The binding can close, and all its times have come. */
  ghost predicate TimesDue(b: Binding, clock: Clock) {
    b.Able() && AllReached(b.times, clock)
  }

  /** No due binding was made for repeated states. */
  ghost predicate CleanlyDue(f0: Snapshot, clock: Clock) {
    forall b :: b in f0 && TimesDue(b, clock) ==> NoDup(b.order)
  }

  /** Flags that are set were rightly set. */
  ghost predicate Upheld(flags: Flags, times: map<Name, nat>, clock: Clock) {
    flags.Keys == times.Keys && forall s :: s in flags && flags[s] ==> Tick(clock, s) >= times[s]
  }

  lemma UpheldTouched(flags: Flags, times: map<Name, nat>, s: Name, clock: Clock)
    requires Upheld(flags, times, clock)
    ensures Upheld(Touched(Ticked(Tick(clock, s)), times, flags, s), times, clock)
  {
  }

  lemma UpheldFull(flags: Flags, times: map<Name, nat>, clock: Clock)
    requires Upheld(flags, times, clock) && Full(flags, false)
    ensures AllReached(times, clock)
  {
  }

  lemma ReachedUpheld(flags: Flags, times: map<Name, nat>, before: Clock, clock: Clock)
    requires Monotone(before, clock) && (Reached(flags, times, before) || Reached(flags, times, clock))
    ensures Upheld(flags, times, clock)
  {
    forall s | s in flags && flags[s] ensures Tick(clock, s) >= times[s] {
      assert Tick(before, s) <= Tick(clock, s);
    }
  }

  /** The flags a binding had, as awaited before or now. */
  ghost predicate TimeBinding(b: Binding, f0: Snapshot, before: Clock, clock: Clock) {
    b in f0 && !b.negation && (Reached(f0[b], b.times, before) || Reached(f0[b], b.times, clock))
  }

  /** Loop state, whatever has been closed: lists were swept of what was returned, all of it
      due, and flags are right. */
  ghost predicate Sweeping(ix: Index, lists0: Lists<Binding>, f0: Snapshot, ret: seq<Binding>, clock: Clock)
    reads ix, ix.known
  {
    && ix.Sane() && f0.Keys <= ix.known && ix.open == f0.Keys - Elems(ret) && Exact(lists0, f0.Keys)
    && (forall x :: At(ix.lists, x) == Swept(At(lists0, x), x, ret))
    && (forall b :: b in ret ==> b in f0 && TimesDue(b, clock))
    && (forall b :: b in f0 ==> !b.negation && Upheld(b.flags, b.times, clock))
  }

  /** Loop state while only bindings without repetitions were closed. */
  ghost predicate TimeUnderway(
    ix: Index, f0: Snapshot, ret: seq<Binding>, done: set<Name>, before: Clock, clock: Clock)
    reads ix, ix.known
  {
    && ix.Valid() && Monotone(before, clock) && NoDup(ret)
    && (forall b :: b in f0 ==> TimeBinding(b, f0, before, clock))
    && (forall b :: b in ix.open ==> b in f0 && b !in ret)
    && (forall b :: b in f0 && b !in ret ==> b in ix.open)
    && (forall b :: b in ix.open ==> b.flags == TimeProgress(f0[b], b.times, done, clock))
  }

  /** In a cleanly swept index the returned bindings are due, once each, and taken out. */
  lemma TickedCleanly(
    ix: Index, was: Lists<Binding>, all: set<Binding>, f1: Snapshot, f0: Snapshot, so: seq<Binding>,
    done: set<Name>, s: Name, closed: seq<Binding>, before: Clock, clock: Clock)
    requires ix.Sane() && Exact(was, all) && all <= ix.known && all <= f1.Keys
    requires forall b :: b in all ==> !(Full(f1[b], b.negation) && b.Able()) && f1[b].Keys == b.states
    requires ix.open == all - Elems(closed)
    requires (forall b :: b in At(was, s) ==> b in f1) && closed == DueOf(At(was, s), s, Ticked(Tick(clock, s)), f1)
    requires forall b :: b in all ==>
               b.flags == if b in At(was, s) then Touched(Ticked(Tick(clock, s)), b.times, f1[b], s) else f1[b]
    requires forall x :: At(ix.lists, x) == Swept(At(was, x), x, closed)
    requires NoDup(so) && Monotone(before, clock) && s !in done
    requires forall b :: b in f0 ==> TimeBinding(b, f0, before, clock)
    requires forall b :: b in all <==> b in f0 && b !in so
    requires forall b :: b in all ==> f1[b] == TimeProgress(f0[b], b.times, done, clock)
    requires forall b :: b in closed ==> NoDup(b.order)
    ensures TimeUnderway(ix, f0, so + closed, done + {s}, before, clock)
  {
    hide TimeProgress, Monotone, Reached, AllReached, Touched, Exact, Swept, DueOf, Binding.Counts, Index.Sane, Full;
    TouchedOpen(ix, was, all, f1, s, Ticked(Tick(clock, s)), closed);
    hide Index.Valid;
    forall b | b in all ensures b.flags == TimeProgress(f0[b], b.times, done + {s}, clock) {
      TimeProgressStep(f0[b], b.times, done, s, clock);
    }
    assert NoDup(so + closed) by {
      assert forall i :: 0 <= i < |so| ==> so[i] !in closed;
    }
    assert forall b :: b in closed <==> b in Elems(closed);
  }

  /** Compares the bindings of one ticked state with its clock. */
  method ProcessTicked(
    ix: Index, ghost lists0: Lists<Binding>, ghost f0: Snapshot, so: seq<Binding>, ghost done: set<Name>, s: Name,
    ghost before: Clock, clock: Clock)
    returns (ret: seq<Binding>)
    requires Sweeping(ix, lists0, f0, so, clock) && s !in done
    requires CleanlyDue(f0, clock) ==> TimeUnderway(ix, f0, so, done, before, clock)
    modifies ix`lists, ix`open, ix.known
    ensures Sweeping(ix, lists0, f0, ret, clock)
    ensures CleanlyDue(f0, clock) ==> TimeUnderway(ix, f0, ret, done + {s}, before, clock)
  {
    hide TimeProgress, Monotone, Reached, AllReached, Touched, Swept, DueOf, Binding.Counts, Full, NoDup, Upheld;
    ghost var was, all, f1 := ix.lists, ix.open, ix.Flags();
    SaneFlags(ix, f1);
    ListedWereOpen(lists0, f0.Keys, was, so, s);
    hide Exact;
    var closed := ix.TouchState(s, Ticked(Tick(clock, s)));
    ret := so + closed;
    ClosedAreDue(ix, was, f1, f0, s, closed, clock);
    forall x ensures At(ix.lists, x) == Swept(At(lists0, x), x, ret) {
      SweptTwice(At(lists0, x), x, so, closed);
    }
    assert Elems(ret) == Elems(so) + Elems(closed);
    hide Exact, Index.Sane, Elems;
    if CleanlyDue(f0, clock) {
      TickedCleanly(ix, was, all, f1, f0, so, done, s, closed, before, clock);
    }
  }

  lemma SaneFlags(ix: Index, flags: Snapshot)
    requires ix.Sane() && flags == ix.Flags()
    ensures forall b :: b in ix.known ==>
              flags[b].Keys == b.states && (b.matched < b.total ==> !(Full(flags[b], b.negation) && b.Able()))
  {
    hide Full, Binding.Counts;
    forall b | b in ix.known
      ensures flags[b].Keys == b.states && (b.matched < b.total ==> !(Full(flags[b], b.negation) && b.Able()))
    {
      CountedKeys(b);
      TotalReached(b);
    }
  }

  lemma ListedWereOpen(lists0: Lists<Binding>, open: set<Binding>, was: Lists<Binding>, so: seq<Binding>, s: Name)
    requires Exact(lists0, open) && forall x :: At(was, x) == Swept(At(lists0, x), x, so)
    ensures forall b :: b in At(was, s) ==> b in open
  {
    SweptShrinks(At(lists0, s), s, so);
    hide Swept;
  }

  /** Whatever is returned is due, and flags stay right. */
  lemma ClosedAreDue(
    ix: Index, was: Lists<Binding>, f1: Snapshot, f0: Snapshot, s: Name, closed: seq<Binding>, clock: Clock)
    requires f0.Keys <= ix.known == f1.Keys
    requires (forall b :: b in At(was, s) ==> b in f0) && closed == DueOf(At(was, s), s, Ticked(Tick(clock, s)), f1)
    requires forall b :: b in f0 ==> !b.negation && Upheld(f1[b], b.times, clock)
    requires forall b :: b in ix.known ==>
               b.flags == if b in At(was, s) then Touched(Ticked(Tick(clock, s)), b.times, f1[b], s) else f1[b]
    ensures forall b :: b in closed ==> b in f0 && TimesDue(b, clock)
    ensures forall b :: b in f0 ==> !b.negation && Upheld(b.flags, b.times, clock)
  {
    hide DueOf, Upheld, Touched, AllReached, Full;
    forall b | b in f0 ensures Upheld(b.flags, b.times, clock) {
      UpheldTouched(f1[b], b.times, s, clock);
    }
    forall b | b in closed ensures b in f0 && TimesDue(b, clock) {
      DueMember(At(was, s), s, Ticked(Tick(clock, s)), f1, b);
      UpheldFull(b.flags, b.times, clock);
    }
  }

  /** Compares every state whose tick changed, in any order. Only bindings that can close
      and whose times have all come are returned. All of them are, each once, and exactly the
      others stay listed, with exact flags, if and only if none of them was made for repeated
      states. */
  method ProcessWhenTime(ix: Index, before: Clock, clock: Clock) returns (ret: seq<Binding>)
    requires ix.Valid() && before.Keys == clock.Keys && Monotone(before, clock)
    requires forall b :: b in ix.open ==>
               !b.negation && (Reached(b.flags, b.times, before) || Reached(b.flags, b.times, clock))
    modifies ix`lists, ix`open, ix.known
    ensures ix.Sane() && ix.open == old(ix.open) - Elems(ret)
    ensures forall b :: b in ret ==> b in old(ix.open) && TimesDue(b, clock)
    ensures && ix.Valid() && NoDup(ret) && (forall b :: b in old(ix.open) && TimesDue(b, clock) ==> b in ret)
            <==> forall b :: b in old(ix.open) && TimesDue(b, clock) ==> NoDup(b.order)
    ensures ix.Valid() && NoDup(ret) && (forall b :: b in old(ix.open) && TimesDue(b, clock) ==> b in ret) ==>
              forall b :: b in ix.open ==> Reached(b.flags, b.times, clock)
  {
    hide TimeProgress, Reached, AllReached, Binding.Counts, Swept, Exact, Upheld, TimesDue;
    ret := [];
    ghost var lists0 := ix.lists;
    ghost var f0: Snapshot := map b | b in ix.open :: b.flags;
    var ticked := set s | s in before && clock[s] != before[s];
    SweepStarts(ix, f0, before, clock);
    hide Index.Valid, Index.Sane;
    var todo := ticked;
    assert ticked - todo == {};
    while todo != {}
      invariant todo <= ticked && Sweeping(ix, lists0, f0, ret, clock)
      invariant CleanlyDue(f0, clock) ==> TimeUnderway(ix, f0, ret, ticked - todo, before, clock)
    {
      var s :| s in todo;
      ret := ProcessTicked(ix, lists0, f0, ret, ticked - todo, s, before, clock);
      assert ticked - todo + {s} == ticked - (todo - {s});
      todo := todo - {s};
    }
    assert ticked - todo == ticked;
    SweptCleanly(ix, lists0, f0, ret, ticked, before, clock);
  }

  lemma SweepStarts(ix: Index, f0: Snapshot, before: Clock, clock: Clock)
    requires ix.Valid() && Monotone(before, clock) && f0 == map b | b in ix.open :: b.flags
    requires forall b :: b in ix.open ==>
               !b.negation && (Reached(b.flags, b.times, before) || Reached(b.flags, b.times, clock))
    ensures Sweeping(ix, ix.lists, f0, [], clock) && TimeUnderway(ix, f0, [], {}, before, clock)
  {
    hide Reached, Exact, Binding.Counts, Monotone, TimeProgress, Upheld;
    assert f0.Keys == ix.open && Elems<Binding>([]) == {};
    forall b | b in ix.open
      ensures b.flags == TimeProgress(f0[b], b.times, {}, clock) && Upheld(b.flags, b.times, clock)
    {
      TimeProgressStart(f0[b], b.times, clock);
      ReachedUpheld(b.flags, b.times, before, clock);
    }
  }

  /** Where the walk ends: everything due was returned once and the rest is exact, exactly
      when nothing due was made for repeated states. */
  lemma SweptCleanly(
    ix: Index, lists0: Lists<Binding>, f0: Snapshot, ret: seq<Binding>, ticked: set<Name>, before: Clock, clock: Clock)
    requires Sweeping(ix, lists0, f0, ret, clock) && forall s :: Tick(before, s) != Tick(clock, s) ==> s in ticked
    requires CleanlyDue(f0, clock) ==> TimeUnderway(ix, f0, ret, ticked, before, clock)
    ensures && ix.Valid() && NoDup(ret) && (forall b :: b in f0 && TimesDue(b, clock) ==> b in ret)
            <==> CleanlyDue(f0, clock)
    ensures CleanlyDue(f0, clock) ==> forall b :: b in ix.open ==> Reached(b.flags, b.times, clock)
  {
    hide TimeProgress, Reached, AllReached, Binding.Counts, Swept, NoDup, Upheld;
    if CleanlyDue(f0, clock) {
      hide Exact;
      forall b | b in ix.open ensures Reached(b.flags, b.times, clock) && !TimesDue(b, clock) {
        assert TimeBinding(b, f0, before, clock);
        OpenIsShort(b, f0[b], ticked, before, clock);
      }
    } else if ix.Valid() && NoDup(ret) && forall b :: b in f0 && TimesDue(b, clock) ==> b in ret {
      forall b | b in ret ensures b in f0.Keys && b.states == Elems(b.order) {
        CountedKeys(b);
      }
      SweptExact(lists0, f0.Keys, ret, ix.lists);
    }
  }

  /** What stays open after all ticked states were compared is exact, and short if it can close. */
  lemma OpenIsShort(b: Binding, flags: Flags, ticked: set<Name>, before: Clock, clock: Clock)
    requires b.Waiting() && !b.negation && b.flags == TimeProgress(flags, b.times, ticked, clock)
    requires Monotone(before, clock) && (Reached(flags, b.times, before) || Reached(flags, b.times, clock))
    requires forall s :: Tick(before, s) != Tick(clock, s) ==> s in ticked
    ensures Reached(b.flags, b.times, clock) && !(b.Able() && AllReached(b.times, clock))
  {
    hide TimeProgress, Reached, AllReached, Binding.Counts, Monotone;
    TickedIsEnough(flags, b.times, ticked, before, clock);
    if b.Able() {
      WaitingIsNotFull(b);
      NotFullIsShort(b.flags, b.times, clock);
    }
  }

  /** An open binding that can close and has exact flags is short of some time. */
  lemma AbleIsShort(b: Binding, clock: Clock)
    requires b.Waiting() && !b.negation && Reached(b.flags, b.times, clock) && AllReached(b.times, clock)
    ensures !b.Able()
  {
    hide Binding.Counts;
    if b.Able() {
      WaitingIsNotFull(b);
      NotFullIsShort(b.flags, b.times, clock);
    }
  }

  /** Open waits that can close, with exact flags, still miss a time. */
  lemma OpenTimesAreShort(ix: Index, clock: Clock)
    requires ix.Valid() && forall b :: b in ix.open ==> !b.negation && Reached(b.flags, b.times, clock)
    ensures forall b :: b in ix.open && b.Able() ==> exists s :: s in b.times && Tick(clock, s) < b.times[s]
  {
    hide Reached, Binding.Counts;
    forall b | b in ix.open && b.Able() ensures exists s :: s in b.times && Tick(clock, s) < b.times[s] {
      if AllReached(b.times, clock) {
        AbleIsShort(b, clock);
      }
    }
  }

  lemma NotFullIsShort(flags: Flags, times: map<Name, nat>, clock: Clock)
    requires Reached(flags, times, clock) && !Full(flags, false)
    ensures !AllReached(times, clock)
  {
  }

  // ----- sums

  /** Awaited sums, strictly ascending; each has one channel. */
  ghost predicate Ascending(sums: seq<nat>) {
    forall i, j :: 0 <= i < j < |sums| ==> sums[i] < sums[j]
  }

  /** WhenTimeSum: the channel already open for this sum, closed at once when it has been
      reached, otherwise a new one at its place in the list. */
  method AwaitSum(sums: seq<nat>, sum: nat, mtime: nat) returns (r: seq<nat>, closed: bool)
    requires Ascending(sums)
    ensures Ascending(r)
    ensures closed <==> mtime !in sums && sum >= mtime
    ensures Elems(r) == Elems(sums) + if closed then {} else {mtime}
  {
    if mtime in sums {
      assert Elems(sums) == Elems(sums) + {mtime};
      return sums, false;
    }
    if sum >= mtime {
      return sums, true;
    }
    var idx := 0;
    while idx < |sums| && sums[idx] < mtime
      invariant 0 <= idx <= |sums| && forall i :: 0 <= i < idx ==> sums[i] < mtime
    {
      idx := idx + 1;
    }
    r, closed := sums[..idx] + [mtime] + sums[idx..], false;
    assert sums == sums[..idx] + sums[idx..];
  }

  lemma WithoutHead(s: seq<nat>)
    requires s != []
    ensures Without(s, s[0]) == s[1..]
  {
  }

  /** Walks the list up to the first sum that is not reached: precisely the reached ones
      are closed, and the rest stays in order. */
  method ProcessWhenTimeSum(sums: seq<nat>, sum: nat) returns (rest: seq<nat>, due: seq<nat>)
    requires Ascending(sums)
    ensures sums == due + rest && Ascending(rest)
    ensures forall t :: t in sums ==> (t in due <==> t <= sum)
    ensures forall t :: t in rest ==> t > sum
  {
    rest, due := sums, [];
    var i := 0;
    while i < |sums|
      invariant 0 <= i <= |sums| && due == sums[..i] && rest == sums[i..]
      invariant forall k :: 0 <= k < i ==> sums[k] <= sum
    {
      if sums[i] > sum {
        break;
      }
      WithoutHead(rest);
      hide Without;
      rest, due := Without(rest, sums[i]), due + [sums[i]];
      i := i + 1;
    }
    SplitAt(sums, i, sum);
    hide Ascending;
    assert sums == sums[..i] + sums[i..];
  }

  lemma SplitAt(sums: seq<nat>, i: nat, sum: nat)
    requires Ascending(sums) && i <= |sums| && (i == |sums| || sums[i] > sum)
    requires forall k :: 0 <= k < i ==> sums[k] <= sum
    ensures Ascending(sums[i..])
    ensures forall t :: t in sums[..i] ==> t <= sum
    ensures forall t :: t in sums[i..] ==> t > sum
  {
  }
}
