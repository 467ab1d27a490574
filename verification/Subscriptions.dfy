/** Subscriptions to active states: When and WhenNot, opened at any time and processed
    after every accepted transition. */
module Subscriptions {
  import opened Slices
  import opened Schemas
  import opened Bindings
  import opened Indexes

  // ----- opening

  /** Flags for a list of states, and how many of them match. */
  method BuildFlags(states: seq<Name>, on: set<Name>, negation: bool) returns (flags: map<Name, bool>, matched: int)
    requires NoDup(states)
    ensures flags == map s | s in states :: s in on
    ensures matched == |Matching(flags, negation)| && |flags| == |states|
  {
    flags, matched := map[], 0;
    assert Matching(flags, negation) == {};
    hide Matching;
    for i := 0 to |states|
      invariant forall s :: s in flags <==> s in states[..i]
      invariant forall s :: s in flags ==> flags[s] == (s in on)
      invariant matched == |Matching(flags, negation)|
    {
      var s := states[i];
      assert states[..i + 1] == states[..i] + [s] && s !in states[..i];
      CountInsert(flags, negation, s, s in on);
      if (s in on) != negation {
        matched := matched + 1;
      }
      flags := flags[s := s in on];
    }
    assert states[..|states|] == states;
    NoDupCard(states);
    assert flags.Keys == Elems(states) && |flags| == |flags.Keys|;
  }

  lemma CountInsert(flags: map<Name, bool>, negation: bool, s: Name, on: bool)
    requires s !in flags
    ensures |Matching(flags[s := on], negation)| == |Matching(flags, negation)| + if on != negation then 1 else 0
  {
    var more := flags[s := on];
    var was, now := Matching(flags, negation), Matching(more, negation);
    assert forall x :: x in flags ==> x in more && more[x] == flags[x];
    if on != negation {
      assert now == was + {s};
    } else {
      assert now == was;
    }
  }

  /** When (or WhenNot): closed at once when all states are already active (inactive),
      otherwise an open binding for exactly these states, an existing one if there is one. */
  method Await(ix: Index, states: seq<Name>, active: seq<Name>, negation: bool) returns (r: Option<Binding>)
    requires ix.Valid() && NoDup(states)
    modifies ix
    ensures ix.Valid()
    ensures r.None? <==> forall s :: s in states ==> (s in active) != negation
    ensures r.None? ==> ix.open == old(ix.open)
    ensures old(ix.known) <= ix.known && forall b :: b in ix.known ==> b in old(ix.known) || fresh(b)
    ensures r.Some? ==> ix.open == old(ix.open) + {r.value} && r.value.negation == negation
    ensures r.Some? ==> r.value.states == Elems(states)
    ensures r.Some? && r.value !in old(ix.open) ==>
              fresh(r.value) && r.value.times == map[] && NoDup(r.value.order) && Tracks(r.value.flags, active)
  {
    if forall s :: s in states ==> (s in active) != negation {
      return None;
    }
    assert states != [];
    var known := At(ix.lists, states[0]);
    for i := 0 to |known| {
      if known[i].negation == negation && known[i].flags.Keys == Elems(states) {
        ListedIsOpen(ix.lists, ix.open, states[0], known[i]);
        return Some(known[i]);
      }
    }
    var flags, matched := BuildFlags(states, Elems(active), negation);
    CountFull(flags, negation);
    assert !Full(flags, negation) by {
      var s :| s in states && (s in active) == negation;
      assert flags[s] == (s in Elems(active));
    }
    NoDupCard(states);
    hide Full, Matching;
    var b := new Binding(states, [], negation, map[], flags, matched, map[]);
    ix.Insert(b);
    return Some(b);
  }

  // ----- processing

  /** What a transition reports: the states it deactivated, and states that are active
      after it, among them all that it activated. */
  ghost predicate Report(activated: seq<Name>, deactivated: seq<Name>, before: seq<Name>, now: seq<Name>) {
    && NoDup(activated) && NoDup(deactivated)
    && (forall s :: s in deactivated <==> s in before && s !in now)
    && (forall s :: s in activated ==> s in now)
    && (forall s :: s in now && s !in before ==> s in activated)
  }

  /** The flags tell which states are active. */
  ghost predicate Tracks(flags: map<Name, bool>, active: seq<Name>) {
    forall s :: s in flags ==> (flags[s] <==> s in active)
  }

  /** WhenNot closes when all its states are inactive now; When closes when each of its
      states was active or has been activated, even if another was deactivated meanwhile. */
  ghost predicate Closes(negation: bool, flags: map<Name, bool>, activated: seq<Name>, now: seq<Name>) {
    if negation then forall s :: s in flags ==> s !in now
    else forall s :: s in flags ==> flags[s] || s in activated
  }

  /** Flags once the states in `done` have been processed. */
  function Progress(flags: map<Name, bool>, done: seq<Name>, activated: seq<Name>): map<Name, bool> {
    map s | s in flags :: if s in done then s in activated else flags[s]
  }

  lemma ProgressStep(flags: map<Name, bool>, done: seq<Name>, s: Name, activated: seq<Name>)
    ensures Touched(Switched(s in activated), map[], Progress(flags, done, activated), s) ==
            Progress(flags, done + [s], activated)
  {
  }

  /** A binding that becomes full is due, whichever state completed it. */
  lemma FullIsDue(negation: bool, flags: map<Name, bool>, activated: seq<Name>, deactivated: seq<Name>,
                  k: nat, before: seq<Name>, now: seq<Name>)
    requires Report(activated, deactivated, before, now)
    requires Tracks(flags, before) || Tracks(flags, now)
    requires k < |activated + deactivated| && (activated + deactivated)[k] in flags
    requires Full(Progress(flags, (activated + deactivated)[..k + 1], activated), negation)
    ensures Closes(negation, flags, activated, now)
  {
    var all := activated + deactivated;
    var done := all[..k + 1];
    var p := Progress(flags, done, activated);
    assert all[k] in done;
    if negation {
      assert !p[all[k]];
      assert k >= |activated|;
      forall s | s in flags ensures s !in now {
        assert !p[s];
        assert forall i :: 0 <= i < |activated| ==> done[i] == activated[i];
        assert s in activated ==> s in done;
        assert s in done && s !in activated ==> s in deactivated;
      }
    } else {
      forall s | s in flags ensures flags[s] || s in activated {
        assert p[s];
      }
    }
  }

  /** Once all activations are processed, a When that is still open is not due. */
  lemma OpenIsNotDue(flags: map<Name, bool>, activated: seq<Name>, now: seq<Name>)
    requires !Full(Progress(flags, activated, activated), false)
    ensures !Closes(false, flags, activated, now)
  {
  }

  /** At the end the flags track the active states. */
  lemma ProgressTracks(flags: map<Name, bool>, activated: seq<Name>, deactivated: seq<Name>,
                       before: seq<Name>, now: seq<Name>)
    requires Report(activated, deactivated, before, now)
    requires Tracks(flags, before) || Tracks(flags, now)
    ensures Tracks(Progress(flags, activated + deactivated, activated), now)
  {
  }

  lemma WaitingIsNotFull(b: Binding)
    requires b.Waiting() && b.Able()
    ensures !Full(b.flags, b.negation)
  {
    CountFull(b.flags, b.negation);
  }

  type Flags = map<Name, bool>

  /** Loop state: flags as they were, due bindings returned so far, states done so far. */
  ghost predicate Underway(
    ix: Index, f0: map<Binding, Flags>, ret: seq<Binding>, k: nat,
    activated: seq<Name>, deactivated: seq<Name>, before: seq<Name>, now: seq<Name>)
    reads ix, ix.known
  {
    && ix.Valid() && Report(activated, deactivated, before, now) && k <= |activated + deactivated|
    && (forall b :: b in f0 ==> b.times == map[] && NoDup(b.order) && b.Able())
    && (forall b :: b in f0 ==> Tracks(f0[b], before) || Tracks(f0[b], now))
    && NoDup(ret)
    && (forall b :: b in ix.open ==> b in f0 && b !in ret)
    && (forall b :: b in f0 && b !in ret ==> b in ix.open)
    && (forall b :: b in ix.open ==> b.flags == Progress(f0[b], (activated + deactivated)[..k], activated))
    && (forall b :: b in ret ==> b in f0 && Closes(b.negation, f0[b], activated, now))
    && (k >= |activated| ==>
          forall b :: b in ix.open && !b.negation ==> !Closes(false, f0[b], activated, now))
  }

  lemma OpenNow(ix: Index, f0: map<Binding, Flags>, b: Binding, activated: seq<Name>, now: seq<Name>)
    requires ix.Valid() && b in ix.open && b in f0 && !b.negation && b.Able()
    requires b.flags == Progress(f0[b], activated, activated)
    ensures !Closes(false, f0[b], activated, now)
  {
    WaitingIsNotFull(b);
    OpenIsNotDue(f0[b], activated, now);
  }

  method ProcessNext(
    ix: Index, ghost f0: map<Binding, Flags>, so: seq<Binding>, k: nat,
    activated: seq<Name>, deactivated: seq<Name>, ghost before: seq<Name>, ghost now: seq<Name>)
    returns (ret: seq<Binding>)
    requires Underway(ix, f0, so, k, activated, deactivated, before, now) && k < |activated + deactivated|
    modifies ix`lists, ix`open, ix.known
    ensures Underway(ix, f0, ret, k + 1, activated, deactivated, before, now)
    ensures forall b :: b in ix.open ==> b in old(ix.open)
  {
    hide Progress, Report, Closes, Tracks;
    var all := activated + deactivated;
    var s := all[k];
    ghost var was := ix.open;
    var closed := ix.TouchOpen(s, Switched(s in activated));
    ret := so + closed;
    assert all[..k + 1] == all[..k] + [s];
    forall b | b in was ensures b.flags == Progress(f0[b], all[..k + 1], activated) {
      ProgressStep(f0[b], all[..k], s, activated);
    }
    forall b | b in closed ensures Closes(b.negation, f0[b], activated, now) {
      assert s in f0[b] by { ProgressKeys(f0[b], all[..k + 1], activated); }
      FullIsDue(b.negation, f0[b], activated, deactivated, k, before, now);
    }
    assert NoDup(ret) by {
      assert forall i :: 0 <= i < |so| ==> so[i] !in closed;
    }
    if k + 1 == |activated| {
      assert all[..k + 1] == activated;
      forall b | b in ix.open && !b.negation ensures !Closes(false, f0[b], activated, now) {
        OpenNow(ix, f0, b, activated, now);
      }
    }
  }

  lemma ProgressKeys(flags: map<Name, bool>, done: seq<Name>, activated: seq<Name>)
    ensures Progress(flags, done, activated).Keys == flags.Keys
  {
  }

  lemma ProgressStart(flags: map<Name, bool>, activated: seq<Name>)
    ensures Progress(flags, [], activated) == flags
  {
  }

  /** Processes a reported transition, activated states first. Bindings made before it and
      bindings made by its final handlers are both counted once: afterwards the flags of
      every open binding are exact, and exactly the due bindings are returned, each once. */
  method ProcessWhen(
    ix: Index, activated: seq<Name>, deactivated: seq<Name>, ghost before: seq<Name>, ghost now: seq<Name>)
    returns (ret: seq<Binding>)
    requires ix.Valid() && Report(activated, deactivated, before, now)
    requires forall b :: b in ix.open ==>
               b.times == map[] && NoDup(b.order) && (Tracks(b.flags, before) || Tracks(b.flags, now))
    modifies ix`lists, ix`open, ix.known
    ensures ix.Valid() && NoDup(ret)
    ensures forall b :: b in ret <==> b in old(ix.open) && Closes(b.negation, old(b.flags), activated, now)
    ensures forall b :: b in ix.open <==> b in old(ix.open) && b !in ret
    ensures forall b :: b in ix.open ==> Tracks(b.flags, now)
  {
    hide Progress, Report, Closes, Tracks, Exact, Binding.Counts;
    ret := [];
    ghost var f0 := map b | b in ix.open :: b.flags;
    forall b | b in ix.open ensures b.flags == Progress(f0[b], [], activated) && b.Able() {
      ProgressStart(f0[b], activated);
      NoDupIsAble(b);
    }
    if activated == [] {
      forall b | b in ix.open && !b.negation ensures !Closes(false, f0[b], activated, now) {
        OpenNow(ix, f0, b, activated, now);
      }
    }
    assert (activated + deactivated)[..0] == [];
    for k := 0 to |activated + deactivated|
      invariant Underway(ix, f0, ret, k, activated, deactivated, before, now)
      invariant ix.open <= old(ix.open)
    {
      ret := ProcessNext(ix, f0, ret, k, activated, deactivated, before, now);
    }
    assert (activated + deactivated)[..|activated + deactivated|] == activated + deactivated;
    forall b | b in ix.open
      ensures Tracks(b.flags, now) && !Closes(b.negation, f0[b], activated, now)
    {
      OpenAtEnd(b, f0[b], activated, deactivated, before, now);
    }
  }

  /** What is still open after the walk is exact and not due. */
  lemma OpenAtEnd(
    b: Binding, flags: Flags, activated: seq<Name>, deactivated: seq<Name>, before: seq<Name>, now: seq<Name>)
    requires b.Waiting() && b.Able() && b.flags == Progress(flags, activated + deactivated, activated)
    requires Report(activated, deactivated, before, now) && (Tracks(flags, before) || Tracks(flags, now))
    requires !b.negation ==> !Closes(false, flags, activated, now)
    ensures Tracks(b.flags, now) && !Closes(b.negation, flags, activated, now)
  {
    hide Binding.Counts, Report, Closes, Tracks;
    ProgressTracks(flags, activated, deactivated, before, now);
    WaitingIsNotFull(b);
    ProgressKeys(flags, activated + deactivated, activated);
    OpenIsNotDueNow(b.negation, b.flags, flags, activated, now);
  }

  /** A WhenNot that is still open has an active state. */
  lemma OpenIsNotDueNow(
    negation: bool, flags: map<Name, bool>, f0: map<Name, bool>, activated: seq<Name>, now: seq<Name>)
    requires Tracks(flags, now) && flags.Keys == f0.Keys && !Full(flags, negation)
    requires !negation ==> !Closes(false, f0, activated, now)
    ensures !Closes(negation, f0, activated, now)
  {
  }

  /** Open waits whose flags are exact are not satisfied. */
  lemma OpenAreUnsatisfied(ix: Index, active: seq<Name>)
    requires ix.Valid() && forall b :: b in ix.open ==> NoDup(b.order) && Tracks(b.flags, active)
    ensures forall b :: b in ix.open ==> exists s :: s in b.states && (s in active) == b.negation
  {
    hide Tracks, Binding.Counts;
    forall b | b in ix.open ensures exists s :: s in b.states && (s in active) == b.negation {
      NoDupIsAble(b);
      WaitingIsNotFull(b);
      CountedKeys(b);
      ShortState(b.negation, b.flags, active);
    }
  }

  lemma ShortState(negation: bool, flags: map<Name, bool>, active: seq<Name>)
    requires Tracks(flags, active) && !Full(flags, negation)
    ensures exists s :: s in flags.Keys && (s in active) == negation
  {
  }

  lemma OpenKeys(ix: Index)
    requires ix.Valid()
    ensures forall b :: b in ix.open ==> b.flags.Keys == b.states
  {
  }

  /** What closes is satisfied now, or would be with what was active before. */
  lemma ClosedIsSatisfied(
    negation: bool, flags: map<Name, bool>, activated: seq<Name>, deactivated: seq<Name>, before: seq<Name>,
    now: seq<Name>)
    requires Report(activated, deactivated, before, now) && (Tracks(flags, before) || Tracks(flags, now))
    requires Closes(negation, flags, activated, now)
    ensures forall s :: s in flags ==> if negation then s !in now else s in before || s in now
  {
  }
}
