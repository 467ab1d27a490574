/** Closure under Require over whole runs, failed final phases included. */
module Recovery {
  import opened Slices
  import opened Schemas
  import opened Resolvers
  import opened Transitions
  import opened TransitionFacts

  /** The final phase failed in an entered state and was recovered. */
  ghost predicate Fails(res: Resolver, core: Core, mut: Mutation, o: Outcome) {
    !mut.isCheck && Passes(res, core, mut, o) && o.finals.Failed? && o.finals.times > 0
  }

  /** A called Multi state is entered again while it is active. */
  predicate Reentered(schema: Schema, active: seq<Name>, called: seq<Name>, n: Name) {
    n in active && n in called && Def(schema, n).multi
  }

  /** An active state stays as it is and requires an active state that is entered again
      and whose final handler is among the `lost` ones. */
  ghost predicate Endangers(
    schema: Schema, active: seq<Name>, called: seq<Name>, target: seq<Name>, lost: seq<Name>)
  {
    exists n, d ::
      && n in target && n in active && !Reentered(schema, active, called, n)
      && d in lost && d in target && Reentered(schema, active, called, d) && d in Def(schema, n).require
  }

  /** An entered state before the k-th requires one from the k-th on. */
  ghost predicate Cuts(schema: Schema, enters: seq<Name>, k: nat) {
    exists i, j :: 0 <= i < k <= j < |enters| && enters[j] in Def(schema, enters[i]).require
  }

  /** No entered state requires one that is entered after it. */
  ghost predicate InOrder(schema: Schema, enters: seq<Name>) {
    forall i, j :: 0 <= i < j < |enters| ==> enters[j] !in Def(schema, enters[i]).require
  }

  lemma CutsOutOfOrder(schema: Schema, enters: seq<Name>)
    ensures InOrder(schema, enters) <==> forall k: nat :: k < |enters| ==> !Cuts(schema, enters, k)
  {
    if i, j :| 0 <= i < j < |enters| && enters[j] in Def(schema, enters[i]).require {
      assert Cuts(schema, enters, j);
    }
  }

  /** After a failure exactly the targets that were not dropped are active. */
  lemma FailedActive(res: Resolver, core: Core, mut: Mutation, o: Outcome)
    requires Fails(res, core, mut, o)
    ensures forall n :: n in Next(res, core, mut, o).active <==>
                        n in FinalTarget(res, core, mut, o) && n !in DroppedBy(res, core, mut, o)
  {
    RecoveredShrinks(
      res.schema, Committed(res, core, mut, o), mut.called, DroppedBy(res, core, mut, o), o.finals.times);
  }

  /** The handlers that did not complete are the failing one and those after it; a failing
      exit handler, or the handler that comes after all states, loses none. */
  lemma FailedExactly(res: Resolver, core: Core, mut: Mutation, o: Outcome)
    requires Fails(res, core, mut, o)
    ensures var target := FinalTarget(res, core, mut, o);
            var exits, enters := Exits(res, core.active, target), Enters(res.schema, core.active, mut.called, target);
            forall n :: n in Next(res, core, mut, o).active <==>
                        && n in target
                        && forall j :: 0 <= j < |enters| && |exits| <= o.finals.step <= |exits| + j ==> enters[j] != n
  {
    FailedActive(res, core, mut, o);
    var target := FinalTarget(res, core, mut, o);
    var exits, enters := Exits(res, core.active, target), Enters(res.schema, core.active, mut.called, target);
    var lost, first := DroppedBy(res, core, mut, o), o.finals.step - |exits|;
    hide Fails, Next, FinalTarget, Exits, Enters;
    forall n
      ensures n in lost <==> exists j :: 0 <= j < |enters| && |exits| <= o.finals.step <= |exits| + j && enters[j] == n
    {
      if 0 <= first {
        if j :| first <= j < |enters| && enters[j] == n {
          assert lost[j - first] == n;
        }
      }
    }
  }

  lemma RecoverOnceTicks(schema: Schema, core: Core, called: seq<Name>, dropped: seq<Name>, n: Name)
    ensures Tick(RecoverOnce(schema, core, called, dropped).clock, n) ==
            Tick(core.clock, n) +
            if n !in core.active then 0
            else if n in dropped then 1
            else if n in called && Def(schema, n).multi then 2 else 0
  {
    hide SetActive;
    SetActiveTicks(schema, core, called, Diff(core.active, dropped), n);
  }

  lemma {:induction false} RecoveredTicks(
    schema: Schema, core: Core, called: seq<Name>, dropped: seq<Name>, times: nat, n: Name)
    ensures Tick(Recovered(schema, core, called, dropped, times).clock, n) ==
            Tick(core.clock, n) +
            if n !in core.active || times == 0 then 0
            else if n in dropped then 1
            else if n in called && Def(schema, n).multi then 2 * times else 0
    decreases times
  {
    hide RecoverOnce, Def, Tick;
    if times > 0 {
      RecoveredTicks(schema, core, called, dropped, times - 1, n);
      RecoveredShrinks(schema, core, called, dropped, times - 1);
      RecoverOnceTicks(schema, Recovered(schema, core, called, dropped, times - 1), called, dropped, n);
    }
  }

  /** Ticks after a failure: a state that entered and was dropped has ticked twice, and every
      recovery ticks an active Multi state that is called by 2 again. */
  lemma FailedTicks(res: Resolver, core: Core, mut: Mutation, o: Outcome, n: Name)
    requires Fails(res, core, mut, o)
    ensures var target, next := FinalTarget(res, core, mut, o), Next(res, core, mut, o);
            var again := n in mut.called && Def(res.schema, n).multi;
            var entered := if n !in core.active then 1 else if again then 2 else 0;
            Tick(next.clock, n) == Tick(core.clock, n) +
              if n in next.active then entered + (if again then 2 * o.finals.times else 0)
              else if n in target then entered + 1
              else if n in core.active then 1 else 0
  {
    var target, lost := FinalTarget(res, core, mut, o), DroppedBy(res, core, mut, o);
    var committed := Committed(res, core, mut, o);
    FailedActive(res, core, mut, o);
    SetActiveTicks(res.schema, core, mut.called, target, n);
    RecoveredTicks(res.schema, committed, mut.called, lost, o.finals.times, n);
    hide FinalTarget, DroppedBy, Passes, SetActive, Recovered;
    assert committed.active == target by {
      SetActiveTarget(res.schema, core, mut.called, target);
    }
  }

  lemma SetActiveTarget(schema: Schema, core: Core, called: seq<Name>, target: seq<Name>)
    ensures SetActive(schema, core, called, target).active == target
  {
  }

  lemma EntersMembers(schema: Schema, active: seq<Name>, called: seq<Name>, target: seq<Name>)
    requires NoDup(target)
    ensures NoDup(Enters(schema, active, called, target))
    ensures forall n :: n in Enters(schema, active, called, target) <==>
                        n in target && (n !in active || Reentered(schema, active, called, n))
  {
    OnlyNoDup(target, set n | n in target && (n !in active || (Def(schema, n).multi && n in called)));
  }

  lemma Suffix(enters: seq<Name>, k: nat, n: Name)
    requires NoDup(enters) && k <= |enters|
    ensures n in enters[k..] <==> exists j :: k <= j < |enters| && enters[j] == n
    ensures n in enters <==> n in enters[k..] || exists i :: 0 <= i < k && enters[i] == n
    ensures forall i :: 0 <= i < k ==> enters[i] !in enters[k..]
  {
    assert enters == enters[..k] + enters[k..];
    if n in enters {
      var i := IndexOf(enters, n);
      assert i >= k ==> enters[k..][i - k] == n;
    }
  }

  /** A requirement that is lost shows in one of two ways. */
  lemma LostRequirement(
    schema: Schema, target: seq<Name>, active: seq<Name>, called: seq<Name>, enters: seq<Name>, k: nat, n: Name,
    r: Name)
    requires NoDup(target) && Closed(schema, Elems(active)) && enters == Enters(schema, active, called, target)
    requires k <= |enters| && n in target && n !in enters[k..] && r in Def(schema, n).require && r in enters[k..]
    ensures Cuts(schema, enters, k) || Endangers(schema, active, called, target, enters[k..])
  {
    EntersMembers(schema, active, called, target);
    hide Enters;
    Suffix(enters, k, n);
    Suffix(enters, k, r);
    if n !in enters {
      assert n in Elems(active);
      assert r in Elems(active);
    }
  }

  lemma KeptAreClosed(
    schema: Schema, target: seq<Name>, active: seq<Name>, called: seq<Name>, enters: seq<Name>, k: nat, kept: seq<Name>)
    requires NoDup(target) && Closed(schema, Elems(active)) && Closed(schema, Elems(target))
    requires enters == Enters(schema, active, called, target) && k <= |enters|
    requires forall n :: n in kept <==> n in target && n !in enters[k..]
    ensures Closed(schema, Elems(kept)) <==>
            !Endangers(schema, active, called, target, enters[k..]) && !Cuts(schema, enters, k)
  {
    EntersMembers(schema, active, called, target);
    hide Enters;
    assert forall n :: n in kept <==> n in Elems(kept);
    if !Endangers(schema, active, called, target, enters[k..]) && !Cuts(schema, enters, k) {
      hide Endangers, Cuts;
      forall n, r | n in kept && r in Def(schema, n).require ensures r in kept {
        assert n in Elems(target);
        assert r in Elems(target);
        if r in enters[k..] {
          LostRequirement(schema, target, active, called, enters, k, n, r);
        }
      }
    } else if Cuts(schema, enters, k) {
      var i, j :| 0 <= i < k <= j < |enters| && enters[j] in Def(schema, enters[i]).require;
      Suffix(enters, k, enters[j]);
      assert enters[i] in enters;
      assert enters[i] in Elems(kept) && enters[j] !in Elems(kept);
    } else {
      var n, d :|
        && n in target && n in active && !Reentered(schema, active, called, n)
        && d in enters[k..] && d in target && Reentered(schema, active, called, d) && d in Def(schema, n).require;
      Suffix(enters, k, n);
      assert n in Elems(kept) && d !in Elems(kept);
    }
  }

  /** The entered state whose final handler failed, or their number if it was none. */
  ghost function FirstLost(res: Resolver, core: Core, mut: Mutation, o: Outcome): (k: nat)
    requires o.finals.Failed?
    ensures var enters := Enters(res.schema, core.active, mut.called, FinalTarget(res, core, mut, o));
            k <= |enters| && DroppedBy(res, core, mut, o) == enters[k..]
  {
    var target := FinalTarget(res, core, mut, o);
    var enters := Enters(res.schema, core.active, mut.called, target);
    var first := o.finals.step - |Exits(res, core.active, target)|;
    if 0 <= first < |enters| then first else |enters|
  }

  ghost function EntersOf(res: Resolver, core: Core, mut: Mutation, o: Outcome): seq<Name> {
    Enters(res.schema, core.active, mut.called, FinalTarget(res, core, mut, o))
  }

  /** A failed final phase keeps the active set closed under Require if and only if no
      active state that stays as it is requires an active Multi state that is called again
      and whose final handler did not complete, and no entered state that completed
      requires one that did not. */
  lemma RecoveryClosed(res: Resolver, core: Core, mut: Mutation, o: Outcome)
    requires Sound(res) && Closed(res.schema, Elems(core.active)) && Fails(res, core, mut, o)
    ensures Closed(res.schema, Elems(Next(res, core, mut, o).active)) <==>
            && !Endangers(res.schema, core.active, mut.called, FinalTarget(res, core, mut, o),
                          DroppedBy(res, core, mut, o))
            && !Cuts(res.schema, EntersOf(res, core, mut, o), FirstLost(res, core, mut, o))
  {
    var target := FinalTarget(res, core, mut, o);
    assert NoDup(target) && Closed(res.schema, Elems(target));
    hide Sound, Closed, Endangers, Cuts;
    FailedActive(res, core, mut, o);
    var k := FirstLost(res, core, mut, o);
    hide Next, Passes, FinalTarget, Enters, FirstLost, DroppedBy;
    KeptAreClosed(res.schema, target, core.active, mut.called, EntersOf(res, core, mut, o), k,
      Next(res, core, mut, o).active);
  }

  function FailedAt(o: Outcome, step: nat, times: nat): Outcome {
    o.(finals := Failed(step, times))
  }

  /** Whichever final handler fails, closure survives: entered states come in order, and no
      targeted active state that is not called again requires one that is. */
  ghost predicate SafeToFail(res: Resolver, core: Core, mut: Mutation, o: Outcome) {
    && !Endangers(res.schema, core.active, mut.called, FinalTarget(res, core, mut, o), FinalTarget(res, core, mut, o))
    && InOrder(res.schema, EntersOf(res, core, mut, o))
  }

  /** The same for a caller who does not know which handler will fail, in terms of the
      planned targets alone, whatever the resolver's order. */
  lemma EveryFailureCloses(res: Resolver, core: Core, mut: Mutation, o: Outcome)
    requires Sound(res) && Closed(res.schema, Elems(core.active)) && !mut.isCheck && Passes(res, core, mut, o)
    ensures (forall step, times :: Closed(res.schema, Elems(Next(res, core, mut, FailedAt(o, step, times)).active)))
            <==> SafeToFail(res, core, mut, o)
  {
    hide Sound, Closed, Endangers, Cuts, InOrder, Next, Passes, FinalTarget, Enters;
    if SafeToFail(res, core, mut, o) {
      forall step: nat, times: nat
        ensures Closed(res.schema, Elems(Next(res, core, mut, FailedAt(o, step, times)).active))
      {
        SameUntilFinals(res, core, mut, o, step, times);
        SafeFailure(res, core, mut, FailedAt(o, step, times));
      }
    } else {
      var step := BreakingStep(res, core, mut, o);
      assert !Closed(res.schema, Elems(Next(res, core, mut, FailedAt(o, step, 1)).active));
    }
  }

  lemma SameUntilFinals(res: Resolver, core: Core, mut: Mutation, o: Outcome, step: nat, times: nat)
    ensures Passes(res, core, mut, FailedAt(o, step, times)) <==> Passes(res, core, mut, o)
    ensures FinalTarget(res, core, mut, FailedAt(o, step, times)) == FinalTarget(res, core, mut, o)
    ensures EntersOf(res, core, mut, FailedAt(o, step, times)) == EntersOf(res, core, mut, o)
  {
    hide Enters;
  }

  /** Where it is not safe, this is a handler whose failure breaks closure: the first one
      entered, or one that an earlier entered state requires. */
  lemma BreakingStep(res: Resolver, core: Core, mut: Mutation, o: Outcome) returns (step: nat)
    requires Sound(res) && Closed(res.schema, Elems(core.active)) && !mut.isCheck && Passes(res, core, mut, o)
    requires !SafeToFail(res, core, mut, o)
    ensures !Closed(res.schema, Elems(Next(res, core, mut, FailedAt(o, step, 1)).active))
  {
    var enters, target := EntersOf(res, core, mut, o), FinalTarget(res, core, mut, o);
    assert NoDup(target);
    hide Sound, Closed, Passes, Next, FinalTarget, Enters, FirstLost;
    var exits := |Exits(res, core.active, target)|;
    if !InOrder(res.schema, enters) {
      CutsOutOfOrder(res.schema, enters);
      var k :| 0 <= k < |enters| && Cuts(res.schema, enters, k);
      step := exits + k;
      LostFrom(res, core, mut, o, k);
    } else {
      step := exits;
      EntersMembers(res.schema, core.active, mut.called, target);
      LostFrom(res, core, mut, o, 0);
      assert enters[0..] == enters;
    }
    SameUntilFinals(res, core, mut, o, step, 1);
    hide Endangers, Cuts;
    RecoveryClosed(res, core, mut, FailedAt(o, step, 1));
  }

  lemma LostFrom(res: Resolver, core: Core, mut: Mutation, o: Outcome, k: nat)
    requires k <= |EntersOf(res, core, mut, o)|
    ensures var failed := FailedAt(o, |Exits(res, core.active, FinalTarget(res, core, mut, o))| + k, 1);
            && FirstLost(res, core, mut, failed) == k
            && DroppedBy(res, core, mut, failed) == EntersOf(res, core, mut, o)[k..]
  {
    SameUntilFinals(res, core, mut, o, |Exits(res, core.active, FinalTarget(res, core, mut, o))| + k, 1);
    hide FinalTarget, Enters, Exits;
  }

  /** A failure where that is safe keeps the active set closed. */
  lemma SafeFailure(res: Resolver, core: Core, mut: Mutation, o: Outcome)
    requires Sound(res) && Closed(res.schema, Elems(core.active))
    requires o.finals.Failed? && SafeToFail(res, core, mut, o)
    ensures Closed(res.schema, Elems(Next(res, core, mut, o).active))
  {
    assert Closed(res.schema, Elems(FinalTarget(res, core, mut, o)));
    hide Sound, Closed, Passes, FinalTarget, DroppedBy, Enters, FirstLost;
    if Fails(res, core, mut, o) {
      CutsOutOfOrder(res.schema, EntersOf(res, core, mut, o));
      RecoveryClosed(res, core, mut, o);
    }
  }

  /** With an ordering resolver entered states always come in order. */
  lemma OrderedInOrder(res: Resolver, core: Core, mut: Mutation, o: Outcome)
    requires Ordered(res)
    ensures InOrder(res.schema, EntersOf(res, core, mut, o))
  {
    var target := FinalTarget(res, core, mut, o);
    assert RequireOrdered(res.schema, target);
    hide FinalTarget, Ordered;
    OnlyKeepsOrder(res.schema, target,
      set n | n in target && (n !in core.active || (Def(res.schema, n).multi && n in mut.called)));
  }

  /** Final handlers fail only where that is safe. */
  ghost predicate FailsSafely(res: Resolver, core: Core, events: seq<Event>) {
    forall i :: 0 <= i < |events| && events[i].Process? && events[i].outcome.finals.Failed? ==>
      SafeToFail(res, Run(res, core, events[..i]), events[i].mut, events[i].outcome)
  }

  lemma FailsSafelyInit(res: Resolver, core: Core, events: seq<Event>)
    requires events != [] && FailsSafely(res, core, events)
    ensures FailsSafely(res, core, events[..|events| - 1])
  {
    var init := events[..|events| - 1];
    hide Run, SafeToFail;
    forall i | 0 <= i < |init| && init[i].Process? && init[i].outcome.finals.Failed?
      ensures SafeToFail(res, Run(res, core, init[..i]), init[i].mut, init[i].outcome)
    {
      assert init[..i] == events[..i] && init[i] == events[i];
    }
  }

  lemma NextKeepsClosed(res: Resolver, core: Core, mut: Mutation, o: Outcome)
    requires Sound(res) && Closed(res.schema, Elems(core.active))
    requires o.finals.Failed? ==> SafeToFail(res, core, mut, o)
    ensures Closed(res.schema, Elems(Next(res, core, mut, o).active))
  {
    assert Closed(res.schema, Elems(FinalTarget(res, core, mut, o)));
    hide Passes, FinalTarget, Closed, Sound, Ordered, Endangers;
    if o.finals.Failed? {
      SafeFailure(res, core, mut, o);
    }
  }

  /** In every run of Add, Remove, Set, auto and check mutations, with any vetoes, any
      partial rejections and any restarts, the active set holds every requirement of its
      members, as long as final handlers fail only where that is safe. */
  lemma {:induction false} RunKeepsClosed(res: Resolver, core: Core, events: seq<Event>)
    requires Sound(res) && EventsKnown(res.schema, events) && FailsSafely(res, core, events)
    requires Parity(core) && Known(res.schema, core)
    requires Closed(res.schema, Elems(core.active))
    ensures Closed(res.schema, Elems(Run(res, core, events).active))
  {
    hide Next, Restored, Sound, Parity, Known, Ordered;
    if events != [] {
      var init, e := events[..|events| - 1], events[|events| - 1];
      var mid := Run(res, core, init);
      FailsSafelyInit(res, core, events);
      RunKeepsClosed(res, core, init);
      RunKeeps(res, core, init);
      match e
      case Process(mut, o) =>
        NextKeepsClosed(res, mid, mut, o);
      case Restart(names) =>
        RestoredIsSame(res.schema, names, mid);
        assert Elems(Restored(names, mid).active) == Elems(mid.active);
    }
  }
}
