/** What every transition and every run keeps, with any sound resolver. */
module TransitionFacts {
  import opened Slices
  import opened Schemas
  import opened Resolvers
  import opened Transitions

  // ----- parity and monotone clocks

  /** Active states are listed once, and they are exactly the ones with an odd tick. */
  ghost predicate Parity(core: Core) {
    && NoDup(core.active)
    && forall n :: n in core.active <==> IsActiveTick(Tick(core.clock, n))
  }

  ghost predicate NotBefore(a: Core, b: Core) {
    forall n :: Tick(a.clock, n) <= Tick(b.clock, n)
  }

  lemma NotBeforeTrans(a: Core, b: Core, c: Core)
    requires NotBefore(a, b) && NotBefore(b, c)
    ensures NotBefore(a, c)
  {
  }

  lemma SetActiveTicks(schema: Schema, core: Core, called: seq<Name>, target: seq<Name>, n: Name)
    ensures Tick(SetActive(schema, core, called, target).clock, n) == NextTick(schema, core, called, target, n)
  {
  }

  lemma SetActiveKeepsParity(schema: Schema, core: Core, called: seq<Name>, target: seq<Name>)
    requires Parity(core) && NoDup(target)
    ensures Parity(SetActive(schema, core, called, target))
    ensures NotBefore(core, SetActive(schema, core, called, target))
  {
    forall n
      ensures Tick(SetActive(schema, core, called, target).clock, n) == NextTick(schema, core, called, target, n)
    {
      SetActiveTicks(schema, core, called, target, n);
    }
  }

  lemma {:induction false} RecoveredKeepsParity(
    schema: Schema, core: Core, called: seq<Name>, dropped: seq<Name>, times: nat)
    requires Parity(core)
    ensures Parity(Recovered(schema, core, called, dropped, times))
    ensures NotBefore(core, Recovered(schema, core, called, dropped, times))
    decreases times
  {
    if times > 0 {
      RecoveredKeepsParity(schema, core, called, dropped, times - 1);
      var mid := Recovered(schema, core, called, dropped, times - 1);
      DiffNoDup(mid.active, dropped);
      SetActiveKeepsParity(schema, mid, called, Diff(mid.active, dropped));
      NotBeforeTrans(core, mid, RecoverOnce(schema, mid, called, dropped));
    }
  }

  lemma NextKeepsParity(res: Resolver, core: Core, mut: Mutation, o: Outcome)
    requires Sound(res) && Parity(core)
    ensures Parity(Next(res, core, mut, o))
    ensures NotBefore(core, Next(res, core, mut, o))
  {
    hide Passes, DroppedBy, SetActive;
    SetActiveKeepsParity(res.schema, core, mut.called, FinalTarget(res, core, mut, o));
    if o.finals.Failed? {
      var committed := Committed(res, core, mut, o);
      RecoveredKeepsParity(res.schema, committed, mut.called, DroppedBy(res, core, mut, o), o.finals.times);
      NotBeforeTrans(core, committed,
        Recovered(res.schema, committed, mut.called, DroppedBy(res, core, mut, o), o.finals.times));
    }
  }

  // ----- states stay inside the schema

  /** Only states of the schema have ever ticked. */
  ghost predicate Known(schema: Schema, core: Core) {
    && (forall n :: n in core.active ==> n in schema)
    && (forall n :: Tick(core.clock, n) > 0 ==> n in schema)
  }

  lemma SetActiveKnown(schema: Schema, core: Core, called: seq<Name>, target: seq<Name>)
    requires Known(schema, core) && forall n :: n in target ==> n in schema
    ensures Known(schema, SetActive(schema, core, called, target))
  {
  }

  lemma {:induction false} RecoveredKnown(
    schema: Schema, core: Core, called: seq<Name>, dropped: seq<Name>, times: nat)
    requires Known(schema, core)
    ensures Known(schema, Recovered(schema, core, called, dropped, times))
    decreases times
  {
    if times > 0 {
      RecoveredKnown(schema, core, called, dropped, times - 1);
      var mid := Recovered(schema, core, called, dropped, times - 1);
      SetActiveKnown(schema, mid, called, Diff(mid.active, dropped));
    }
  }

  lemma FinalTargetKnown(res: Resolver, core: Core, mut: Mutation, o: Outcome)
    requires Sound(res) && Known(res.schema, core) && forall n :: n in mut.called ==> n in res.schema
    ensures forall n :: n in Plan(res, core, mut) ==> n in res.schema
    ensures forall n :: n in FinalTarget(res, core, mut, o) ==> n in res.schema
  {
  }

  lemma NextKnown(res: Resolver, core: Core, mut: Mutation, o: Outcome)
    requires Sound(res) && Known(res.schema, core)
    requires forall n :: n in mut.called ==> n in res.schema
    ensures Known(res.schema, Next(res, core, mut, o))
  {
    FinalTargetKnown(res, core, mut, o);
    hide Passes, DroppedBy, SetActive, FinalTarget, Sound;
    SetActiveKnown(res.schema, core, mut.called, FinalTarget(res, core, mut, o));
    if o.finals.Failed? {
      RecoveredKnown(
        res.schema, Committed(res, core, mut, o), mut.called, DroppedBy(res, core, mut, o), o.finals.times);
    }
  }

  lemma {:induction false} ActiveOfMembers(names: seq<Name>, time: seq<nat>)
    requires |time| == |names| && NoDup(names)
    ensures forall i :: 0 <= i < |names| ==> (names[i] in ActiveOf(names, time) <==> IsActiveTick(time[i]))
    ensures forall n :: n in ActiveOf(names, time) ==> n in names
    ensures NoDup(ActiveOf(names, time))
  {
    if names != [] {
      var k := |names| - 1;
      ActiveOfMembers(names[..k], time[..k]);
      assert names[k] !in names[..k];
      assert names == names[..k] + [names[k]];
    }
  }

  /** Importing an export gives back the clock and the active set. */
  lemma RestoredIsSame(schema: Schema, names: seq<Name>, core: Core)
    requires NoDup(names) && Elems(names) == schema.Keys
    requires Parity(core) && Known(schema, core)
    ensures Parity(Restored(names, core)) && Known(schema, Restored(names, core))
    ensures forall n :: Tick(Restored(names, core).clock, n) == Tick(core.clock, n)
    ensures forall n :: n in Restored(names, core).active <==> n in core.active
  {
    ActiveOfMembers(names, TimeOf(names, core.clock));
    forall n ensures Tick(Restored(names, core).clock, n) == Tick(core.clock, n) {
      assert n in names <==> n in Elems(names);
    }
    forall n ensures n in Restored(names, core).active <==> n in core.active {
      assert n in names <==> n in Elems(names);
      if n in names {
        var i :| 0 <= i < |names| && names[i] == n;
        assert TimeOf(names, core.clock)[i] == Tick(core.clock, n);
      }
    }
  }

  // ----- every run

  lemma StepKeeps(res: Resolver, core: Core, e: Event)
    requires Sound(res) && EventKnown(res.schema, e)
    requires Parity(core) && Known(res.schema, core)
    ensures Parity(Step(res, core, e)) && Known(res.schema, Step(res, core, e))
    ensures NotBefore(core, Step(res, core, e))
  {
    hide Next, Restored;
    match e
    case Process(mut, o) =>
      NextKeepsParity(res, core, mut, o);
      NextKnown(res, core, mut, o);
    case Restart(names) =>
      RestoredIsSame(res.schema, names, core);
  }

  /** In every run, whatever is called, vetoed, rejected, failed and recovered, or
      restarted: each active state is listed once, active means odd tick, only states of
      the schema tick, and no tick ever decreases. */
  lemma {:induction false} RunKeeps(res: Resolver, core: Core, events: seq<Event>)
    requires Sound(res) && EventsKnown(res.schema, events)
    requires Parity(core) && Known(res.schema, core)
    ensures Parity(Run(res, core, events)) && Known(res.schema, Run(res, core, events))
    ensures NotBefore(core, Run(res, core, events))
  {
    hide Step, Sound;
    if events != [] {
      var init := events[..|events| - 1];
      RunKeeps(res, core, init);
      StepKeeps(res, Run(res, core, init), events[|events| - 1]);
      NotBeforeTrans(core, Run(res, core, init), Run(res, core, events));
    }
  }

  /** In every run no tick ever decreases, from any point of it to any later one. */
  lemma RunIsMonotone(res: Resolver, core: Core, events: seq<Event>, more: seq<Event>)
    requires Sound(res) && EventsKnown(res.schema, events + more)
    requires Parity(core) && Known(res.schema, core)
    ensures NotBefore(Run(res, core, events), Run(res, core, events + more))
  {
    hide Step, Sound, NotBefore, Parity, Known, Run;
    assert EventsKnown(res.schema, events) by {
      assert forall i :: 0 <= i < |events| ==> events[i] == (events + more)[i];
    }
    assert EventsKnown(res.schema, more) by {
      assert forall i :: 0 <= i < |more| ==> more[i] == (events + more)[|events| + i];
    }
    RunKeeps(res, core, events);
    RunKeeps(res, Run(res, core, events), more);
    RunAppend(res, core, events, more);
  }

  lemma {:induction false} RunAppend(res: Resolver, core: Core, events: seq<Event>, more: seq<Event>)
    ensures Run(res, core, events + more) == Run(res, Run(res, core, events), more)
  {
    hide Step;
    if more == [] {
      assert events + more == events;
    } else {
      RunAppend(res, core, events, more[..|more| - 1]);
      assert (events + more)[..|events + more| - 1] == events + more[..|more| - 1];
    }
  }

  // ----- mutual exclusion

  lemma {:induction false} RecoveredShrinks(
    schema: Schema, core: Core, called: seq<Name>, dropped: seq<Name>, times: nat)
    ensures forall n :: n in Recovered(schema, core, called, dropped, times).active <==>
                        n in core.active && (times == 0 || n !in dropped)
    decreases times
  {
    if times > 0 {
      RecoveredShrinks(schema, core, called, dropped, times - 1);
      var mid := Recovered(schema, core, called, dropped, times - 1);
      assert RecoverOnce(schema, mid, called, dropped).active == Diff(mid.active, dropped);
    }
  }

  /** A transition changes nothing, or leaves active only states it targeted. */
  lemma NextWithinTarget(res: Resolver, core: Core, mut: Mutation, o: Outcome)
    ensures Next(res, core, mut, o) == core ||
            forall n :: n in Next(res, core, mut, o).active ==> n in FinalTarget(res, core, mut, o)
  {
    hide Passes, DroppedBy, FinalTarget;
    if o.finals.Failed? {
      RecoveredShrinks(
        res.schema, Committed(res, core, mut, o), mut.called, DroppedBy(res, core, mut, o), o.finals.times);
    }
  }

  lemma NextExclusive(res: Resolver, core: Core, mut: Mutation, o: Outcome, group: set<Name>)
    requires Separates(res, group) && AtMostOne(group, core.active)
    ensures AtMostOne(group, Next(res, core, mut, o).active)
  {
    NextWithinTarget(res, core, mut, o);
    assert AtMostOne(group, FinalTarget(res, core, mut, o));
    hide Next, FinalTarget;
  }

  /** Of states that a resolver keeps apart, at most one is active after every run,
      failed final phases included. */
  lemma {:induction false} RunExclusive(res: Resolver, core: Core, events: seq<Event>, group: set<Name>)
    requires Sound(res) && EventsKnown(res.schema, events)
    requires Parity(core) && Known(res.schema, core)
    requires Separates(res, group) && AtMostOne(group, core.active)
    ensures AtMostOne(group, Run(res, core, events).active)
  {
    hide Next, Restored, Sound, Separates, Parity, Known;
    if events != [] {
      var init, e := events[..|events| - 1], events[|events| - 1];
      var mid := Run(res, core, init);
      RunExclusive(res, core, init, group);
      RunKeeps(res, core, init);
      match e
      case Process(mut, o) => NextExclusive(res, mid, mut, o, group);
      case Restart(names) => RestoredIsSame(res.schema, names, mid);
    }
  }
}
