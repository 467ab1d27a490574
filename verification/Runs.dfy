/** The general results for a machine with the default resolver, from its first mutation on. */
module Runs {
  import opened Slices
  import opened Schemas
  import opened Topology
  import opened Resolvers
  import opened DefaultResolver
  import opened DefaultResolverFacts
  import opened Transitions
  import opened TransitionFacts
  import opened Recovery
  import opened Effects
  import opened Draining

  lemma FreshIsConsistent(schema: Schema, start: Core)
    requires Fresh(start)
    ensures Parity(start) && Known(schema, start) && Closed(schema, Elems(start.active))
  {
  }

  /** In every run active states are exactly the ones with an odd tick, each listed once. */
  lemma EveryRunKeepsParity(rel: Relations, start: Core, events: seq<Event>)
    requires AddsKnown(rel.schema) && Fresh(start) && EventsKnown(rel.schema, events)
    ensures Parity(Run(Default(rel), start, events)) && NotBefore(start, Run(Default(rel), start, events))
  {
    hide Run, Targets, SortStates, Sound, NotBefore, Fresh, Parity, Known;
    FreshIsConsistent(rel.schema, start);
    DefaultIsSound(rel);
    RunKeeps(Default(rel), start, events);
  }

  /** In every run at most one member of an exclusive group is active. */
  lemma EveryRunSeparates(rel: Relations, start: Core, events: seq<Event>, group: set<Name>)
    requires AddsKnown(rel.schema) && Fresh(start) && EventsKnown(rel.schema, events)
    requires Exclusive(rel.schema, group)
    ensures AtMostOne(group, Run(Default(rel), start, events).active)
  {
    assert AtMostOne(group, start.active);
    hide Run, Targets, SortStates, Sound, Fresh, Parity, Known, Separates, Exclusive, AtMostOne;
    FreshIsConsistent(rel.schema, start);
    DefaultIsSound(rel);
    DefaultSeparates(rel, group);
    RunExclusive(Default(rel), start, events, group);
  }

  /** Where Require is acyclic and After is not used, entered states always come in order,
      so failing is safe wherever no targeted active state requires an active Multi state
      that is called again. */
  lemma LayeredIsSafe(rel: Relations, core: Core, mut: Mutation, o: Outcome)
    requires Acyclic(rel.schema) && TopologyOf(rel.schema, rel.topology) && NoAfter(rel.schema)
    ensures var target := FinalTarget(Default(rel), core, mut, o);
            SafeToFail(Default(rel), core, mut, o) <==> !Endangers(rel.schema, core.active, mut.called, target, target)
  {
    hide Targets, SortStates, Acyclic, TopologyOf, NoAfter, Ordered, FinalTarget, Endangers, InOrder;
    DefaultIsOrdered(rel);
    OrderedInOrder(Default(rel), core, mut, o);
  }

  /** In every run in which final handlers fail only where that is safe, the active set
      holds the requirements of its members. */
  lemma EveryRunKeepsClosed(rel: Relations, start: Core, events: seq<Event>)
    requires AddsKnown(rel.schema) && Fresh(start) && EventsKnown(rel.schema, events)
    requires FailsSafely(Default(rel), start, events)
    ensures Closed(rel.schema, Elems(Run(Default(rel), start, events).active))
  {
    hide Run, Targets, SortStates, Sound, Fresh, Parity, Known, Closed, FailsSafely;
    FreshIsConsistent(rel.schema, start);
    DefaultIsSound(rel);
    RunKeepsClosed(Default(rel), start, events);
  }

  /** Without Add and Remove, when everybody agrees, draining plain mutations leaves no auto
      state inactive that Require would support, unless no tick changed at all. */
  lemma EveryDrainSettles(
    rel: Relations, health: set<Name>, core: Core, queue: seq<Mutation>, oracle: nat -> Outcome, trace: seq<Event>)
    requires NoAddRemove(rel.schema) && Closed(rel.schema, Elems(core.active))
    requires AllAgree(oracle) && Plain(health, queue)
    requires Drains(Default(rel), health, core, queue, oracle, 0, trace)
    ensures var end := Run(Default(rel), core, trace);
            var autos := set m | m in rel.schema && rel.schema[m].auto;
            || SameTicks(core, end)
            || forall n :: n in autos && n !in end.active ==> n !in Kernel(rel.schema, autos + Elems(end.active))
  {
    hide Run, Targets, SortStates, Drains, Closed, OnlyRequire, Effects.Settled, AllAgree, Plain;
    DefaultOnlyRequire(rel);
    DrainedIsSettled(Default(rel), health, core, core, queue, oracle, 0, trace);
    if !SameTicks(core, Run(Default(rel), core, trace)) {
      SettledAutos(rel.schema, Run(Default(rel), core, trace).active);
    }
  }

  lemma SettledAutos(schema: Schema, active: seq<Name>)
    requires NoAddRemove(schema) && Effects.Settled(schema, active)
    ensures var autos := set m | m in schema && schema[m].auto;
            forall n :: n in autos && n !in active ==> n !in Kernel(schema, autos + Elems(active))
  {
    hide Kernel;
    var autos := set m | m in schema && schema[m].auto;
    var callable :=
      set n | n in schema && schema[n].auto && n !in active && forall a :: a in active ==> n !in Def(schema, a).remove;
    assert callable + Elems(active) == autos + Elems(active);
  }
}
