/** Transitions as functions on the clock and the active states. Handlers are an
    arbitrary outcome: accept or veto, partial rejection of auto states, and a
    final handler that fails. */
module Transitions {
  import opened Slices
  import opened Schemas
  import opened Resolvers

  datatype Mutation = Mutation(
    typ: MutationType, called: seq<Name>, hasArgs: bool, isAuto: bool, isCheck: bool, queueTick: nat)

  datatype Core = Core(clock: map<Name, nat>, active: seq<Name>)

  /** Final handlers run through, or the one at `step` fails and the final phase
      is recovered `times` times (a step past the last state is the AnyState handler). */
  datatype Finals = Completed | Failed(step: nat, times: nat)

  datatype Outcome = Outcome(accept: bool, rejected: set<Name>, finals: Finals)

  function Tick(clock: map<Name, nat>, n: Name): nat {
    if n in clock then clock[n] else 0
  }

  predicate IsActiveTick(t: nat) {
    t % 2 == 1
  }

  // ----- clocks

  /** Machine time: the ticks of a list of states. */
  function TimeOf(names: seq<Name>, clock: map<Name, nat>): seq<nat> {
    seq(|names|, i requires 0 <= i < |names| => Tick(clock, names[i]))
  }

  function Sum(time: seq<nat>): nat {
    if time == [] then 0 else Sum(time[..|time| - 1]) + time[|time| - 1]
  }

  /** A target ticks by 1 when new, and by 2 when it is Multi, active and called again. */
  function Stride(schema: Schema, previous: seq<Name>, called: seq<Name>, n: Name): nat {
    if n !in previous then 1 else if n in called && Def(schema, n).multi then 2 else 0
  }

  /** Targets tick by their stride, deactivated states by 1. */
  function NextTick(schema: Schema, core: Core, called: seq<Name>, target: seq<Name>, n: Name): nat {
    Tick(core.clock, n) +
    if n in target then Stride(schema, core.active, called, n) else if n in core.active then 1 else 0
  }

  function SetActive(schema: Schema, core: Core, called: seq<Name>, target: seq<Name>): Core {
    Core(
      map n | n in core.clock.Keys + Elems(target) + Elems(core.active)
        :: NextTick(schema, core, called, target, n),
      target)
  }

  // ----- before the handlers

  function StatesToSet(typ: MutationType, called: seq<Name>, active: seq<Name>): seq<Name> {
    match typ
    case Remove => Diff(active, called)
    case Add => called + active
    case Set => called
  }

  function CallOf(mut: Mutation, core: Core): Call {
    Call(mut.typ, mut.called, core.active)
  }

  ghost function Plan(res: Resolver, core: Core, mut: Mutation): seq<Name> {
    res.targets(CallOf(mut, core), StatesToSet(mut.typ, mut.called, core.active))
  }

  /** Removal is always accepted, an auto mutation when one called state made it,
      any other when all did (or as a check that calls a Multi state). */
  predicate Accepted(schema: Schema, mut: Mutation, target: seq<Name>) {
    var missing := Diff(mut.called, target);
    if mut.typ.Remove? then true
    else if mut.isAuto then |missing| < |mut.called|
    else missing == [] || (mut.isCheck && exists n :: n in mut.called && Def(schema, n).multi)
  }

  function Enters(schema: Schema, active: seq<Name>, called: seq<Name>, target: seq<Name>): seq<Name> {
    Only(target, set n | n in target && (n !in active || (Def(schema, n).multi && n in called)))
  }

  ghost function Exits(res: Resolver, active: seq<Name>, target: seq<Name>): seq<Name> {
    res.sort(Diff(active, target))
  }

  // ----- negotiation

  /** Auto states may be rejected one by one in an auto transition. */
  function Negotiated(schema: Schema, mut: Mutation, target: seq<Name>, o: Outcome): seq<Name> {
    if mut.isAuto then Only(target, set n | n in target && !(n in o.rejected && Def(schema, n).auto)) else target
  }

  ghost predicate Passes(res: Resolver, core: Core, mut: Mutation, o: Outcome) {
    var target := Plan(res, core, mut);
    && Accepted(res.schema, mut, target)
    && o.accept
    && (mut.isAuto ==> Negotiated(res.schema, mut, target, o) != [])
  }

  /** An auto transition resolves again from the called states that are left. */
  ghost function FinalTarget(res: Resolver, core: Core, mut: Mutation, o: Outcome): seq<Name> {
    var target := Plan(res, core, mut);
    if mut.isAuto then
      var left := Negotiated(res.schema, mut, target, o);
      res.targets(CallOf(mut, core), Diff(mut.called, Diff(mut.called, left)) + core.active)
    else target
  }

  ghost function Committed(res: Resolver, core: Core, mut: Mutation, o: Outcome): Core {
    SetActive(res.schema, core, mut.called, FinalTarget(res, core, mut, o))
  }

  // ----- recovery of the final phase

  /** The entered states whose final handlers did not complete. */
  function Dropped(exits: seq<Name>, enters: seq<Name>, finals: Finals): seq<Name> {
    if finals.Failed? && |exits| <= finals.step < |exits| + |enters| then enters[finals.step - |exits|..] else []
  }

  function RecoverOnce(schema: Schema, core: Core, called: seq<Name>, dropped: seq<Name>): Core {
    SetActive(schema, core, called, Diff(core.active, dropped))
  }

  function Recovered(schema: Schema, core: Core, called: seq<Name>, dropped: seq<Name>, times: nat): Core
    decreases times
  {
    if times == 0 then core
    else RecoverOnce(schema, Recovered(schema, core, called, dropped, times - 1), called, dropped)
  }

  // ----- what subscriptions are told

  /** States activated by an accepted transition; Multi states re-entered by name count. */
  ghost function Activated(res: Resolver, core: Core, mut: Mutation, o: Outcome): seq<Name> {
    var target := FinalTarget(res, core, mut, o);
    if mut.isAuto then Diff(target, core.active) else Enters(res.schema, core.active, mut.called, target)
  }

  ghost function Deactivated(res: Resolver, core: Core, mut: Mutation, o: Outcome): seq<Name> {
    var target := FinalTarget(res, core, mut, o);
    if mut.isAuto then Diff(core.active, target) else Exits(res, core.active, target)
  }

  // ----- auto states

  /** Auto states that are inactive and that no active state removes. */
  function AutoStates(schema: Schema, active: seq<Name>): set<Name> {
    set n | n in schema && schema[n].auto && n !in active &&
            forall a :: a in active ==> !Removes(schema, a, n)
  }

  // ----- one transition

  ghost function DroppedBy(res: Resolver, core: Core, mut: Mutation, o: Outcome): seq<Name> {
    var target := FinalTarget(res, core, mut, o);
    Dropped(Exits(res, core.active, target), Enters(res.schema, core.active, mut.called, target), o.finals)
  }

  ghost function Next(res: Resolver, core: Core, mut: Mutation, o: Outcome): Core {
    if mut.isCheck || !Passes(res, core, mut, o) then core
    else
      var committed := Committed(res, core, mut, o);
      match o.finals
      case Completed => committed
      case Failed(_, times) =>
        Recovered(res.schema, committed, mut.called, DroppedBy(res, core, mut, o), times)
  }

  // ----- restart by export and import

  /** The states of odd tick. */
  function ActiveOf(names: seq<Name>, time: seq<nat>): (r: seq<Name>)
    requires |time| == |names|
  {
    if names == [] then []
    else
      var k := |names| - 1;
      ActiveOf(names[..k], time[..k]) + if IsActiveTick(time[k]) then [names[k]] else []
  }

  /** The active list is rebuilt from odd ticks, in state-name order. */
  function Restored(names: seq<Name>, core: Core): Core {
    Core(map n | n in names :: Tick(core.clock, n), ActiveOf(names, TimeOf(names, core.clock)))
  }

  // ----- runs

  datatype Event = Process(mut: Mutation, outcome: Outcome) | Restart(names: seq<Name>)

  ghost function Step(res: Resolver, core: Core, e: Event): Core {
    match e
    case Process(mut, o) => Next(res, core, mut, o)
    case Restart(names) => Restored(names, core)
  }

  ghost function Run(res: Resolver, core: Core, events: seq<Event>): Core {
    if events == [] then core
    else Step(res, Run(res, core, events[..|events| - 1]), events[|events| - 1])
  }

  /** A machine that has not run yet. */
  predicate Fresh(core: Core) {
    core.active == [] && forall n :: n in core.clock ==> core.clock[n] == 0
  }

  /** Mutations call known states, and a restart keeps every state name, each once. */
  ghost predicate EventKnown(schema: Schema, e: Event) {
    match e
    case Process(mut, _) => forall n :: n in mut.called ==> n in schema
    case Restart(names) => NoDup(names) && Elems(names) == schema.Keys
  }

  ghost predicate EventsKnown(schema: Schema, events: seq<Event>) {
    forall i :: 0 <= i < |events| ==> EventKnown(schema, events[i])
  }
}
