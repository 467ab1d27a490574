/** Concrete runs at the edges of the general results. */
module Limits {
  import opened Slices
  import opened Schemas
  import opened Resolvers
  import opened DefaultResolver
  import opened DefaultResolverFacts
  import opened Transitions
  import opened TransitionFacts
  import opened Recovery
  import opened Effects
  import opened Draining
  import opened Queue
  import opened Duplicates
  import opened Machine

  const PLAIN := State(false, false, [], [], [], [])

  /** `b` requires the Multi state `a`. */
  function MultiRequired(a: Name, b: Name): Schema {
    map[a := PLAIN.(multi := true), b := PLAIN.(require := [a])]
  }

  function BothActive(a: Name, b: Name): Core {
    Core(map[a := 1, b := 1], [a, b])
  }

  function AddAgain(a: Name): Mutation {
    Mutation(Add, [a], false, false, false, 0)
  }

  const ALL_AGREE := Outcome(true, {}, Completed)

  /** Everybody agrees, then the first final handler fails. */
  const FIRST_FAILS := Outcome(true, {}, Failed(0, 1))

  lemma BothTargeted(a: Name, b: Name, rel: Relations)
    requires a != b && rel.schema == MultiRequired(a, b)
    ensures Elems(Plan(Default(rel), BothActive(a, b), AddAgain(a))) == {a, b}
  {
    DefaultOnlyRequire(rel);
    hide Default, Kernel;
    KernelOfClosed(rel.schema, {a, b});
    assert Elems(StatesToSet(Add, [a], [a, b])) == {a, b};
  }

  /** Only the re-entered state is dropped. */
  lemma MultiDropped(a: Name, b: Name, res: Resolver)
    requires a != b && res.schema == MultiRequired(a, b) && Sound(res)
    requires Elems(Plan(res, BothActive(a, b), AddAgain(a))) == {a, b}
    ensures forall n :: n in DroppedBy(res, BothActive(a, b), AddAgain(a), FIRST_FAILS) <==> n == a
    ensures Fails(res, BothActive(a, b), AddAgain(a), FIRST_FAILS)
  {
    var target := Plan(res, BothActive(a, b), AddAgain(a));
    assert forall n :: n in target <==> n in Elems(target);
    hide Plan;
    HeadIsMember(Diff([a, b], target));
    HeadIsMember(Diff([a], target));
    assert multiset(res.sort([])) == multiset([]);
    SortMembersOf(res, []);
    HeadIsMember(res.sort([]));
    hide Sound, Only, Diff;
    assert Exits(res, [a, b], target) == [];
    var enters := Enters(res.schema, [a, b], [a], target);
    assert a in enters && b !in enters;
    assert enters[0..] == enters;
  }

  lemma MissingRequirement(schema: Schema, c: set<Name>, n: Name, r: Name)
    requires n in c && r in Def(schema, n).require && r !in c
    ensures !Closed(schema, c)
  {
  }

  lemma MultiLost(a: Name, b: Name, res: Resolver)
    requires a != b && res.schema == MultiRequired(a, b) && Sound(res)
    requires Elems(Plan(res, BothActive(a, b), AddAgain(a))) == {a, b}
    ensures Elems(Next(res, BothActive(a, b), AddAgain(a), FIRST_FAILS).active) == {b}
  {
    hide Plan, Sound, DroppedBy, Next, Fails;
    MultiDropped(a, b, res);
    FailedActive(res, BothActive(a, b), AddAgain(a), FIRST_FAILS);
    var target := Plan(res, BothActive(a, b), AddAgain(a));
    assert forall n :: n in target <==> n in Elems(target);
  }

  /** Both are active, `a` is added again and its final handler fails: `a` is dropped and
      `b` stays active without its requirement. */
  lemma ReentryBreaksClosure(a: Name, b: Name, rel: Relations)
    requires a != b && rel.schema == MultiRequired(a, b)
    ensures Parity(BothActive(a, b)) && Closed(rel.schema, Elems(BothActive(a, b).active))
    ensures var next := Next(Default(rel), BothActive(a, b), AddAgain(a), FIRST_FAILS);
            Elems(next.active) == {b} && !Closed(rel.schema, Elems(next.active))
  {
    hide Plan, Next, Sound, Targets, SortStates;
    BothTargeted(a, b, rel);
    DefaultIsSound(rel);
    MultiLost(a, b, Default(rel));
    MissingRequirement(rel.schema, {b}, b, a);
  }

  // ----- cyclic requirements

  function Mutual(a: Name, b: Name): Schema {
    map[a := PLAIN.(require := [b]), b := PLAIN.(require := [a])]
  }

  function AddBoth(a: Name, b: Name): Mutation {
    Mutation(Add, [a, b], false, false, false, 0)
  }

  lemma BothEntered(a: Name, b: Name, res: Resolver)
    requires a != b && res.schema == Mutual(a, b) && OnlyRequire(res) && Sound(res)
    ensures var target := Plan(res, Core(map[], []), AddBoth(a, b));
            Elems(target) == {a, b} && |target| == 2 && target[0] != target[1]
  {
    var target := Plan(res, Core(map[], []), AddBoth(a, b));
    assert NoDup(target);
    KernelOfClosed(res.schema, {a, b});
    assert Elems([a, b] + []) == {a, b};
    assert Elems(target) == {a, b};
    hide Plan, Sound, OnlyRequire, Kernel;
    NoDupCard(target);
  }

  /** Two states that require each other are added, and the second final handler fails: in
      whichever order they were entered, the first stays active without its requirement. */
  lemma CycleBreaksClosure(a: Name, b: Name, res: Resolver)
    requires a != b && res.schema == Mutual(a, b) && OnlyRequire(res) && Sound(res)
    ensures !Closed(res.schema, Elems(Next(res, Core(map[], []), AddBoth(a, b), FailedAt(ALL_AGREE, 1, 1)).active))
  {
    var core, mut, o := Core(map[], []), AddBoth(a, b), FailedAt(ALL_AGREE, 1, 1);
    BothEntered(a, b, res);
    var target := FinalTarget(res, core, mut, o);
    hide OnlyRequire, Plan;
    assert forall n :: n in target <==> n in Elems(target);
    OnlyAll(target, set n | n in target && (n !in [] || (Def(res.schema, n).multi && n in mut.called)));
    assert EntersOf(res, core, mut, o) == target;
    HeadIsMember(Diff(mut.called, target));
    SortMembersOf(res, []);
    HeadIsMember(res.sort([]));
    hide Sound;
    assert Exits(res, [], target) == [];
    assert Passes(res, core, mut, o);
    assert target[0] in target && target[1] in target;
    assert target[1] in Def(res.schema, target[0]).require;
    hide Passes, FinalTarget;
    CycleCut(res, core, mut, o);
  }

  lemma CycleCut(res: Resolver, core: Core, mut: Mutation, o: Outcome)
    requires Sound(res) && Closed(res.schema, Elems(core.active)) && Fails(res, core, mut, o)
    requires |EntersOf(res, core, mut, o)| == 2 && Exits(res, core.active, FinalTarget(res, core, mut, o)) == []
    requires EntersOf(res, core, mut, o)[1] in Def(res.schema, EntersOf(res, core, mut, o)[0]).require
    requires o.finals.step == 1
    ensures !Closed(res.schema, Elems(Next(res, core, mut, o).active))
  {
    hide Sound, Closed, Next, FinalTarget, Passes, Endangers, Exits;
    assert FirstLost(res, core, mut, o) == 1;
    assert Cuts(res.schema, EntersOf(res, core, mut, o), 1);
    hide Cuts, FirstLost;
    RecoveryClosed(res, core, mut, o);
  }

  // ----- Add is not transitive

  /** Each state adds the next one. */
  function AddChain(a: Name, b: Name, c: Name, d: Name): Schema {
    map[a := PLAIN.(add := [b]), b := PLAIN.(add := [c]), c := PLAIN.(add := [d]), d := PLAIN]
  }

  lemma ChainLinks(a: Name, b: Name, c: Name, d: Name, m: Name, n: Name)
    requires a != b && a != c && a != d && b != c && b != d && c != d
    ensures n in Implied(AddChain(a, b, c, d), Call(Add, [a], []), m) <==>
            (m == a && n == b) || (m == b && n == c) || (m == c && n == d)
  {
  }

  lemma {:induction false} ChainLevels(a: Name, b: Name, c: Name, d: Name, n: Name, depth: nat)
    requires a != b && a != c && a != d && b != c && b != d && c != d
    requires depth <= 2 && Reaches(AddChain(a, b, c, d), Call(Add, [a], []), [a], n, depth)
    ensures n == a || (depth >= 1 && n == b) || (depth == 2 && n == c)
    decreases depth
  {
    var schema, call := AddChain(a, b, c, d), Call(Add, [a], []);
    if n != a {
      var m :| Reaches(schema, call, [a], m, depth - 1) && n in Implied(schema, call, m);
      ChainLevels(a, b, c, d, m, depth - 1);
      ChainLinks(a, b, c, d, m, n);
    }
  }

  lemma ChainReaches(a: Name, b: Name, c: Name, d: Name)
    requires a != b && a != c && a != d && b != c && b != d && c != d
    ensures forall n :: n in {a, b, c} ==> Reaches(AddChain(a, b, c, d), Call(Add, [a], []), [a], n, 2)
  {
    var schema, call := AddChain(a, b, c, d), Call(Add, [a], []);
    ChainLinks(a, b, c, d, a, b);
    ChainLinks(a, b, c, d, b, c);
    OneLevelMore(schema, call, [a], a, b, 0);
    OneLevelMore(schema, call, [a], a, b, 1);
    OneLevelMore(schema, call, [a], b, c, 1);
  }

  /** From an inactive machine, adding the first of four states targets the first three. */
  lemma AddStopsAfterTwo(a: Name, b: Name, c: Name, d: Name, rel: Relations)
    requires a != b && a != c && a != d && b != c && b != d && c != d
    requires rel.schema == AddChain(a, b, c, d)
    ensures Elems(Targets(rel, Call(Add, [a], []), [a])) == {a, b, c}
  {
    hide Targets, Reaches;
    var call := Call(Add, [a], []);
    assert NoRequireRemove(rel.schema);
    var targets := Targets(rel, call, [a]);
    hide AddChain, NoRequireRemove;
    ChainReaches(a, b, c, d);
    forall x ensures x in targets <==> x in {a, b, c} {
      TwoLevelsOfAdd(rel, call, [a], x);
      if Reaches(rel.schema, call, [a], x, 2) {
        ChainLevels(a, b, c, d, x, 2);
      }
    }
  }

  // ----- a re-entered Multi state in an auto transition

  function AutoMulti(a: Name): Schema {
    map[a := PLAIN.(auto := true, multi := true)]
  }

  function OneActive(a: Name): Core {
    Core(map[a := 1], [a])
  }

  function AutoAgain(a: Name): Mutation {
    Mutation(Add, [a], false, true, false, 0)
  }

  lemma OnlyMember(s: seq<Name>, a: Name)
    requires Elems(s) == {a}
    ensures a in s && forall n :: n in s ==> n == a
    ensures Diff([a], s) == [] && Diff(s, [a]) == []
  {
    assert forall n :: n in s <==> n in Elems(s);
    HeadIsMember(Diff([a], s));
    HeadIsMember(Diff(s, [a]));
  }

  lemma OneTarget(a: Name, res: Resolver)
    requires res.schema == AutoMulti(a) && OnlyRequire(res)
    ensures Elems(Plan(res, OneActive(a), AutoAgain(a))) == {a}
    ensures forall c, t :: (forall n :: n in t <==> n == a) ==> Elems(res.targets(c, t)) == {a}
  {
    KernelOfClosed(res.schema, {a});
    forall c: Call, t: seq<Name> | forall n :: n in t <==> n == a ensures Elems(res.targets(c, t)) == {a} {
      assert Elems(t) == {a};
    }
    hide Kernel, OnlyRequire;
  }

  lemma OneFinalTarget(a: Name, res: Resolver)
    requires res.schema == AutoMulti(a) && OnlyRequire(res)
    ensures Lands(res, OneActive(a), AutoAgain(a), ALL_AGREE)
    ensures Elems(FinalTarget(res, OneActive(a), AutoAgain(a), ALL_AGREE)) == {a}
  {
    OneTarget(a, res);
    var plan := Plan(res, OneActive(a), AutoAgain(a));
    hide Plan, OnlyRequire;
    OnlyMember(plan, a);
    var left := Negotiated(res.schema, AutoAgain(a), plan, ALL_AGREE);
    assert a in left;
    hide Negotiated, AutoMulti;
    HeadIsMember(Diff([a], left));
    assert Diff([a], left) == [];
    DiffAll([a], []);
    assert forall n :: n in [a] + [a] <==> n == a;
  }

  /** `a` is Auto, Multi and active when an auto mutation made earlier calls it: its tick
      goes from 1 to 3, and nothing is reported. */
  lemma ReentryIsNotReported(a: Name, res: Resolver)
    requires res.schema == AutoMulti(a) && OnlyRequire(res)
    ensures Lands(res, OneActive(a), AutoAgain(a), ALL_AGREE) && AutoReentry(res, OneActive(a), AutoAgain(a), ALL_AGREE)
    ensures Tick(Next(res, OneActive(a), AutoAgain(a), ALL_AGREE).clock, a) == 3
    ensures Activated(res, OneActive(a), AutoAgain(a), ALL_AGREE) == []
    ensures Deactivated(res, OneActive(a), AutoAgain(a), ALL_AGREE) == []
  {
    OneFinalTarget(a, res);
    hide FinalTarget, OnlyRequire, Passes;
    var target := FinalTarget(res, OneActive(a), AutoAgain(a), ALL_AGREE);
    OnlyMember(target, a);
    SetActiveTicks(res.schema, OneActive(a), [a], target, a);
  }

  // ----- a duplicate that is not superfluous

  function OneState(a: Name): Schema {
    map[a := PLAIN]
  }

  /** Add, then Remove, as they are queued. */
  function AddRemove(a: Name): seq<Mutation> {
    [Mutation(Add, [a], false, false, false, 2), Mutation(Remove, [a], false, false, false, 3)]
  }

  method OneStateMachine(a: Name) returns (mach: Machine)
    ensures fresh(mach) && mach.Valid() && mach.rel.schema == OneState(a)
    ensures Transitions.Fresh(mach.Core()) && mach.QueueView() == QueueState([], 1, 0)
  {
    assert Elems([a]) == OneState(a).Keys && AddsKnown(OneState(a));
    hide Machine.Valid, AddsKnown;
    mach := new Machine(OneState(a), [a], {});
  }

  method QueueOne(mach: Machine, a: Name, typ: MutationType) returns (tick: nat)
    requires mach.Valid() && mach.rel.schema == OneState(a)
    modifies mach`queue, mach`queueTicksPending
    ensures mach.Valid()
    ensures tick == 0 <==> old(mach.IsQueued(typ, [a]))
    ensures tick == 0 ==> mach.QueueView() == old(mach.QueueView())
    ensures tick > 0 ==>
              mach.QueueView() == Apply(old(mach.QueueView()), Append(Mutation(typ, [a], false, false, false, 0)))
  {
    UniqNoDup([a]);
    assert !Def(OneState(a), a).multi;
    hide Machine.Valid, Machine.IsQueued, OneState, Uniq, NoDup;
    tick := mach.QueueMutation(typ, [a], false);
  }

  /** Adding again is skipped, because Add is queued already. */
  method QueueDuplicate(a: Name) returns (mach: Machine, tick: nat)
    ensures fresh(mach) && mach.Valid() && mach.rel.schema == OneState(a) && Transitions.Fresh(mach.Core())
    ensures mach.queue == AddRemove(a) && tick == 0
  {
    hide Machine.Valid;
    mach := OneStateMachine(a);
    var first := QueueOne(mach, a, Add);
    assert mach.queue == [AddRemove(a)[0]];
    var second := QueueOne(mach, a, Remove);
    assert mach.queue == AddRemove(a);
    assert mach.queue[0] == Mutation(Add, [a], false, false, false, 2);
    tick := QueueOne(mach, a, Add);
  }

  /** One step of draining where there are no auto states. */
  lemma NoAutoStep(
    res: Resolver, health: set<Name>, core: Core, queue: seq<Mutation>, oracle: nat -> Outcome, k: nat,
    trace: seq<Event>)
    requires (forall n :: n in res.schema ==> !res.schema[n].auto) && queue != []
    requires Drains(res, health, core, queue, oracle, k, trace)
    ensures trace != []
    ensures Drains(res, health, Next(res, core, queue[0], oracle(k)), queue[1..], oracle, k + 1, trace[1..])
    ensures Run(res, core, trace) == Run(res, Next(res, core, queue[0], oracle(k)), trace[1..])
  {
    hide Next, Lands;
    RunCons(res, core, trace);
  }

  lemma AddedThenRemoved(
    a: Name, res: Resolver, health: set<Name>, core: Core, oracle: nat -> Outcome, trace: seq<Event>)
    requires res.schema == OneState(a) && OnlyRequire(res) && AllAgree(oracle) && core.active == []
    requires Drains(res, health, core, AddRemove(a), oracle, 0, trace)
    ensures Run(res, core, trace).active == []
  {
    hide Drains, Kernel, OnlyRequire, Lands, Run;
    KernelOfClosed(res.schema, {a});
    KernelOfClosed(res.schema, {});
    var queue := AddRemove(a);
    NoAutoStep(res, health, core, queue, oracle, 0, trace);
    var mid := Next(res, core, queue[0], oracle(0));
    NoAutoStep(res, health, mid, queue[1..], oracle, 1, trace[1..]);
    var end := Next(res, mid, queue[1..][0], oracle(1));
    hide Next;
    LandsIff(res, core, queue[0], oracle(0));
    assert Elems(queue[0].called) == {a} && Requested(queue[0], []) == {a};
    MutationMeaning(res, core, queue[0], oracle(0));
    assert Requested(queue[1], mid.active) == {};
    LandsIff(res, mid, queue[1], oracle(1));
    MutationMeaning(res, mid, queue[1], oracle(1));
    HeadIsMember(end.active);
    assert forall n :: n in end.active ==> n in Elems(end.active);
    assert queue[1..][1..] == [];
    NothingLeft(res, health, end, oracle, trace[1..][1..]);
  }

  lemma NothingLeft(res: Resolver, health: set<Name>, core: Core, oracle: nat -> Outcome, trace: seq<Event>)
    requires Drains(res, health, core, [], oracle, 2, trace)
    ensures Run(res, core, trace) == core
  {
  }

  lemma AddIsNotIdle(a: Name)
    ensures !Idle(OneState(a), [], Mutation(Add, [a], false, false, false, 4))
  {
    KernelOfClosed(OneState(a), {a});
    assert a in Elems([a]) && Elems([]) + Elems([a]) == {a};
  }

  /** Without the skipped Add the drained machine has other ticks than with it. */
  lemma DuplicateMatters(
    a: Name, res: Resolver, health: set<Name>, core: Core, oracle: nat -> Outcome, without: seq<Event>,
    trace: seq<Event>)
    requires res.schema == OneState(a) && OnlyRequire(res) && AllAgree(oracle) && core.active == [] && a !in health
    requires Drains(res, health, core, AddRemove(a), oracle, 0, without)
    requires Drains(res, health, core, AddRemove(a) + [Mutation(Add, [a], false, false, false, 4)], oracle, 0, trace)
    ensures !SameTicks(Run(res, core, without), Run(res, core, trace))
  {
    hide Drains, OnlyRequire, Kernel, SameTicks, AllAgree, Run, Idle;
    AddedThenRemoved(a, res, health, core, oracle, without);
    AddIsNotIdle(a);
    assert Plain(health, AddRemove(a)) && Steady(res.schema, core);
    hide Plain, Steady;
    SkipIsHarmless(res, health, core, AddRemove(a), Mutation(Add, [a], false, false, false, 4), oracle, without, trace);
  }
}
