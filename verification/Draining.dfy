/** What draining a queue goes through, and where it ends. */
module Draining {
  import opened Slices
  import opened Schemas
  import opened Resolvers
  import opened Transitions
  import opened TransitionFacts
  import opened Effects

  predicate IsHealth(health: set<Name>, mut: Mutation) {
    mut.typ.Add? && |mut.called| == 1 && mut.called[0] in health
  }

  /** A transition that landed, ticked, and was neither auto nor a health check is followed
      by an auto mutation, if an auto state can be called. */
  ghost predicate Followed(res: Resolver, health: set<Name>, core: Core, mut: Mutation, o: Outcome) {
    && Lands(res, core, mut, o) && Next(res, core, mut, o).clock != core.clock
    && !mut.isAuto && !IsHealth(health, mut)
    && AutoStates(res.schema, Next(res, core, mut, o).active) != {}
  }

  /** The queue once its front was processed: an auto mutation for the new active states
      takes the place of the front, or the front is just gone. */
  ghost predicate QueueAfter(
    res: Resolver, health: set<Name>, core: Core, queue: seq<Mutation>, o: Outcome, left: seq<Mutation>)
    requires queue != []
  {
    if Followed(res, health, core, queue[0], o) then
      && |left| == |queue| && left[1..] == queue[1..]
      && IsAutoMutation(res.schema, Next(res, core, queue[0], o), left[0])
      && NoDup(left[0].called) && !left[0].hasArgs && left[0].queueTick == 0
    else left == queue[1..]
  }

  /** In plain terms: an auto mutation that calls every inactive auto state no active state
      removes, after a transition that landed and ticked, was not auto and not the addition of
      one health state, and only if there is something to call. */
  lemma QueueAfterIs(
    res: Resolver, health: set<Name>, core: Core, queue: seq<Mutation>, o: Outcome, left: seq<Mutation>)
    requires queue != [] && QueueAfter(res, health, core, queue, o, left)
    ensures var mut, next, schema := queue[0], Next(res, core, queue[0], o), res.schema;
            var callable := set n | n in schema && schema[n].auto && n !in next.active &&
                                    forall a :: a in next.active ==> n !in Def(schema, a).remove;
            if && Lands(res, core, mut, o) && next.clock != core.clock && !mut.isAuto && callable != {}
               && !(mut.typ.Add? && exists h :: h in health && mut.called == [h])
            then && |left| == |queue| && left[1..] == queue[1..]
                 && left[0].typ.Add? && left[0].isAuto && !left[0].isCheck && Elems(left[0].called) == callable
            else left == queue[1..]
  {
    hide Next, Lands;
    var mut, next, schema := queue[0], Next(res, core, queue[0], o), res.schema;
    var callable := set n | n in schema && schema[n].auto && n !in next.active &&
                            forall a :: a in next.active ==> n !in Def(schema, a).remove;
    assert callable == AutoStates(schema, next.active);
    assert IsHealth(health, mut) <==> mut.typ.Add? && exists h :: h in health && mut.called == [h] by {
      if |mut.called| == 1 {
        assert mut.called == [mut.called[0]];
      }
    }
  }

  /** `trace` processes exactly the queue, front first, each mutation with the next answers
      of the oracle and each followed by its auto mutation. */
  ghost predicate Drains(
    res: Resolver, health: set<Name>, core: Core, queue: seq<Mutation>,
    oracle: nat -> Outcome, k: nat, trace: seq<Event>)
    decreases |trace|
  {
    if queue == [] then trace == []
    else
      && trace != [] && trace[0] == Process(queue[0], oracle(k))
      && exists left ::
           && QueueAfter(res, health, core, queue, oracle(k), left)
           && Drains(res, health, Next(res, core, queue[0], oracle(k)), left, oracle, k + 1, trace[1..])
  }

  lemma DrainsMore(
    res: Resolver, health: set<Name>, core: Core, queue: seq<Mutation>, oracle: nat -> Outcome, k: nat,
    left: seq<Mutation>, rest: seq<Event>)
    requires queue != [] && QueueAfter(res, health, core, queue, oracle(k), left)
    requires Drains(res, health, Next(res, core, queue[0], oracle(k)), left, oracle, k + 1, rest)
    ensures Drains(res, health, core, queue, oracle, k, [Process(queue[0], oracle(k))] + rest)
  {
    hide QueueAfter, Next;
    var trace := [Process(queue[0], oracle(k))] + rest;
    assert trace[1..] == rest;
  }

  function NotAuto(queue: seq<Mutation>): seq<Mutation> {
    if queue == [] then []
    else if queue[0].isAuto then NotAuto(queue[1..]) else [queue[0]] + NotAuto(queue[1..])
  }

  function Processed(trace: seq<Event>): seq<Mutation> {
    if trace == [] then []
    else (if trace[0].Process? then [trace[0].mut] else []) + Processed(trace[1..])
  }

  /** Auto mutations aside, exactly the queued mutations are processed, in their order. */
  lemma {:induction false} DrainedInOrder(
    res: Resolver, health: set<Name>, core: Core, queue: seq<Mutation>,
    oracle: nat -> Outcome, k: nat, trace: seq<Event>)
    requires Drains(res, health, core, queue, oracle, k, trace)
    ensures NotAuto(Processed(trace)) == NotAuto(queue)
    decreases |trace|
  {
    hide Next, Followed;
    if queue != [] {
      var left :| QueueAfter(res, health, core, queue, oracle(k), left)
                  && Drains(res, health, Next(res, core, queue[0], oracle(k)), left, oracle, k + 1, trace[1..]);
      DrainedInOrder(res, health, Next(res, core, queue[0], oracle(k)), left, oracle, k + 1, trace[1..]);
      assert Processed(trace)[1..] == Processed(trace[1..]);
      assert NotAuto(left) == NotAuto(queue[1..]);
    }
  }

  // ----- where it ends

  lemma RunCons(res: Resolver, core: Core, trace: seq<Event>)
    requires trace != []
    ensures Run(res, core, trace) == Run(res, Step(res, core, trace[0]), trace[1..])
  {
    hide Step;
    assert trace == [trace[0]] + trace[1..];
    RunAppend(res, core, [trace[0]], trace[1..]);
    assert [trace[0]][..0] == [];
    assert Run(res, core, [trace[0]]) == Step(res, Run(res, core, []), trace[0]);
  }

  ghost predicate SameTicks(a: Core, b: Core) {
    forall n :: Tick(a.clock, n) == Tick(b.clock, n)
  }

  /** Nobody vetoes, rejects or fails. */
  ghost predicate AllAgree(oracle: nat -> Outcome) {
    forall i :: oracle(i).accept && oracle(i).rejected == {} && oracle(i).finals.Completed?
  }

  ghost predicate Plain(health: set<Name>, queue: seq<Mutation>) {
    forall i :: 0 <= i < |queue| ==> !queue[i].isAuto && !IsHealth(health, queue[i])
  }

  lemma NextIsClosed(res: Resolver, core: Core, mut: Mutation, o: Outcome)
    requires OnlyRequire(res) && Closed(res.schema, Elems(core.active)) && o.finals.Completed?
    ensures Closed(res.schema, Elems(Next(res, core, mut, o).active))
  {
    hide Passes, Closed;
    var target := FinalTarget(res, core, mut, o);
    assert exists t :: Elems(target) == Kernel(res.schema, Elems(t)) by {
      if mut.isAuto {
        var left := Negotiated(res.schema, mut, Plan(res, core, mut), o);
        assert Elems(target) == Kernel(res.schema, Elems(Diff(mut.called, Diff(mut.called, left)) + core.active));
      } else {
        assert Elems(target) == Kernel(res.schema, Elems(StatesToSet(mut.typ, mut.called, core.active)));
      }
    }
    hide FinalTarget, Kernel;
    var t :| Elems(target) == Kernel(res.schema, Elems(t));
    KernelIsGreatest(res.schema, Elems(t));
  }

  /** Where no tick changed, the same states are active. */
  lemma SameClockSameActive(res: Resolver, core: Core, mut: Mutation, o: Outcome)
    requires o.finals.Completed? && Next(res, core, mut, o).clock == core.clock
    ensures Elems(Next(res, core, mut, o).active) == Elems(core.active)
  {
    hide Passes, FinalTarget;
    var target := FinalTarget(res, core, mut, o);
    if Next(res, core, mut, o) != core {
      forall n ensures n in target <==> n in core.active {
        SetActiveTicks(res.schema, core, mut.called, target, n);
      }
    }
  }

  lemma SettledBySet(schema: Schema, a: seq<Name>, b: seq<Name>)
    requires Elems(a) == Elems(b) && Settled(schema, a)
    ensures Settled(schema, b)
  {
    assert forall n :: n in a <==> n in Elems(a);
    assert forall n :: n in b <==> n in Elems(b);
    SettledIff(schema, a);
    SettledIff(schema, b);
    hide Settled;
    assert AutoStates(schema, a) == AutoStates(schema, b);
  }

  /** A plain mutation that no auto mutation follows leaves the machine settled, if it was,
      and its ticks alone, if it was not. */
  lemma UnfollowedIsSettled(res: Resolver, health: set<Name>, start: Core, core: Core, mut: Mutation, o: Outcome)
    requires o.finals.Completed? && !mut.isAuto && !IsHealth(health, mut) && !Followed(res, health, core, mut, o)
    requires Settled(res.schema, core.active) || SameTicks(start, core)
    ensures var next := Next(res, core, mut, o); Settled(res.schema, next.active) || SameTicks(start, next)
  {
    var next := Next(res, core, mut, o);
    SettledIff(res.schema, next.active);
    hide Next, Passes, Kernel, Settled;
    if next.clock == core.clock {
      SameClockSameActive(res, core, mut, o);
      if Settled(res.schema, core.active) {
        SettledBySet(res.schema, core.active, next.active);
      }
    } else {
      ChangedMeansLanded(res, core, mut, o);
    }
  }

  lemma ChangedMeansLanded(res: Resolver, core: Core, mut: Mutation, o: Outcome)
    requires o.finals.Completed? && Next(res, core, mut, o) != core
    ensures Lands(res, core, mut, o)
  {
    hide Passes;
  }

  /** Where only Require decides and everybody agrees, a drained machine is settled: every
      auto state that could be active is. It is left as it was only if no tick changed. */
  lemma {:induction false} DrainedIsSettled(
    res: Resolver, health: set<Name>, start: Core, core: Core, queue: seq<Mutation>,
    oracle: nat -> Outcome, k: nat, trace: seq<Event>)
    requires OnlyRequire(res) && Closed(res.schema, Elems(core.active)) && AllAgree(oracle)
    requires Drains(res, health, core, queue, oracle, k, trace)
    requires || (Plain(health, queue) && (Settled(res.schema, core.active) || SameTicks(start, core)))
             || (queue != [] && Plain(health, queue[1..]) && IsAutoMutation(res.schema, core, queue[0]))
    ensures var end := Run(res, core, trace); Settled(res.schema, end.active) || SameTicks(start, end)
    decreases |trace|
  {
    hide Next, OnlyRequire, Closed, Settled, SameTicks, Followed, IsAutoMutation;
    if queue != [] {
      var mut, o := queue[0], oracle(k);
      var next := Next(res, core, mut, o);
      var left :| QueueAfter(res, health, core, queue, o, left)
                  && Drains(res, health, next, left, oracle, k + 1, trace[1..]);
      NextIsClosed(res, core, mut, o);
      RunCons(res, core, trace);
      AutoOrPlain(res, health, start, core, queue, o, left);
      DrainedIsSettled(res, health, start, next, left, oracle, k + 1, trace[1..]);
    }
  }

  lemma AutoOrPlain(
    res: Resolver, health: set<Name>, start: Core, core: Core, queue: seq<Mutation>, o: Outcome, left: seq<Mutation>)
    requires OnlyRequire(res) && Closed(res.schema, Elems(core.active))
    requires o.accept && o.rejected == {} && o.finals.Completed?
    requires queue != [] && QueueAfter(res, health, core, queue, o, left)
    requires || (Plain(health, queue) && (Settled(res.schema, core.active) || SameTicks(start, core)))
             || (Plain(health, queue[1..]) && IsAutoMutation(res.schema, core, queue[0]))
    ensures var next := Next(res, core, queue[0], o);
            || (Plain(health, left) && (Settled(res.schema, next.active) || SameTicks(start, next)))
            || (left != [] && Plain(health, left[1..]) && IsAutoMutation(res.schema, next, left[0]))
  {
    hide Next, OnlyRequire, Closed, Settled, SameTicks;
    if IsAutoMutation(res.schema, core, queue[0]) && Plain(health, queue[1..]) {
      AutoSettles(res, core, queue[0], o);
    } else if !Followed(res, health, core, queue[0], o) {
      assert Plain(health, queue[1..]);
      hide Followed;
      UnfollowedIsSettled(res, health, start, core, queue[0], o);
    } else {
      hide Followed;
      assert Plain(health, queue[1..]);
    }
  }

  // ----- skipped duplicates

  /** The mutation would leave every tick alone: what it adds is active or cannot be, what
      it removes is inactive, what it sets is what is active or cannot be. */
  ghost predicate Idle(schema: Schema, active: seq<Name>, mut: Mutation) {
    var called, now := Elems(mut.called), Elems(active);
    match mut.typ
    case Add => called <= now || !(called <= Kernel(schema, now + called))
    case Remove => called !! now
    case Set => now == Kernel(schema, called) || !(called <= Kernel(schema, called))
  }

  lemma SameTicksIff(res: Resolver, core: Core, mut: Mutation, o: Outcome)
    requires Lands(res, core, mut, o) && forall n :: n in mut.called ==> !Def(res.schema, n).multi
    ensures SameTicks(core, Next(res, core, mut, o)) <==> Elems(Next(res, core, mut, o).active) == Elems(core.active)
  {
    hide Passes, FinalTarget;
    var next, target := Next(res, core, mut, o), FinalTarget(res, core, mut, o);
    forall n ensures Tick(next.clock, n) == Tick(core.clock, n) <==> (n in target <==> n in core.active) {
      SetActiveTicks(res.schema, core, mut.called, target, n);
    }
    assert forall n :: n in target <==> n in Elems(target);
    assert forall n :: n in core.active <==> n in Elems(core.active);
  }

  lemma LandsIff(res: Resolver, core: Core, mut: Mutation, o: Outcome)
    requires OnlyRequire(res) && !mut.isAuto && !mut.isCheck && o.accept && o.finals.Completed?
    ensures Lands(res, core, mut, o) <==>
            mut.typ.Remove? || Elems(mut.called) <= Kernel(res.schema, Requested(mut, core.active))
  {
    assert Elems(StatesToSet(mut.typ, mut.called, core.active)) == Requested(mut, core.active);
    var target := Plan(res, core, mut);
    assert Elems(target) == Kernel(res.schema, Requested(mut, core.active));
    if !mut.typ.Remove? {
      AllCalledOrNothing(res, core, mut, o);
      hide Plan, Kernel, Lands;
      assert forall n :: n in target <==> n in Elems(target);
    }
  }

  /** A mutation that calls no Multi state leaves every tick alone if and only if it is
      idle, where only Require decides and nobody vetoes. */
  lemma IdleKeepsTicks(res: Resolver, core: Core, mut: Mutation, o: Outcome)
    requires OnlyRequire(res) && Closed(res.schema, Elems(core.active))
    requires !mut.isAuto && !mut.isCheck && o.accept && o.finals.Completed?
    requires forall n :: n in mut.called ==> !Def(res.schema, n).multi
    ensures SameTicks(core, Next(res, core, mut, o)) <==> Idle(res.schema, core.active, mut)
  {
    var schema, wanted := res.schema, Requested(mut, core.active);
    LandsIff(res, core, mut, o);
    KernelOfClosed(schema, Elems(core.active));
    KernelIsGreatest(schema, wanted);
    hide Kernel, Closed, OnlyRequire, Next;
    if Lands(res, core, mut, o) {
      MutationMeaning(res, core, mut, o);
      SameTicksIff(res, core, mut, o);
      hide Lands, SameTicks;
      match mut.typ
      case Add =>
        if Elems(mut.called) <= Elems(core.active) {
          assert wanted == Elems(core.active);
        }
      case Remove =>
        if Elems(mut.called) !! Elems(core.active) {
          assert wanted == Elems(core.active);
        }
      case Set =>
    } else {
      NotLanded(res, core, mut, o);
    }
  }

  lemma NotLanded(res: Resolver, core: Core, mut: Mutation, o: Outcome)
    requires o.finals.Completed? && !Lands(res, core, mut, o)
    ensures Next(res, core, mut, o) == core
  {
    hide Passes;
  }

  /** Right after a mutation has landed, a duplicate of it is idle. */
  lemma DuplicateIsIdle(res: Resolver, core: Core, mut: Mutation, o: Outcome)
    requires OnlyRequire(res) && Lands(res, core, mut, o) && !mut.isAuto
    ensures Idle(res.schema, Next(res, core, mut, o).active, mut)
  {
    var wanted := Requested(mut, core.active);
    MutationMeaning(res, core, mut, o);
    LandsIff(res, core, mut, o);
    KernelIsGreatest(res.schema, wanted);
    hide Kernel, Next, OnlyRequire, Lands;
  }
}
