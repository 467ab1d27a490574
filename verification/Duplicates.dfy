/** What skipping a queued duplicate does to the drained machine. */
module Duplicates {
  import opened Slices
  import opened Schemas
  import opened Resolvers
  import opened Transitions
  import opened TransitionFacts
  import opened Effects
  import opened Draining

  // ----- states that only differ in the order of active states

  ghost predicate Alike(a: Core, b: Core) {
    SameTicks(a, b) && Elems(a.active) == Elems(b.active)
  }

  /** Closed under Require, and every active state has a clock. */
  ghost predicate Steady(schema: Schema, core: Core) {
    Closed(schema, Elems(core.active)) && forall n :: n in core.active ==> n in core.clock
  }

  ghost predicate Agrees(o: Outcome) {
    o.accept && o.rejected == {} && o.finals.Completed?
  }

  /** The ticks of a landed transition, by membership alone. */
  lemma LandedTicks(res: Resolver, core: Core, mut: Mutation, o: Outcome, n: Name)
    requires Lands(res, core, mut, o)
    ensures var next := Next(res, core, mut, o);
            && Tick(next.clock, n) == NextTick(res.schema, core, mut.called, next.active, n)
            && next.clock.Keys == core.clock.Keys + Elems(next.active) + Elems(core.active)
  {
    hide Passes, FinalTarget;
    SetActiveTicks(res.schema, core, mut.called, FinalTarget(res, core, mut, o), n);
  }

  lemma NextIsSteady(res: Resolver, core: Core, mut: Mutation, o: Outcome)
    requires OnlyRequire(res) && Steady(res.schema, core) && o.finals.Completed?
    ensures Steady(res.schema, Next(res, core, mut, o))
  {
    hide OnlyRequire, Closed, Passes, Next;
    NextIsClosed(res, core, mut, o);
    if Lands(res, core, mut, o) {
      forall n | n in Next(res, core, mut, o).active ensures n in Next(res, core, mut, o).clock {
        LandedTicks(res, core, mut, o, n);
      }
    } else {
      NotLanded(res, core, mut, o);
    }
  }

  lemma NextNotBefore(res: Resolver, core: Core, mut: Mutation, o: Outcome)
    requires o.finals.Completed?
    ensures NotBefore(core, Next(res, core, mut, o))
  {
    hide Next, Passes;
    if Lands(res, core, mut, o) {
      forall n ensures Tick(core.clock, n) <= Tick(Next(res, core, mut, o).clock, n) {
        LandedTicks(res, core, mut, o, n);
      }
    } else {
      NotLanded(res, core, mut, o);
    }
  }

  /** Where no tick changed, the clock is the same map. */
  lemma SameClock(res: Resolver, core: Core, mut: Mutation, o: Outcome)
    requires o.finals.Completed? && Steady(res.schema, core)
    ensures Next(res, core, mut, o).clock == core.clock <==> SameTicks(core, Next(res, core, mut, o))
  {
    hide Next, Passes, Closed;
    var next := Next(res, core, mut, o);
    if SameTicks(core, next) && Lands(res, core, mut, o) {
      forall n | n in next.active ensures n in core.active {
        LandedTicks(res, core, mut, o, n);
      }
      forall n ensures n in next.clock <==> n in core.clock {
        LandedTicks(res, core, mut, o, n);
        assert n in Elems(next.active) ==> n in next.active;
        assert n in Elems(core.active) ==> n in core.active;
      }
      forall n | n in next.clock ensures next.clock[n] == core.clock[n] {
        assert Tick(core.clock, n) == Tick(next.clock, n);
      }
    } else if !Lands(res, core, mut, o) {
      NotLanded(res, core, mut, o);
    }
  }

  // ----- equal mutations lead to alike states

  lemma PlainAlike(res: Resolver, a: Core, b: Core, mut: Mutation, o: Outcome)
    requires OnlyRequire(res) && Agrees(o) && Alike(a, b) && !mut.isAuto
    ensures Lands(res, a, mut, o) <==> Lands(res, b, mut, o)
    ensures Alike(Next(res, a, mut, o), Next(res, b, mut, o))
  {
    assert Requested(mut, a.active) == Requested(mut, b.active);
    hide OnlyRequire, Next, Passes, Requested, Kernel;
    if mut.isCheck {
      NotLanded(res, a, mut, o);
      NotLanded(res, b, mut, o);
    } else {
      LandsIff(res, a, mut, o);
      LandsIff(res, b, mut, o);
      hide Lands;
      if Lands(res, a, mut, o) {
        MutationMeaning(res, a, mut, o);
        MutationMeaning(res, b, mut, o);
        TicksAlike(res, a, b, mut, mut, o);
      } else {
        NotLanded(res, a, mut, o);
        NotLanded(res, b, mut, o);
      }
    }
  }

  lemma TicksAlike(res: Resolver, a: Core, b: Core, first: Mutation, second: Mutation, o: Outcome)
    requires Lands(res, a, first, o) && Lands(res, b, second, o) && Alike(a, b)
    requires Elems(first.called) == Elems(second.called)
    requires Elems(Next(res, a, first, o).active) == Elems(Next(res, b, second, o).active)
    ensures SameTicks(Next(res, a, first, o), Next(res, b, second, o))
  {
    hide Lands, Next;
    var x, y := Next(res, a, first, o), Next(res, b, second, o);
    forall n ensures Tick(x.clock, n) == Tick(y.clock, n) {
      LandedTicks(res, a, first, o, n);
      LandedTicks(res, b, second, o, n);
      assert Tick(a.clock, n) == Tick(b.clock, n);
      assert n in a.active <==> n in Elems(a.active);
      assert n in b.active <==> n in Elems(b.active);
      assert n in x.active <==> n in Elems(x.active);
      assert n in y.active <==> n in Elems(y.active);
      assert n in first.called <==> n in Elems(first.called);
      assert n in second.called <==> n in Elems(second.called);
    }
  }

  /** An auto mutation lands if and only if Require supports one of its states. */
  lemma AutoLandsIff(res: Resolver, core: Core, mut: Mutation, o: Outcome)
    requires OnlyRequire(res) && Agrees(o) && IsAutoMutation(res.schema, core, mut)
    ensures Lands(res, core, mut, o) <==>
            exists n :: n in Elems(mut.called) && n in Kernel(res.schema, Elems(mut.called) + Elems(core.active))
  {
    var target := Plan(res, core, mut);
    assert Elems(mut.called + core.active) == Elems(mut.called) + Elems(core.active);
    assert Elems(target) == Kernel(res.schema, Elems(mut.called) + Elems(core.active));
    hide Plan, OnlyRequire, Kernel, IsAutoMutation;
    assert forall n :: n in target <==> n in Elems(target);
    assert forall n :: n in mut.called <==> n in Elems(mut.called);
    if n :| n in mut.called && n in target {
      if |Diff(mut.called, target)| >= |mut.called| {
        DiffSameLength(mut.called, target);
      }
      assert n in Negotiated(res.schema, mut, target, o);
    } else {
      DiffAll(mut.called, target);
    }
  }

  lemma AutoAlike(res: Resolver, a: Core, b: Core, first: Mutation, second: Mutation, o: Outcome)
    requires OnlyRequire(res) && Agrees(o) && Alike(a, b) && Steady(res.schema, a) && Steady(res.schema, b)
    requires IsAutoMutation(res.schema, a, first) && IsAutoMutation(res.schema, b, second)
    ensures Alike(Next(res, a, first, o), Next(res, b, second, o))
  {
    AutoBySet(res.schema, a.active, b.active);
    AutoLandsIff(res, a, first, o);
    AutoLandsIff(res, b, second, o);
    AutoReaches(res, a, first, o);
    AutoReaches(res, b, second, o);
    hide OnlyRequire, Lands, Next, AutoStates, Kernel;
    if Lands(res, a, first, o) {
      TicksAlike(res, a, b, first, second, o);
    } else {
      NotLanded(res, a, first, o);
      NotLanded(res, b, second, o);
    }
  }

  lemma AutoBySet(schema: Schema, a: seq<Name>, b: seq<Name>)
    requires Elems(a) == Elems(b)
    ensures AutoStates(schema, a) == AutoStates(schema, b)
  {
    assert forall n :: n in a <==> n in Elems(a);
    assert forall n :: n in b <==> n in Elems(b);
  }

  // ----- equal queues drain alike

  /** Nothing in the queue is auto, except that an auto mutation for the current active
      states may come first. */
  ghost predicate Following(schema: Schema, core: Core, queue: seq<Mutation>) {
    && (queue != [] && queue[0].isAuto ==> IsAutoMutation(schema, core, queue[0]))
    && forall i :: 1 <= i < |queue| ==> !queue[i].isAuto
  }

  /** The same mutations, or an auto mutation in front of each. */
  ghost predicate SameQueues(first: seq<Mutation>, second: seq<Mutation>) {
    |first| == |second| &&
    (first == [] || (
      first[1..] == second[1..] && (first[0] == second[0] || (first[0].isAuto && second[0].isAuto))))
  }

  lemma FrontAlike(
    res: Resolver, health: set<Name>, a: Core, b: Core, first: seq<Mutation>, second: seq<Mutation>, o: Outcome,
    left: seq<Mutation>, right: seq<Mutation>)
    requires OnlyRequire(res) && Agrees(o) && Alike(a, b) && Steady(res.schema, a) && Steady(res.schema, b)
    requires first != [] && SameQueues(first, second)
    requires Following(res.schema, a, first) && Following(res.schema, b, second)
    requires QueueAfter(res, health, a, first, o, left) && QueueAfter(res, health, b, second, o, right)
    ensures var x, y := Next(res, a, first[0], o), Next(res, b, second[0], o);
            && Alike(x, y) && SameQueues(left, right)
            && Following(res.schema, x, left) && Following(res.schema, y, right)
  {
    hide OnlyRequire, Next, Lands, Kernel, AutoStates, Steady;
    var x, y := Next(res, a, first[0], o), Next(res, b, second[0], o);
    assert forall i :: 1 <= i < |first| ==> first[i] == first[1..][i - 1];
    assert forall i :: 1 <= i < |second| ==> second[i] == second[1..][i - 1];
    if first[0].isAuto {
      AutoAlike(res, a, b, first[0], second[0], o);
    } else {
      PlainAlike(res, a, b, first[0], o);
      SameClock(res, a, first[0], o);
      SameClock(res, b, first[0], o);
      AutoBySet(res.schema, x.active, y.active);
      SameTicksAlike(a, b, x, y);
    }
  }

  lemma SameTicksAlike(a: Core, b: Core, x: Core, y: Core)
    requires SameTicks(a, b) && SameTicks(x, y)
    ensures SameTicks(a, x) <==> SameTicks(b, y)
  {
    if SameTicks(a, x) {
      forall n ensures Tick(b.clock, n) == Tick(y.clock, n) {
        assert Tick(a.clock, n) == Tick(b.clock, n) && Tick(x.clock, n) == Tick(y.clock, n);
        assert Tick(a.clock, n) == Tick(x.clock, n);
      }
    }
    if SameTicks(b, y) {
      forall n ensures Tick(a.clock, n) == Tick(x.clock, n) {
        assert Tick(a.clock, n) == Tick(b.clock, n) && Tick(x.clock, n) == Tick(y.clock, n);
        assert Tick(b.clock, n) == Tick(y.clock, n);
      }
    }
  }

  lemma {:induction false} DrainsAlike(
    res: Resolver, health: set<Name>, a: Core, b: Core, first: seq<Mutation>, second: seq<Mutation>,
    oracle: nat -> Outcome, k: nat, one: seq<Event>, two: seq<Event>)
    requires OnlyRequire(res) && AllAgree(oracle) && Alike(a, b)
    requires Steady(res.schema, a) && Steady(res.schema, b) && SameQueues(first, second)
    requires Following(res.schema, a, first) && Following(res.schema, b, second)
    requires Drains(res, health, a, first, oracle, k, one) && Drains(res, health, b, second, oracle, k, two)
    ensures Alike(Run(res, a, one), Run(res, b, two))
    decreases |one|
  {
    hide Next, OnlyRequire, Alike, Steady, QueueAfter, Following, SameQueues;
    assert |first| == |second| by {
      SameLength(first, second);
    }
    if first != [] {
      var o := oracle(k);
      var left :| QueueAfter(res, health, a, first, o, left)
                  && Drains(res, health, Next(res, a, first[0], o), left, oracle, k + 1, one[1..]);
      var right :| QueueAfter(res, health, b, second, o, right)
                   && Drains(res, health, Next(res, b, second[0], o), right, oracle, k + 1, two[1..]);
      FrontAlike(res, health, a, b, first, second, o, left, right);
      NextIsSteady(res, a, first[0], o);
      NextIsSteady(res, b, second[0], o);
      RunCons(res, a, one);
      RunCons(res, b, two);
      DrainsAlike(res, health, Next(res, a, first[0], o), Next(res, b, second[0], o), left, right,
        oracle, k + 1, one[1..], two[1..]);
    }
  }

  lemma SameLength(first: seq<Mutation>, second: seq<Mutation>)
    requires SameQueues(first, second)
    ensures |first| == |second|
  {
  }

  // ----- one more mutation at the end

  lemma QueueAfterMore(
    res: Resolver, health: set<Name>, core: Core, queue: seq<Mutation>, mut: Mutation, o: Outcome, left: seq<Mutation>)
    requires queue != [] && QueueAfter(res, health, core, queue + [mut], o, left)
    ensures left != [] && left == left[..|left| - 1] + [mut]
    ensures QueueAfter(res, health, core, queue, o, left[..|left| - 1])
  {
    hide Followed, IsAutoMutation, Next;
    assert (queue + [mut])[0] == queue[0] && (queue + [mut])[1..] == queue[1..] + [mut];
    if Followed(res, health, core, queue[0], o) {
      assert left == [left[0]] + queue[1..] + [mut];
      assert left[..|left| - 1] == [left[0]] + queue[1..];
    } else {
      assert left[..|left| - 1] == queue[1..];
    }
  }

  /** Draining a queue with one more mutation drains the queue first. */
  lemma {:induction false} DrainsFirst(
    res: Resolver, health: set<Name>, core: Core, queue: seq<Mutation>, mut: Mutation,
    oracle: nat -> Outcome, k: nat, trace: seq<Event>) returns (j: nat)
    requires Drains(res, health, core, queue + [mut], oracle, k, trace)
    ensures j <= |trace| && Drains(res, health, core, queue, oracle, k, trace[..j])
    ensures Drains(res, health, Run(res, core, trace[..j]), [mut], oracle, k + j, trace[j..])
    decreases |trace|
  {
    hide Next, QueueAfter;
    if queue == [] {
      j := 0;
      assert queue + [mut] == [mut] && trace[0..] == trace && trace[..0] == [];
    } else {
      var o, next := oracle(k), Next(res, core, queue[0], oracle(k));
      assert (queue + [mut])[0] == queue[0];
      var left :| QueueAfter(res, health, core, queue + [mut], o, left)
                  && Drains(res, health, next, left, oracle, k + 1, trace[1..]);
      QueueAfterMore(res, health, core, queue, mut, o, left);
      var rest := trace[1..];
      var i := DrainsFirst(res, health, next, left[..|left| - 1], mut, oracle, k + 1, rest);
      j := i + 1;
      DrainsMore(res, health, core, queue, oracle, k, left[..|left| - 1], rest[..i]);
      assert trace[..j] == [trace[0]] + rest[..i] && trace[j..] == rest[i..];
      RunCons(res, core, trace[..j]);
      assert trace[..j][1..] == rest[..i] && trace[..j][0] == trace[0];
    }
  }

  lemma {:induction false} DrainsSteady(
    res: Resolver, health: set<Name>, core: Core, queue: seq<Mutation>, oracle: nat -> Outcome, k: nat,
    trace: seq<Event>)
    requires OnlyRequire(res) && AllAgree(oracle) && Steady(res.schema, core)
    requires Drains(res, health, core, queue, oracle, k, trace)
    ensures Steady(res.schema, Run(res, core, trace)) && NotBefore(core, Run(res, core, trace))
    decreases |trace|
  {
    hide Next, OnlyRequire, Steady, QueueAfter, NotBefore;
    if queue == [] {
      StaysThere(core);
    } else {
      var o, next := oracle(k), Next(res, core, queue[0], oracle(k));
      var left :| QueueAfter(res, health, core, queue, o, left)
                  && Drains(res, health, next, left, oracle, k + 1, trace[1..]);
      NextIsSteady(res, core, queue[0], o);
      NextNotBefore(res, core, queue[0], o);
      RunCons(res, core, trace);
      DrainsSteady(res, health, next, left, oracle, k + 1, trace[1..]);
      NotBeforeTrans(core, next, Run(res, core, trace));
    }
  }

  lemma StaysThere(core: Core)
    ensures NotBefore(core, core)
  {
  }

  lemma SteadyIsClosed(schema: Schema, core: Core)
    requires Steady(schema, core)
    ensures Closed(schema, Elems(core.active))
  {
  }

  /** Draining one mutation goes on with what is left behind it; where no tick changed, that
      is nothing. */
  lemma OneDrained(
    res: Resolver, health: set<Name>, core: Core, mut: Mutation, oracle: nat -> Outcome, k: nat, trace: seq<Event>)
    returns (left: seq<Mutation>)
    requires AllAgree(oracle) && Steady(res.schema, core) && Drains(res, health, core, [mut], oracle, k, trace)
    ensures trace != [] && Drains(res, health, Next(res, core, mut, oracle(k)), left, oracle, k + 1, trace[1..])
    ensures Run(res, core, trace) == Run(res, Next(res, core, mut, oracle(k)), trace[1..])
    ensures SameTicks(core, Next(res, core, mut, oracle(k))) ==>
              Run(res, core, trace) == Next(res, core, mut, oracle(k))
  {
    var o, next := oracle(k), Next(res, core, mut, oracle(k));
    left :| QueueAfter(res, health, core, [mut], o, left)
            && Drains(res, health, next, left, oracle, k + 1, trace[1..]);
    hide Next, Steady, SameTicks, Lands;
    RunCons(res, core, trace);
    SameClock(res, core, mut, o);
    if SameTicks(core, next) {
      assert left == [];
    }
  }

  /** One mutation drained from where the queue had ended. */
  lemma LastIsIdle(
    res: Resolver, health: set<Name>, core: Core, mut: Mutation, oracle: nat -> Outcome, k: nat, trace: seq<Event>)
    requires OnlyRequire(res) && AllAgree(oracle) && Steady(res.schema, core)
    requires !mut.isAuto && !mut.isCheck && forall n :: n in mut.called ==> !Def(res.schema, n).multi
    requires Drains(res, health, core, [mut], oracle, k, trace)
    ensures SameTicks(core, Run(res, core, trace)) <==> Idle(res.schema, core.active, mut)
  {
    hide Next, OnlyRequire, Idle, Closed, Drains, Run, Steady;
    var o, next := oracle(k), Next(res, core, mut, oracle(k));
    var left := OneDrained(res, health, core, mut, oracle, k, trace);
    SteadyIsClosed(res.schema, core);
    IdleKeepsTicks(res, core, mut, o);
    NextIsSteady(res, core, mut, o);
    hide SameTicks, NotBefore, AllAgree;
    if !SameTicks(core, next) {
      NextNotBefore(res, core, mut, o);
      DrainsSteady(res, health, next, left, oracle, k + 1, trace[1..]);
      StrictlyLater(core, next, Run(res, core, trace));
    }
  }

  lemma StrictlyLater(a: Core, b: Core, c: Core)
    requires NotBefore(a, b) && NotBefore(b, c) && !SameTicks(a, b)
    ensures !SameTicks(a, c)
  {
    var n :| Tick(a.clock, n) != Tick(b.clock, n);
    assert Tick(a.clock, n) < Tick(b.clock, n) <= Tick(c.clock, n);
  }

  /** A mutation that is not appended, having been queued before: draining the queue without
      it ends with the ticks of draining it too, if and only if it is idle in the drained
      machine. Where only Require decides, everybody agrees and no Multi state is called. */
  lemma SkipIsHarmless(
    res: Resolver, health: set<Name>, core: Core, queue: seq<Mutation>, mut: Mutation,
    oracle: nat -> Outcome, without: seq<Event>, trace: seq<Event>)
    requires OnlyRequire(res) && AllAgree(oracle) && Plain(health, queue) && Steady(res.schema, core)
    requires !mut.isAuto && !mut.isCheck && forall n :: n in mut.called ==> !Def(res.schema, n).multi
    requires Drains(res, health, core, queue, oracle, 0, without)
    requires Drains(res, health, core, queue + [mut], oracle, 0, trace)
    ensures var end := Run(res, core, without);
            SameTicks(end, Run(res, core, trace)) <==> Idle(res.schema, end.active, mut)
  {
    hide OnlyRequire, Steady, Drains, Run, Following, SameQueues, Idle, AllAgree, Plain, SameTicks;
    SameStart(res.schema, health, core, queue);
    var j := DrainsFirst(res, health, core, queue, mut, oracle, 0, trace);
    var end, mid := Run(res, core, without), Run(res, core, trace[..j]);
    DrainsAlike(res, health, core, core, queue, queue, oracle, 0, without, trace[..j]);
    DrainsSteady(res, health, core, queue, oracle, 0, trace[..j]);
    LastIsIdle(res, health, mid, mut, oracle, j, trace[j..]);
    RunAppend(res, core, trace[..j], trace[j..]);
    assert trace[..j] + trace[j..] == trace;
    IdleBySet(res.schema, end.active, mid.active, mut);
    SameTicksAlike(end, mid, Run(res, core, trace), Run(res, core, trace));
  }

  lemma SameStart(schema: Schema, health: set<Name>, core: Core, queue: seq<Mutation>)
    requires Plain(health, queue)
    ensures Following(schema, core, queue) && SameQueues(queue, queue) && Alike(core, core)
  {
  }

  lemma IdleBySet(schema: Schema, a: seq<Name>, b: seq<Name>, mut: Mutation)
    requires Elems(a) == Elems(b)
    ensures Idle(schema, a, mut) <==> Idle(schema, b, mut)
  {
  }
}
