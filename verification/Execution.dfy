/** Running transitions: negotiation, commit, final phase and the queue loop. */
module Execution {
  import opened Slices
  import opened Schemas
  import opened Resolvers
  import opened DefaultResolver
  import opened Transitions
  import opened TransitionFacts
  import opened Effects
  import opened Queue
  import opened Draining
  import opened Machine

  /** The default resolver, asked through the interface. */
  method AskTargets(rel: Relations, call: Call, toSet: seq<Name>) returns (target: seq<Name>)
    ensures target == Default(rel).targets(call, toSet)
  {
    hide Targets;
    target := TargetStates(rel, call, toSet);
  }

  method AskExits(rel: Relations, active: seq<Name>, target: seq<Name>) returns (exits: seq<Name>)
    ensures exits == Exits(Default(rel), active, target)
  {
    hide SortStates;
    exits := SortStates(rel, Diff(active, target));
  }

  /** Ticks a copy of machine time for every target, by index. */
  method PredictTargets(
    schema: Schema, names: seq<Name>, now: seq<nat>, active: seq<Name>, called: seq<Name>, target: seq<Name>)
    returns (time: seq<nat>)
    requires |now| == |names| && NoDup(names) && NoDup(target) && forall n :: n in target ==> n in names
    ensures |time| == |names|
    ensures forall i :: 0 <= i < |names| ==>
              time[i] == now[i] + if names[i] in target then Stride(schema, active, called, names[i]) else 0
  {
    time := now;
    for k := 0 to |target|
      invariant |time| == |names|
      invariant forall i :: 0 <= i < |names| ==>
                  time[i] == now[i] + if names[i] in target[..k] then Stride(schema, active, called, names[i]) else 0
    {
      var name := target[k];
      assert name !in target[..k] && target[..k + 1] == target[..k] + [name];
      var idx := IndexOf(names, name);
      time := time[idx := time[idx] + Stride(schema, active, called, name)];
    }
    assert target[..|target|] == target;
  }

  method PredictRemoved(names: seq<Name>, now: seq<nat>, removed: seq<Name>) returns (time: seq<nat>)
    requires |now| == |names| && NoDup(names) && NoDup(removed) && forall n :: n in removed ==> n in names
    ensures |time| == |names|
    ensures forall i :: 0 <= i < |names| ==> time[i] == now[i] + if names[i] in removed then 1 else 0
  {
    time := now;
    for k := 0 to |removed|
      invariant |time| == |names|
      invariant forall i :: 0 <= i < |names| ==> time[i] == now[i] + if names[i] in removed[..k] then 1 else 0
    {
      var name := removed[k];
      assert name !in removed[..k] && removed[..k + 1] == removed[..k] + [name];
      var idx := IndexOf(names, name);
      time := time[idx := time[idx] + 1];
    }
    assert removed[..|removed|] == removed;
  }

  /** What machine time will be, as far as it is known before the handlers run. */
  method PredictTime(schema: Schema, names: seq<Name>, core: Core, called: seq<Name>, target: seq<Name>)
    returns (time: seq<nat>)
    requires NoDup(names) && NoDup(target) && NoDup(core.active)
    requires forall n :: n in target || n in core.active ==> n in names
    ensures time == TimeOf(names, SetActive(schema, core, called, target).clock)
  {
    time := PredictTargets(schema, names, TimeOf(names, core.clock), core.active, called, target);
    DiffNoDup(core.active, target);
    time := PredictRemoved(names, time, Diff(core.active, target));
    forall i | 0 <= i < |names|
      ensures time[i] == Tick(SetActive(schema, core, called, target).clock, names[i])
    {
      SetActiveTicks(schema, core, called, target, names[i]);
    }
  }

  class Transition {
    const mach: Machine
    const mut: Mutation
    /** Clock and active states from before the transition. */
    const before: Core
    var targetStates: seq<Name>
    var timeAfter: seq<nat>
    var isAccepted: bool
    var enters: seq<Name>
    var exits: seq<Name>
    var activated: seq<Name>
    var deactivated: seq<Name>

    /** Resolves the targets, predicts machine time and checks acceptance. */
    constructor (mach: Machine, mut: Mutation)
      requires mach.Valid() && forall n :: n in mut.called ==> n in mach.rel.schema
      ensures this.mach == mach && this.mut == mut && before == mach.Core()
      ensures targetStates == Plan(mach.res, before, mut)
      ensures isAccepted <==> Accepted(mach.rel.schema, mut, targetStates)
      ensures isAccepted ==> enters == Enters(mach.rel.schema, before.active, mut.called, targetStates)
      ensures isAccepted ==> exits == Exits(mach.res, before.active, targetStates)
      ensures timeAfter == TimeOf(mach.names,
                if mut.isCheck then before.clock
                else SetActive(mach.rel.schema, before, mut.called, targetStates).clock)
    {
      this.mach, this.mut := mach, mut;
      var core := Core(mach.clock, mach.activeStates);
      before := core;
      var toSet := StatesToSet(mut.typ, mut.called, core.active);
      var target := AskTargets(mach.rel, CallOf(mut, core), toSet);
      hide Default, SetActive;
      FinalTargetKnown(mach.res, core, mut, Outcome(true, {}, Completed));
      forall n | n in target || n in core.active ensures n in mach.names {
        assert n in Elems(mach.names);
      }
      var time := TimeOf(mach.names, core.clock);
      if !mut.isCheck {
        time := PredictTime(mach.rel.schema, mach.names, core, mut.called, target);
      }
      timeAfter, targetStates := time, target;
      isAccepted := Accepted(mach.rel.schema, mut, target);
      var sorted := AskExits(mach.rel, core.active, target);
      exits := sorted;
      enters := Enters(mach.rel.schema, core.active, mut.called, target);
      activated, deactivated := [], [];
    }

    /** Same transition, machine not touched yet. */
    ghost predicate Planned()
      reads this, mach
    {
      && mach.Valid() && before == mach.Core()
      && (forall n :: n in mut.called ==> n in mach.rel.schema)
      && targetStates == Plan(mach.res, before, mut)
      && (isAccepted <==> Accepted(mach.rel.schema, mut, targetStates))
      && (isAccepted ==> enters == Enters(mach.rel.schema, before.active, mut.called, targetStates))
      && (isAccepted ==> exits == Exits(mach.res, before.active, targetStates))
    }

    /** Ready to commit: negotiation passed with the answers `o`. */
    ghost predicate Agreed(o: Outcome)
      reads this, mach
    {
      && mach.Valid() && before == mach.Core() && !mut.isCheck
      && (forall n :: n in mut.called ==> n in mach.rel.schema)
      && Passes(mach.res, before, mut, o)
      && targetStates == FinalTarget(mach.res, before, mut, o)
      && enters == Enters(mach.rel.schema, before.active, mut.called, targetStates)
      && exits == Exits(mach.res, before.active, targetStates)
    }

    /** The negotiation phase; an auto transition then resolves again from what is left. */
    method Negotiate(o: Outcome) returns (result: bool)
      requires Planned()
      modifies this
      ensures result <==> Passes(mach.res, before, mut, o)
      ensures result && !mut.isCheck ==> Agreed(o)
    {
      result := isAccepted && o.accept;
      targetStates := Negotiated(mach.rel.schema, mut, targetStates, o);
      if mut.isAuto && targetStates == [] {
        result := false;
      }
      if !mut.isCheck && mut.isAuto {
        var rejected := Diff(mut.called, targetStates);
        var toSet := StatesToSet(Add, Diff(mut.called, rejected), mach.activeStates);
        targetStates := AskTargets(mach.rel, CallOf(mut, before), toSet);
        exits := AskExits(mach.rel, mach.activeStates, targetStates);
        enters := Enters(mach.rel.schema, mach.activeStates, mut.called, targetStates);
      }
    }

    /** Mutates the clocks and fixes what subscriptions will be told. */
    method Commit(ghost o: Outcome)
      requires Agreed(o)
      modifies this`activated, this`deactivated, this`timeAfter, mach`clock, mach`activeStates
      ensures mach.Valid() && mach.Core() == Committed(mach.res, before, mut, o)
      ensures activated == Activated(mach.res, before, mut, o)
      ensures deactivated == Deactivated(mach.res, before, mut, o)
      ensures timeAfter == TimeOf(mach.names, mach.clock)
    {
      hide Default, Passes, SetActive;
      assert NoDup(targetStates) && forall n :: n in targetStates ==> n in mach.rel.schema by {
        FinalTargetKnown(mach.res, before, mut, o);
      }
      hide Plan, FinalTarget, Parity, Known, Aligned, Sound, NoDup, Accepted;
      mach.SetActiveStates(mut.called, targetStates);
      if mut.isAuto {
        activated := Diff(mach.activeStates, before.active);
        deactivated := Diff(before.active, mach.activeStates);
      } else {
        activated, deactivated := enters, exits;
      }
      timeAfter := mach.Time();
    }

    /** Drops the entered states from the failing one on, and ticks accordingly. An exit
        handler leaves `toState` empty, so nothing is found and nothing is dropped. */
    method RecoverFinalPhase(toState: Option<Name>)
      requires mach.Valid()
      requires toState.Some? ==> toState.value in enters && toState.value !in exits
      modifies mach`clock, mach`activeStates
      ensures mach.Valid()
      ensures mach.Core() == RecoverOnce(mach.rel.schema, old(mach.Core()), mut.called,
                if toState.None? then [] else enters[IndexOf(enters, toState.value)..])
    {
      var active := DropFrom(mach.activeStates, exits + enters, toState, toState.Some?);
      if toState.Some? {
        SuffixOfFinals(exits, enters, toState.value);
      }
      assert active == Diff(mach.activeStates, if toState.None? then [] else enters[IndexOf(enters, toState.value)..]);
      assert NoDup(active) by {
        DiffNoDup(mach.activeStates, if toState.None? then [] else enters[IndexOf(enters, toState.value)..]);
      }
      mach.SetActiveStates(mut.called, active);
    }

    /** The final handlers ran up to the failing one; recovery repeats for a panic. */
    method FailFinals(ghost o: Outcome, step: nat, times: nat)
      requires mach.Valid() && o.finals == Failed(step, times)
      requires NoDup(enters) && forall n :: n in enters ==> n !in exits
      modifies mach`clock, mach`activeStates, this`isAccepted
      ensures mach.Valid() && !isAccepted
      ensures mach.Core() ==
              Recovered(mach.rel.schema, old(mach.Core()), mut.called, Dropped(exits, enters, o.finals), times)
    {
      hide RecoverOnce, Parity, Known, Aligned;
      var k := step - |exits|;
      var toState := if 0 <= k < |enters| then Some(enters[k]) else None;
      assert toState.Some? ==> IndexOf(enters, toState.value) == k;
      for i := 0 to times
        invariant mach.Valid()
        invariant mach.Core() ==
                  Recovered(mach.rel.schema, old(mach.Core()), mut.called, Dropped(exits, enters, o.finals), i)
      {
        RecoverFinalPhase(toState);
      }
      isAccepted := false;
    }
  }

  /** Walks over the finals and undoes each one from `toState` on. */
  method DropFrom(active: seq<Name>, finals: seq<Name>, toState: Option<Name>, isEnter: bool)
    returns (kept: seq<Name>)
    requires NoDup(active) && (toState.Some? ==> isEnter)
    ensures kept == Diff(active,
              if toState.None? || toState.value !in finals then [] else finals[IndexOf(finals, toState.value)..])
  {
    hide Diff, Without;
    kept := active;
    DiffAll(active, []);
    var found := false;
    ghost var first := if toState.None? || toState.value !in finals then |finals| else IndexOf(finals, toState.value);
    for i := 0 to |finals|
      invariant found <==> first < i
      invariant kept == Diff(active, if i <= first then [] else finals[first..i])
    {
      var s := finals[i];
      if toState == Some(s) {
        found := true;
      }
      if found {
        if isEnter {
          DiffOneMore(active, finals[first..i], s);
          assert finals[first..i + 1] == finals[first..i] + [s];
          kept := Without(kept, s);
        } else {
          kept := kept + [s];
        }
      }
    }
    assert finals[first..|finals|] == finals[first..];
  }

  lemma SuffixOfFinals(exits: seq<Name>, enters: seq<Name>, n: Name)
    requires n in enters && n !in exits
    ensures n in exits + enters
    ensures (exits + enters)[IndexOf(exits + enters, n)..] == enters[IndexOf(enters, n)..]
  {
    var k := IndexOf(enters, n);
    assert (exits + enters)[|exits| + k] == n;
    assert IndexOf(exits + enters, n) == |exits| + k;
  }

  lemma DiffOneMore(s: seq<Name>, t: seq<Name>, x: Name)
    requires NoDup(s)
    ensures Without(Diff(s, t), x) == Diff(s, t + [x])
  {
    DiffNoDup(s, t);
    var d := Diff(s, t);
    WithoutIsDiff(d, x, Elems(d) - {x});
    var first, both := Elems(s) - Elems(t), Elems(s) - Elems(t + [x]);
    DiffIsOnly(s, t, first);
    DiffIsOnly(s, t + [x], both);
    OnlyTwice(s, first, Elems(d) - {x}, both);
  }

  // ----- one transition, then the queue

  lemma EntersAreNotExits(res: Resolver, core: Core, mut: Mutation, o: Outcome)
    requires Sound(res)
    ensures var target := FinalTarget(res, core, mut, o);
            && NoDup(Enters(res.schema, core.active, mut.called, target))
            && forall n :: n in Enters(res.schema, core.active, mut.called, target) ==>
                 n !in Exits(res, core.active, target)
  {
    var target := FinalTarget(res, core, mut, o);
    ExitsMembers(res, core.active, target);
    OnlyNoDup(target, set n | n in target && (n !in core.active || (Def(res.schema, n).multi && n in mut.called)));
  }

  /** Runs one mutation with the handler answers `o`. */
  method Execute(mach: Machine, mut: Mutation, o: Outcome) returns (landed: bool)
    requires mach.Valid() && forall n :: n in mut.called ==> n in mach.rel.schema
    modifies mach`clock, mach`activeStates
    ensures mach.Valid() && mach.Core() == Next(mach.res, old(mach.Core()), mut, o)
    ensures landed <==> Lands(mach.res, old(mach.Core()), mut, o)
  {
    hide Plan, FinalTarget, Passes, SetActive, Recovered, Default;
    var t := new Transition(mach, mut);
    landed := t.Negotiate(o);
    if mut.isCheck || !landed {
      return false;
    }
    t.Commit(o);
    if o.finals.Failed? {
      EntersAreNotExits(mach.res, t.before, mut, o);
      t.FailFinals(o, o.finals.step, o.finals.times);
      landed := false;
    }
  }

  lemma RunSnoc(res: Resolver, core: Core, events: seq<Event>, e: Event)
    ensures Run(res, core, events + [e]) == Step(res, Run(res, core, events), e)
  {
    assert (events + [e])[..|events + [e]| - 1] == events;
  }

  /** An auto mutation for the current state in front, unless no auto state can be called. */
  method QueueAuto(mach: Machine)
    requires mach.Valid()
    modifies mach`queue
    ensures mach.Valid() && Weight(mach.queue) <= Weight(old(mach.queue)) + 1
    ensures AutoStates(mach.rel.schema, mach.activeStates) == {} ==> mach.queue == old(mach.queue)
    ensures AutoStates(mach.rel.schema, mach.activeStates) != {} ==>
              && |mach.queue| == |old(mach.queue)| + 1 && mach.queue[1..] == old(mach.queue)
              && IsAutoMutation(mach.rel.schema, mach.Core(), mach.queue[0])
              && NoDup(mach.queue[0].called) && !mach.queue[0].hasArgs && mach.queue[0].queueTick == 0
    ensures var schema, now := mach.rel.schema, mach.activeStates;
            var callable := set n | n in schema && schema[n].auto && n !in now &&
                                    forall a :: a in now ==> n !in Def(schema, a).remove;
            && (callable == {} ==> mach.queue == old(mach.queue))
            && (callable != {} ==> mach.queue != [] && Elems(mach.queue[0].called) == callable)
  {
    hide Default, Sound, Parity, Known, Aligned, AutoStates;
    var toAdd := NewAutoMutation(mach.rel.schema, mach.activeStates);
    AutoStatesKnown(mach.rel.schema, mach.activeStates, toAdd);
    ghost var schema, now := mach.rel.schema, mach.activeStates;
    assert Elems(toAdd) == set n | n in schema && schema[n].auto && n !in now &&
                                   forall a :: a in now ==> n !in Def(schema, a).remove;
    if toAdd != [] {
      var mut := Mutation(Add, toAdd, false, true, false, 0);
      WeightPrepend(mut, mach.queue);
      mach.PrependMut(mut);
    }
  }

  lemma AutoStatesKnown(schema: Schema, active: seq<Name>, toAdd: seq<Name>)
    requires Elems(toAdd) == AutoStates(schema, active)
    ensures forall n :: n in toAdd ==> n in schema
    ensures toAdd == [] <==> AutoStates(schema, active) == {}
  {
    assert forall n :: n in toAdd <==> n in Elems(toAdd);
    HeadIsMember(toAdd);
  }

  /** Takes the front mutation and runs it; accepted and with a tick changed, it is followed
      by an auto mutation, while auto mutations are followed by none. */
  method ProcessFront(mach: Machine, o: Outcome) returns (mut: Mutation)
    requires mach.Valid() && mach.queue != []
    modifies mach`queue, mach`queueTick, mach`queueTicksPending, mach`clock, mach`activeStates
    ensures mach.Valid() && mut == old(mach.queue)[0] && forall n :: n in mut.called ==> n in mach.rel.schema
    ensures mach.Core() == Next(mach.res, old(mach.Core()), mut, o)
    ensures QueueAfter(mach.res, mach.health, old(mach.Core()), old(mach.queue), o, mach.queue)
    ensures Weight(mach.queue) < Weight(old(mach.queue))
    ensures mach.queueTick + mach.queueTicksPending == old(mach.queueTick) + old(mach.queueTicksPending)
  {
    hide Next, Parity, Known, Aligned, Lands, Default, AutoStates, Sound, IsAutoMutation;
    mut := mach.Shift();
    var clockBefore := mach.clock;
    var landed := Execute(mach, mut, o);
    if landed && mach.clock != clockBefore && !mut.isAuto && !IsHealth(mach.health, mut) {
      QueueAuto(mach);
    }
  }

  /** Drains the queue when handlers enqueue nothing: every queued mutation is processed in
      order, each followed by its auto mutation, until the queue is empty. That takes at most
      two transitions per queued mutation, takes the machine through exactly the run of the
      recorded events, and advances the queue tick by the ticked items. */
  method ProcessQueue(mach: Machine, oracle: nat -> Outcome) returns (ran: nat, ghost trace: seq<Event>)
    requires mach.Valid()
    modifies mach`queue, mach`queueTick, mach`queueTicksPending, mach`clock, mach`activeStates
    ensures mach.Valid() && mach.queue == []
    ensures Drains(mach.res, mach.health, old(mach.Core()), old(mach.queue), oracle, 0, trace)
    ensures NotAuto(Processed(trace)) == NotAuto(old(mach.queue))
    ensures ran == |trace| <= Weight(old(mach.queue)) <= 2 * |old(mach.queue)|
    ensures mach.Core() == Run(mach.res, old(mach.Core()), trace) && EventsKnown(mach.rel.schema, trace)
    ensures mach.queueTicksPending == 0
    ensures mach.queueTick == old(mach.queueTick) + old(mach.queueTicksPending)
  {
    hide Next, Parity, Known, Default, Sound, QueueAfter, Run, Drains;
    WeightBound(mach.queue);
    ran, trace := 0, [];
    assert forall rest :: trace + rest == rest;
    RunNothing(mach.res, mach.Core());
    while |mach.queue| > 0
      invariant mach.Valid() && ran == |trace|
      invariant ran + Weight(mach.queue) <= Weight(old(mach.queue))
      invariant mach.Core() == Run(mach.res, old(mach.Core()), trace) && EventsKnown(mach.rel.schema, trace)
      invariant mach.queueTick + mach.queueTicksPending == old(mach.queueTick) + old(mach.queueTicksPending)
      invariant forall rest ::
                  Drains(mach.res, mach.health, mach.Core(), mach.queue, oracle, ran, rest) ==>
                    Drains(mach.res, mach.health, old(mach.Core()), old(mach.queue), oracle, 0, trace + rest)
      decreases Weight(mach.queue)
    {
      ghost var core, queue := mach.Core(), mach.queue;
      var mut := ProcessFront(mach, oracle(ran));
      RunSnoc(mach.res, old(mach.Core()), trace, Process(mut, oracle(ran)));
      forall rest | Drains(mach.res, mach.health, mach.Core(), mach.queue, oracle, ran + 1, rest)
        ensures Drains(mach.res, mach.health, old(mach.Core()), old(mach.queue), oracle, 0,
                  trace + [Process(mut, oracle(ran))] + rest)
      {
        DrainsMore(mach.res, mach.health, core, queue, oracle, ran, mach.queue, rest);
        assert trace + [Process(mut, oracle(ran))] + rest == trace + ([Process(mut, oracle(ran))] + rest);
      }
      trace := trace + [Process(mut, oracle(ran))];
      ran := ran + 1;
    }
    DrainsNothing(mach.res, mach.health, mach.Core(), oracle, ran);
    assert trace + [] == trace;
    DrainedInOrder(mach.res, mach.health, old(mach.Core()), old(mach.queue), oracle, 0, trace);
  }

  lemma RunNothing(res: Resolver, core: Core)
    ensures Run(res, core, []) == core
  {
  }

  lemma DrainsNothing(res: Resolver, health: set<Name>, core: Core, oracle: nat -> Outcome, k: nat)
    ensures Drains(res, health, core, [], oracle, k, [])
  {
  }
}
