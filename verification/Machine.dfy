/** The machine and its transitions as mutable objects. */
module Machine {
  import opened Slices
  import opened Schemas
  import opened Topology
  import opened Resolvers
  import opened DefaultResolver
  import opened DefaultResolverFacts
  import opened Transitions
  import opened TransitionFacts
  import opened Queue
  import opened Importing

  /** A clock with the right ticks, over a schema the machine stays in, is the next one. */
  lemma SetActiveIs(schema: Schema, core: Core, called: seq<Name>, target: seq<Name>, clock: map<Name, nat>)
    requires Parity(core) && Known(schema, core) && NoDup(target)
    requires core.clock.Keys == clock.Keys == schema.Keys && forall n :: n in target ==> n in schema
    requires forall n :: n in clock ==> clock[n] == NextTick(schema, core, called, target, n)
    ensures SetActive(schema, core, called, target) == Transitions.Core(clock, target)
    ensures Parity(Transitions.Core(clock, target)) && Known(schema, Transitions.Core(clock, target))
  {
    SetActiveKeepsParity(schema, core, called, target);
    SetActiveKnown(schema, core, called, target);
    var next := SetActive(schema, core, called, target).clock;
    assert next.Keys == clock.Keys;
    assert forall n :: n in next ==> next[n] == clock[n];
    assert next == clock;
  }

  lemma ResolverOf(schema: Schema, topology: seq<Name>)
    requires AddsKnown(schema)
    ensures Default(Relations(schema, topology)).schema == schema && Sound(Default(Relations(schema, topology)))
  {
    DefaultIsSound(Relations(schema, topology));
  }

  class Machine {
    const rel: Relations
    ghost const res: Resolver
    var names: seq<Name>
    const health: set<Name>
    var clock: map<Name, nat>
    var activeStates: seq<Name>
    var queue: seq<Mutation>
    var queueTick: nat
    var queueTicksPending: nat

    ghost function Core(): Core
      reads this
    {
      Transitions.Core(clock, activeStates)
    }

    ghost function QueueView(): QueueState
      reads this
    {
      QueueState(queue, queueTick, queueTicksPending)
    }

    ghost predicate SchemaValid()
      reads this
    {
      && NoDup(names) && Elems(names) == rel.schema.Keys
      && TopologyOf(rel.schema, rel.topology)
      && res == Default(rel) && res.schema == rel.schema && Sound(res)
    }

    /** Parity, known names, aligned queue ticks. */
    ghost predicate Valid()
      reads this
    {
      && SchemaValid()
      && clock.Keys == rel.schema.Keys
      && Parity(Core()) && Known(rel.schema, Core())
      && Aligned(queue, queueTick, queueTicksPending)
      && forall i, n :: 0 <= i < |queue| && n in queue[i].called ==> n in rel.schema
    }

    /** Queue ticks start from 1, all clocks from 0. */
    constructor (schema: Schema, names: seq<Name>, health: set<Name>)
      requires NoDup(names) && Elems(names) == schema.Keys && AddsKnown(schema)
      ensures Valid() && rel.schema == schema && this.names == names && this.health == health
      ensures Fresh(Core()) && QueueView() == QueueState([], 1, 0)
    {
      hide Default, Sound, TopologyOf, AddsKnown;
      var topology := NewSchema(schema, names);
      rel := Relations(schema, topology);
      res := Default(Relations(schema, topology));
      ResolverOf(schema, topology);
      this.names, this.health := names, health;
      clock := map n | n in schema :: 0;
      activeStates, queue, queueTick, queueTicksPending := [], [], 1, 0;
    }

    // ----- queue

    /** A queued mutation of the same type without arguments that calls the same states. */
    predicate IsQueued(typ: MutationType, states: seq<Name>)
      reads this
    {
      exists i :: 0 <= i < |queue| && !queue[i].isCheck && queue[i].typ == typ && !queue[i].hasArgs &&
                  |queue[i].called| == |states| && forall n :: n in states ==> n in queue[i].called
    }

    /** Appends a mutation and returns its queue tick, or skips a duplicate and returns 0 (Executed). */
    method QueueMutation(typ: MutationType, states: seq<Name>, hasArgs: bool) returns (tick: nat)
      requires Valid() && forall n :: n in states ==> n in rel.schema
      modifies this`queue, this`queueTicksPending
      ensures Valid()
      ensures tick == 0 <==>
                !hasArgs && old(IsQueued(typ, Uniq(states))) && forall n :: n in states ==> !Def(rel.schema, n).multi
      ensures tick == 0 ==> QueueView() == old(QueueView())
      ensures tick > 0 ==> tick >= 2
      ensures tick > 0 ==>
                QueueView() == Apply(old(QueueView()), Append(Mutation(typ, Uniq(states), hasArgs, false, false, tick)))
    {
      hide Default, Sound, Parity, Known;
      var parsed := Uniq(states);
      var multi := exists n :: n in parsed && Def(rel.schema, n).multi;
      if !multi && !hasArgs && IsQueued(typ, parsed) {
        return 0;
      }
      tick := queueTicksPending + 1 + queueTick;
      var mut := Mutation(typ, parsed, hasArgs, false, false, tick);
      ApplyAligned(QueueView(), Append(mut));
      queue := queue + [mut];
      queueTicksPending := queueTicksPending + 1;
    }

    /** Puts a mutation in front; it gets no queue tick. One that already has a tick, having
        been queued before, breaks the alignment of the queue. */
    method PrependMut(mut: Mutation)
      requires Valid() && forall n :: n in mut.called ==> n in rel.schema
      modifies this`queue
      ensures queue == [mut] + old(queue)
      ensures Valid() <==> mut.queueTick == 0
    {
      hide Default, Sound, Parity, Known, Aligned;
      PrependAligned(queue, queueTick, queueTicksPending, mut);
      queue := [mut] + queue;
    }

    /** Takes the front mutation; a ticked one is due exactly when the queue reaches its tick. */
    method Shift() returns (mut: Mutation)
      requires Valid() && queue != []
      modifies this`queue, this`queueTick, this`queueTicksPending
      ensures Valid() && QueueView() == Apply(old(QueueView()), QueueOp.Shift)
      ensures mut == old(queue)[0] && (mut.queueTick > 0 ==> queueTick == mut.queueTick)
    {
      hide Default, Sound, Parity, Known;
      ApplyAligned(QueueView(), QueueOp.Shift);
      ShiftAligned(queue, queueTick, queueTicksPending);
      mut := queue[0];
      queue := queue[1..];
      if mut.queueTick > 0 {
        queueTicksPending := queueTicksPending - 1;
        queueTick := queueTick + 1;
      }
    }

    // ----- clocks

    method Time() returns (t: seq<nat>)
      ensures t == TimeOf(names, clock)
    {
      t := [];
      for i := 0 to |names|
        invariant t == TimeOf(names[..i], clock)
      {
        t := t + [Tick(clock, names[i])];
        assert names[..i + 1] == names[..i] + [names[i]];
      }
      assert names[..|names|] == names;
    }

    /** Ticks new, re-entered and removed states, one list after the other. */
    method SetActiveStates(called: seq<Name>, target: seq<Name>)
      requires Valid() && NoDup(target) && forall n :: n in target ==> n in rel.schema
      modifies this`clock, this`activeStates
      ensures Valid() && Core() == SetActive(rel.schema, old(Core()), called, target)
      ensures activeStates == target
    {
      hide Default, Sound, Aligned, SetActive;
      ghost var core := Core();
      var previous := activeStates;
      var removed := Diff(activeStates, target);
      DiffNoDup(activeStates, target);
      activeStates := target;
      TickTargets(previous, called, target);
      TickRemoved(removed);
      SetActiveIs(rel.schema, core, called, target, clock);
    }

    method TickTargets(previous: seq<Name>, called: seq<Name>, target: seq<Name>)
      requires NoDup(target) && clock.Keys == rel.schema.Keys && forall n :: n in target ==> n in rel.schema
      modifies this`clock
      ensures clock.Keys == rel.schema.Keys
      ensures forall n :: n in clock ==>
                clock[n] == old(clock)[n] + if n in target then Stride(rel.schema, previous, called, n) else 0
    {
      for i := 0 to |target|
        invariant clock.Keys == rel.schema.Keys
        invariant forall n :: n in clock ==>
                    clock[n] == old(clock)[n] + if n in target[..i] then Stride(rel.schema, previous, called, n) else 0
      {
        var name := target[i];
        assert name !in target[..i] && target[..i + 1] == target[..i] + [name];
        if name !in previous {
          clock := clock[name := clock[name] + 1];
        } else if name in called && Def(rel.schema, name).multi {
          clock := clock[name := clock[name] + 2];
        }
      }
      assert target[..|target|] == target;
    }

    method TickRemoved(removed: seq<Name>)
      requires NoDup(removed) && clock.Keys == rel.schema.Keys && forall n :: n in removed ==> n in rel.schema
      modifies this`clock
      ensures clock.Keys == rel.schema.Keys
      ensures forall n :: n in clock ==> clock[n] == old(clock)[n] + if n in removed then 1 else 0
    {
      for i := 0 to |removed|
        invariant clock.Keys == rel.schema.Keys
        invariant forall n :: n in clock ==> clock[n] == old(clock)[n] + if n in removed[..i] then 1 else 0
      {
        assert removed[i] !in removed[..i] && removed[..i + 1] == removed[..i] + [removed[i]];
        clock := clock[removed[i] := clock[removed[i]] + 1];
      }
      assert removed[..|removed|] == removed;
    }

    // ----- restart

    /** Takes over names and times entry by entry. A wrong number of names changes nothing;
        an unknown name stops half-way, with the `taken` entries before it in place. Ticks
        and active states agree afterwards exactly when no odd tick is left behind or
        overwritten. */
    method Import(stateNames: seq<Name>, time: seq<nat>) returns (ok: bool, taken: nat)
      requires Valid() && |time| <= |stateNames|
      modifies this`names, this`clock, this`activeStates
      ensures ok <==> |stateNames| == |rel.schema| && forall i :: 0 <= i < |time| ==> stateNames[i] in rel.schema
      ensures |stateNames| != |rel.schema| ==> Core() == old(Core())
      ensures |stateNames| == |rel.schema| ==>
                && taken <= |time|
                && (ok <==> taken == |time|) && (taken < |time| ==> stateNames[taken] !in rel.schema)
                && activeStates == ActiveOf(stateNames[..taken], time[..taken])
                && clock == Overlay(old(clock), stateNames[..taken], time[..taken])
                && (Parity(Core()) <==> ImportsCleanly(old(clock), stateNames[..taken], time[..taken]))
      ensures names == if ok then stateNames else old(names)
      ensures ok && |time| == |stateNames| && NoDup(stateNames) ==> Valid()
    {
      hide Default, Sound, Parity, Known, Aligned, TopologyOf, Overlay, ActiveOf, ImportsCleanly, NoDup;
      if |rel.schema| != |stateNames| {
        return false, 0;
      }
      assert forall n :: n in names <==> n in Elems(names);
      activeStates, clock, taken := TakeOver(names, clock, stateNames, time);
      ImportedParity(old(clock), stateNames[..taken], time[..taken]);
      ok := taken == |time|;
      if ok {
        names := stateNames;
        if |time| == |stateNames| && NoDup(stateNames) {
          assert stateNames[..|time|] == stateNames && time[..|time|] == time;
          AllNames(rel.schema, stateNames);
          ImportedKeeps(rel.schema, old(clock), stateNames, time);
        }
      }
    }
  }

  /** A duplicate is a queued mutation, no check and without arguments, of the same type, that
      calls as many states, all of them called here. */
  lemma QueuedIff(mach: Machine, typ: MutationType, states: seq<Name>)
    ensures mach.IsQueued(typ, Uniq(states)) <==>
            exists mut :: mut in mach.queue && mut.typ == typ && !mut.isCheck && !mut.hasArgs &&
                          |mut.called| == |Elems(states)| && Elems(states) <= Elems(mut.called)
  {
    NoDupCard(Uniq(states));
    assert Elems(Uniq(states)) == Elems(states);
    if mut :| mut in mach.queue && mut.typ == typ && !mut.isCheck && !mut.hasArgs &&
              |mut.called| == |Elems(states)| && Elems(states) <= Elems(mut.called)
    {
      var i :| 0 <= i < |mach.queue| && mach.queue[i] == mut;
      assert forall n :: n in Uniq(states) ==> n in Elems(states);
    }
  }
}
