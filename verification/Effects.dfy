/** Which ticks a transition changes, and what one auto transition settles. */
module Effects {
  import opened Slices
  import opened Schemas
  import opened Resolvers
  import opened Transitions
  import opened TransitionFacts

  /** The transition is accepted, is no check, and its final handlers complete. */
  ghost predicate Lands(res: Resolver, core: Core, mut: Mutation, o: Outcome) {
    !mut.isCheck && Passes(res, core, mut, o) && o.finals.Completed?
  }

  // ----- ticks and handlers

  lemma ExitsMembers(res: Resolver, active: seq<Name>, target: seq<Name>)
    requires Sound(res)
    ensures forall n :: n in Exits(res, active, target) <==> n in active && n !in target
    ensures NoDup(active) ==> NoDup(Exits(res, active, target))
  {
    SortMembersOf(res, Diff(active, target));
    if NoDup(active) {
      DiffNoDup(active, target);
    }
  }

  /** A tick changes exactly for states with an enter or exit handler: by 2 for a
      Multi state that was active and is called again, otherwise by 1. */
  lemma TicksFollowHandlers(res: Resolver, core: Core, mut: Mutation, o: Outcome, n: Name)
    requires Sound(res) && Lands(res, core, mut, o) && !mut.isAuto
    ensures var enters := Enters(res.schema, core.active, mut.called, Plan(res, core, mut));
            var exits := Exits(res, core.active, Plan(res, core, mut));
            && !(n in enters && n in exits)
            && Tick(Next(res, core, mut, o).clock, n) == Tick(core.clock, n) +
               if n in enters then (if n in core.active then 2 else 1) else if n in exits then 1 else 0
  {
    ExitsMembers(res, core.active, Plan(res, core, mut));
    SetActiveTicks(res.schema, core, mut.called, Plan(res, core, mut), n);
  }

  /** An auto mutation calls an active Multi state again and targets it. Its own called
      states are inactive when it is made, so somebody else has to activate one first. */
  ghost predicate AutoReentry(res: Resolver, core: Core, mut: Mutation, o: Outcome) {
    mut.isAuto && exists n :: n in mut.called && n in core.active && Def(res.schema, n).multi &&
                              n in FinalTarget(res, core, mut, o)
  }

  /** What subscriptions are told: deactivated states are the ones that went inactive,
      activated ones are active now and include all that became active, both are free of
      repetitions. Together they are exactly the states that ticked, if and only if no auto
      mutation re-enters an active Multi state. */
  lemma ReportIsExact(res: Resolver, core: Core, mut: Mutation, o: Outcome)
    requires Sound(res) && NoDup(core.active) && Lands(res, core, mut, o)
    ensures var on, off := Activated(res, core, mut, o), Deactivated(res, core, mut, o);
            var now := Next(res, core, mut, o);
            && NoDup(on) && NoDup(off)
            && (forall n :: n in off <==> n in core.active && n !in now.active)
            && (forall n :: n in on ==> n in now.active)
            && (forall n :: n in now.active && n !in core.active ==> n in on)
            && ((forall n :: n in on || n in off <==> Tick(now.clock, n) != Tick(core.clock, n))
                <==> !AutoReentry(res, core, mut, o))
  {
    var target := FinalTarget(res, core, mut, o);
    ExitsMembers(res, core.active, target);
    DiffNoDup(target, core.active);
    DiffNoDup(core.active, target);
    OnlyNoDup(target, set n | n in target && (n !in core.active || (Def(res.schema, n).multi && n in mut.called)));
    hide FinalTarget, Passes, Sound, NoDup;
    var on, off := Activated(res, core, mut, o), Deactivated(res, core, mut, o);
    forall n ensures (n in on || n in off <==> Tick(Next(res, core, mut, o).clock, n) != Tick(core.clock, n)) <==>
                     !(mut.isAuto && n in mut.called && n in core.active && Def(res.schema, n).multi && n in target)
    {
      SetActiveTicks(res.schema, core, mut.called, target, n);
    }
  }

  // ----- what a mutation means

  /** Negotiation passes when nobody vetoes and: a removal always, an auto mutation when some
      called state is planned and not everything planned is rejected, any other when all
      called states are planned, a check also when it calls a Multi state. */
  lemma PassesIff(res: Resolver, core: Core, mut: Mutation, o: Outcome)
    ensures var plan := Plan(res, core, mut);
            Passes(res, core, mut, o) <==>
            && o.accept
            && (|| mut.typ.Remove?
                || (mut.isAuto && exists n :: n in mut.called && n in plan)
                || (!mut.isAuto && forall n :: n in mut.called ==> n in plan)
                || (!mut.isAuto && mut.isCheck && exists n :: n in mut.called && Def(res.schema, n).multi))
            && (mut.isAuto ==> exists n :: n in plan && !(n in o.rejected && Def(res.schema, n).auto))
  {
    hide Plan;
    var plan := Plan(res, core, mut);
    AcceptedIff(res.schema, mut, plan);
    hide Accepted;
    var left := Negotiated(res.schema, mut, plan, o);
    HeadIsMember(left);
    if n :| mut.isAuto && n in plan && !(n in o.rejected && Def(res.schema, n).auto) {
      assert n in left;
    }
  }

  lemma AcceptedIff(schema: Schema, mut: Mutation, target: seq<Name>)
    ensures Accepted(schema, mut, target) <==>
            || mut.typ.Remove?
            || (mut.isAuto && exists n :: n in mut.called && n in target)
            || (!mut.isAuto && forall n :: n in mut.called ==> n in target)
            || (!mut.isAuto && mut.isCheck && exists n :: n in mut.called && Def(schema, n).multi)
  {
    var missing := Diff(mut.called, target);
    HeadIsMember(missing);
    assert forall n :: n in missing <==> n in mut.called && n !in target;
    if |missing| >= |mut.called| {
      DiffSameLength(mut.called, target);
    } else if forall n :: n in mut.called ==> n !in target {
      DiffAll(mut.called, target);
    }
  }

  /** Without an auto mutation or a failing handler, an Add or Set mutation makes every
      called state active or changes nothing; it lands if and only if all of them are
      resolved, nobody vetoes, and it is no check. */
  lemma AllCalledOrNothing(res: Resolver, core: Core, mut: Mutation, o: Outcome)
    requires !mut.isAuto && !mut.typ.Remove? && o.finals.Completed?
    ensures var next := Next(res, core, mut, o);
            var resolved := forall n :: n in mut.called ==> n in Plan(res, core, mut);
            && (Lands(res, core, mut, o) <==> !mut.isCheck && o.accept && resolved)
            && (Lands(res, core, mut, o) ==> forall n :: n in mut.called ==> n in next.active)
            && (!Lands(res, core, mut, o) ==> next == core)
  {
    var missing := Diff(mut.called, Plan(res, core, mut));
    HeadIsMember(missing);
    assert missing == [] <==> forall n :: n in mut.called ==> n in Plan(res, core, mut) by {
      assert forall n :: n in missing <==> n in mut.called && n !in Plan(res, core, mut);
    }
    hide Plan;
  }

  /** What a mutation asks for: added to, taken from, or instead of the active states. */
  function Requested(mut: Mutation, active: seq<Name>): set<Name> {
    match mut.typ
    case Add => Elems(active) + Elems(mut.called)
    case Remove => Elems(active) - Elems(mut.called)
    case Set => Elems(mut.called)
  }

  /** Where only Require decides, a landed mutation makes active exactly the greatest
      Require-closed part of what it asks for. */
  lemma MutationMeaning(res: Resolver, core: Core, mut: Mutation, o: Outcome)
    requires OnlyRequire(res) && Lands(res, core, mut, o) && !mut.isAuto
    ensures Elems(Next(res, core, mut, o).active) == Kernel(res.schema, Requested(mut, core.active))
    ensures var called, now, next := Elems(mut.called), Elems(core.active), Elems(Next(res, core, mut, o).active);
            && (mut.typ.Add? ==> next == Kernel(res.schema, now + called))
            && (mut.typ.Remove? ==> next == Kernel(res.schema, now - called))
            && (mut.typ.Set? ==> next == Kernel(res.schema, called))
  {
    assert Elems(StatesToSet(mut.typ, mut.called, core.active)) == Requested(mut, core.active);
    hide Kernel;
  }

  // ----- auto transitions

  /** Called states that are rejected one by one. */
  function Vetoed(schema: Schema, mut: Mutation, o: Outcome): set<Name> {
    set n | n in mut.called && n in o.rejected && Def(schema, n).auto
  }

  /** A partly rejected auto transition ends as if the rejected states had not been
      called: dropping them and resolving again loses nothing else. */
  lemma PartialAuto(res: Resolver, core: Core, mut: Mutation, o: Outcome)
    requires OnlyRequire(res) && Lands(res, core, mut, o) && mut.isAuto && mut.typ.Add?
    ensures Elems(Next(res, core, mut, o).active) ==
            Kernel(res.schema, Elems(mut.called) - Vetoed(res.schema, mut, o) + Elems(core.active))
  {
    var schema, target := res.schema, Plan(res, core, mut);
    var asked := Elems(mut.called) + Elems(core.active);
    var wanted := Elems(mut.called) - Vetoed(schema, mut, o) + Elems(core.active);
    assert Elems(mut.called + core.active) == asked;
    assert Elems(target) == Kernel(schema, asked);
    var left := Diff(mut.called, Diff(mut.called, Negotiated(schema, mut, target, o)));
    KernelMonotone(schema, wanted, asked);
    KernelIsGreatest(schema, wanted);
    hide Kernel, Passes;
    forall n | n in Kernel(schema, wanted) ensures n in Elems(left + core.active) {
      assert n in Elems(target);
    }
    assert Elems(left + core.active) <= wanted;
    KernelBetween(schema, wanted, Elems(left + core.active));
  }

  /** Collects the inactive auto states that no active state removes, in an unspecified order. */
  method NewAutoMutation(schema: Schema, active: seq<Name>) returns (toAdd: seq<Name>)
    ensures NoDup(toAdd) && Elems(toAdd) == AutoStates(schema, active)
    ensures forall n :: n in toAdd <==>
              n in schema && schema[n].auto && n !in active && forall a :: a in active ==> n !in Def(schema, a).remove
  {
    toAdd := [];
    var todo := schema.Keys;
    while todo != {}
      invariant todo <= schema.Keys && NoDup(toAdd)
      invariant forall n :: n in toAdd <==> n in AutoStates(schema, active) && n !in todo
    {
      var s :| s in todo;
      todo := todo - {s};
      if schema[s].auto {
        var blocked := false;
        for i := 0 to |active|
          invariant blocked <==> exists k :: 0 <= k < i && Removes(schema, active[k], s)
        {
          if Removes(schema, active[i], s) {
            blocked := true;
          }
        }
        if s !in active && !blocked {
          toAdd := toAdd + [s];
        }
      }
    }
  }

  ghost predicate IsAutoMutation(schema: Schema, core: Core, mut: Mutation) {
    mut.typ.Add? && mut.isAuto && !mut.isCheck && Elems(mut.called) == AutoStates(schema, core.active)
  }

  /** An auto transition nobody rejects makes active exactly what Require supports. */
  lemma AutoReaches(res: Resolver, core: Core, mut: Mutation, o: Outcome)
    requires OnlyRequire(res) && Closed(res.schema, Elems(core.active))
    requires mut.typ.Add? && mut.isAuto && !mut.isCheck
    requires o.accept && o.rejected == {} && o.finals.Completed?
    ensures Elems(Next(res, core, mut, o).active) == Kernel(res.schema, Elems(mut.called) + Elems(core.active))
  {
    var schema, target := res.schema, Plan(res, core, mut);
    var wanted := Elems(mut.called) + Elems(core.active);
    assert Elems(mut.called + core.active) == wanted;
    KernelIsGreatest(schema, wanted);
    OnlyAll(target, set n | n in target && !(n in o.rejected && Def(schema, n).auto));
    var left := Diff(mut.called, Diff(mut.called, target));
    assert Kernel(schema, wanted) <= Elems(left + core.active) <= wanted by {
      forall n | n in Kernel(schema, wanted) ensures n in left + core.active {
        assert n in Elems(target);
      }
    }
    KernelBetween(schema, wanted, Elems(left + core.active));
    if !Accepted(schema, mut, target) {
      DiffSameLength(mut.called, target);
      assert Elems(core.active) <= Elems(target);
      assert Kernel(schema, wanted) == Elems(core.active);
    } else {
      assert target != [] by {
        if target == [] {
          DiffAll(mut.called, target);
        }
      }
    }
  }

  /** Require supports none of the auto states that could be called: the inactive ones that
      no active state removes. */
  ghost predicate Settled(schema: Schema, active: seq<Name>) {
    var callable :=
      set n | n in schema && schema[n].auto && n !in active && forall a :: a in active ==> n !in Def(schema, a).remove;
    forall n :: n in callable ==> n !in Kernel(schema, callable + Elems(active))
  }

  lemma SettledIff(schema: Schema, active: seq<Name>)
    ensures Settled(schema, active) <==>
            forall n :: n in AutoStates(schema, active) ==>
              n !in Kernel(schema, AutoStates(schema, active) + Elems(active))
  {
    var callable :=
      set n | n in schema && schema[n].auto && n !in active && forall a :: a in active ==> n !in Def(schema, a).remove;
    assert callable == AutoStates(schema, active);
  }

  /** One auto transition nobody rejects settles all auto states. */
  lemma AutoSettles(res: Resolver, core: Core, mut: Mutation, o: Outcome)
    requires OnlyRequire(res) && Closed(res.schema, Elems(core.active))
    requires o.accept && o.rejected == {} && o.finals.Completed?
    requires IsAutoMutation(res.schema, core, mut)
    ensures Settled(res.schema, Next(res, core, mut, o).active)
  {
    var schema, next := res.schema, Next(res, core, mut, o);
    var wanted := Elems(mut.called) + Elems(core.active);
    var again := AutoStates(schema, next.active) + Elems(next.active);
    AutoReaches(res, core, mut, o);
    KernelIsGreatest(schema, wanted);
    SettledIff(schema, next.active);
    hide Next, OnlyRequire, Kernel, Settled;
    assert Elems(core.active) <= Elems(next.active);
    forall n | n in AutoStates(schema, next.active) ensures n in wanted {
      assert forall a :: a in core.active ==> a in Elems(next.active);
      assert n in AutoStates(schema, core.active);
    }
    KernelBetween(schema, wanted, again);
    assert forall n :: n in next.active <==> n in Elems(next.active);
  }

  /** A settled machine takes no auto mutation, whatever its handlers would answer. */
  lemma SettledIsIdle(res: Resolver, core: Core, mut: Mutation, o: Outcome)
    requires OnlyRequire(res) && Settled(res.schema, core.active) && IsAutoMutation(res.schema, core, mut)
    ensures Next(res, core, mut, o) == core
  {
    SettledIff(res.schema, core.active);
    hide Settled;
    var target := Plan(res, core, mut);
    assert Elems(mut.called + core.active) == Elems(mut.called) + Elems(core.active);
    assert Elems(target) == Kernel(res.schema, AutoStates(res.schema, core.active) + Elems(core.active));
    forall n | n in mut.called ensures n !in target {
      assert n in Elems(mut.called);
      assert n in target ==> n in Elems(target);
    }
    DiffAll(mut.called, target);
    hide Plan, FinalTarget;
  }

  /** After one auto transition and its recheck, where only Require decides, a second one,
      whatever its handlers would answer, changes nothing at all. */
  lemma AutoFixpoint(res: Resolver, core: Core, first: Mutation, o: Outcome, second: Mutation, o2: Outcome)
    requires OnlyRequire(res) && Closed(res.schema, Elems(core.active))
    requires o.accept && o.rejected == {} && o.finals.Completed?
    requires IsAutoMutation(res.schema, core, first)
    requires IsAutoMutation(res.schema, Next(res, core, first, o), second)
    ensures Next(res, Next(res, core, first, o), second, o2) == Next(res, core, first, o)
  {
    hide OnlyRequire, Closed, IsAutoMutation, Next, Settled;
    AutoSettles(res, core, first, o);
    SettledIsIdle(res, Next(res, core, first, o), second, o2);
  }
}
