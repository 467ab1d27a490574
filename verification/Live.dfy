/** A machine together with its subscriptions. Contexts and waits may be opened at any
    time, by anyone, also by final handlers between commit and processing. */
module Live {
  import opened Slices
  import opened Schemas
  import opened Topology
  import opened Resolvers
  import opened DefaultResolver
  import opened Queue
  import opened Transitions
  import opened TransitionFacts
  import opened Effects
  import opened Machine
  import opened Execution
  import opened Bindings
  import opened Indexes
  import opened Subscriptions
  import opened TimeSubscriptions

  /** Drops the contexts of reported states and returns them with the ticks they were bound to. */
  method ProcessStateCtx(ctx: map<Name, nat>, activated: seq<Name>, deactivated: seq<Name>)
    returns (rest: map<Name, nat>, cancelled: map<Name, nat>)
    ensures rest == map s | s in ctx && s !in activated && s !in deactivated :: ctx[s]
    ensures cancelled == map s | s in ctx && (s in activated || s in deactivated) :: ctx[s]
  {
    var all := activated + deactivated;
    rest, cancelled := ctx, map[];
    for i := 0 to |all|
      invariant rest == map s | s in ctx && s !in all[..i] :: ctx[s]
      invariant cancelled == map s | s in ctx && s in all[..i] :: ctx[s]
    {
      var s := all[i];
      assert all[..i + 1] == all[..i] + [s];
      if s in rest {
        cancelled := cancelled[s := rest[s]];
        rest := rest - {s};
      }
    }
    assert all[..|all|] == all;
  }

  ghost predicate TickedAre(activated: seq<Name>, deactivated: seq<Name>, was: Core, now: Core) {
    forall n :: n in activated || n in deactivated <==> Tick(now.clock, n) != Tick(was.clock, n)
  }

  /** Negotiates and commits; without a transition to finish, nothing has changed. */
  method Launch(mach: Machine, mut: Mutation, o: Outcome) returns (tx: Transition?)
    requires mach.Valid() && o.finals.Completed?
    requires !AutoReentry(mach.res, mach.Core(), mut, o) && forall n :: n in mut.called ==> n in mach.rel.schema
    modifies mach`clock, mach`activeStates
    ensures mach.Valid() && mach.Core() == Next(mach.res, old(mach.Core()), mut, o)
    ensures tx == null ==> mach.Core() == old(mach.Core())
    ensures tx != null ==> fresh(tx) && tx.before == old(mach.Core())
    ensures tx != null ==> Report(tx.activated, tx.deactivated, tx.before.active, mach.activeStates)
    ensures tx != null ==> TickedAre(tx.activated, tx.deactivated, tx.before, mach.Core())
    ensures Monotone(old(mach.clock), mach.clock) && mach.clock.Keys == old(mach.clock).Keys
  {
    hide Known, Aligned, Default, Sound, TopologyOf, SetActive, Plan, FinalTarget, Passes, AutoReentry;
    var trans := new Transition(mach, mut);
    var result := trans.Negotiate(o);
    if mut.isCheck || !result {
      return null;
    }
    ReportIsExact(mach.res, trans.before, mut, o);
    NextKeepsParity(mach.res, trans.before, mut, o);
    trans.Commit(o);
    tx := trans;
  }

  /** Contexts split into kept ones, whose tick is current, and cancelled ones, whose tick
      is strictly below the current one. */
  ghost predicate Expired(ctx: map<Name, nat>, rest: map<Name, nat>, cancelled: map<Name, nat>, clock: map<Name, nat>) {
    && ctx.Keys == rest.Keys + cancelled.Keys
    && (forall s :: s in rest ==> rest[s] == ctx[s] == Tick(clock, s))
    && (forall s :: s in cancelled ==> cancelled[s] == ctx[s] < Tick(clock, s))
  }

  lemma ReportedExpire(
    ctx: map<Name, nat>, rest: map<Name, nat>, cancelled: map<Name, nat>,
    activated: seq<Name>, deactivated: seq<Name>, was: Core, now: Core)
    requires forall s :: s in ctx ==> ctx[s] == Tick(was.clock, s)
    requires Monotone(was.clock, now.clock) && TickedAre(activated, deactivated, was, now)
    requires rest == map s | s in ctx && s !in activated && s !in deactivated :: ctx[s]
    requires cancelled == map s | s in ctx && (s in activated || s in deactivated) :: ctx[s]
    ensures Expired(ctx, rest, cancelled, now.clock)
  {
    forall s | s in cancelled ensures cancelled[s] < Tick(now.clock, s) {
      assert Tick(was.clock, s) <= Tick(now.clock, s);
    }
  }

  class LiveMachine {
    const mach: Machine
    const when: Index
    const whenTime: Index
    var stateCtx: map<Name, nat>
    var sums: seq<nat>
    /** The transition between its commit and the processing of subscriptions. */
    var t: Transition?

    /** The machine before the transition in progress, or now. */
    ghost function Was(): Core
      reads this, mach
    {
      if t == null then mach.Core() else t.before
    }

    ghost predicate Separate()
      reads this, when, whenTime
    {
      when != whenTime && when.known !! whenTime.known
    }

    /** A live context is bound to the current tick of its state. */
    ghost predicate ContextsExact()
      reads this, mach
    {
      forall s :: s in stateCtx ==> stateCtx[s] == Tick(mach.clock, s)
    }

    ghost predicate Waits(b: Binding, was: Core)
      reads b, mach
    {
      b.times == map[] && NoDup(b.order) && (Tracks(b.flags, was.active) || Tracks(b.flags, mach.activeStates))
    }

    ghost predicate WaitsTime(b: Binding, was: Core)
      reads b, mach
    {
      !b.negation && MadeAt(b) && (Reached(b.flags, b.times, was.clock) || Reached(b.flags, b.times, mach.clock))
    }

    /** Contexts are exact at all times. Between transitions so are the flags of every
        wait; during one they reflect the machine before it or now. */
    ghost predicate Valid()
      reads this, mach, when, when.known, whenTime, whenTime.known, t
    {
      && mach.Valid() && when.Valid() && whenTime.Valid() && Separate()
      && ContextsExact() && Ascending(sums)
      && (t == null ==> forall m :: m in sums ==> m > Sum(TimeOf(mach.names, mach.clock)))
      && Was().clock.Keys == mach.clock.Keys && Monotone(Was().clock, mach.clock)
      && (t != null ==> Report(t.activated, t.deactivated, t.before.active, mach.activeStates))
      && (forall b :: b in when.open ==> Waits(b, Was()))
      && (forall b :: b in whenTime.open ==> WaitsTime(b, Was()))
    }

    constructor (mach: Machine)
      requires mach.Valid()
      ensures Valid() && this.mach == mach && t == null && fresh(when) && fresh(whenTime)
      ensures stateCtx == map[] && when.open == {} && whenTime.open == {} && sums == []
    {
      this.mach := mach;
      when := new Index();
      whenTime := new Index();
      stateCtx, sums, t := map[], [], null;
    }

    method NewStateCtx(s: Name) returns (tick: nat)
      requires Valid()
      modifies this`stateCtx
      ensures Valid() && tick == Tick(mach.clock, s)
      ensures stateCtx == old(stateCtx)[s := tick]
    {
      if s in stateCtx {
        assert stateCtx[s := stateCtx[s]] == stateCtx;
        return stateCtx[s];
      }
      tick := Tick(mach.clock, s);
      stateCtx := stateCtx[s := tick];
    }

    method When(states: seq<Name>, negation: bool) returns (r: Option<Binding>)
      requires Valid()
      modifies when
      ensures Valid()
      ensures r.None? <==> forall s :: s in states ==> (s in mach.activeStates) != negation
      ensures r.Some? ==> r.value in when.open && r.value.negation == negation && r.value.states == Elems(states)
      ensures when.open == old(when.open) + if r.Some? then {r.value} else {}
    {
      hide Parity, Known, Aligned, Default, Sound, TopologyOf, Exact, Matching, Reached, AllReached, Closes;
      hide Report, Monotone, Tracks;
      r := Await(when, Uniq(states), mach.activeStates, negation);
      assert Elems(Uniq(states)) == Elems(states);
    }

    /** Closed at once when the lists do not fit, or all times have come and no open wait
        matches. Between transitions a wait whose times have all come is returned open only
        if it is one that can never close. */
    method WhenTime(states: seq<Name>, times: seq<nat>) returns (r: Option<Binding>)
      requires Valid()
      modifies whenTime
      ensures Valid()
      ensures r.None? <==>
                || |states| != |times| || states == []
                || (&& (forall i :: 0 <= i < |states| ==> Tick(mach.clock, states[i]) >= times[i])
                    && forall b :: b in old(whenTime.open) ==> !Matches(b, states, times))
      ensures r.Some? ==> r.value in whenTime.open && Matches(r.value, states, times) && MadeAt(r.value)
      ensures r.Some? && r.value !in old(whenTime.open) ==> r.value.order == states && r.value.made == mach.clock
      ensures t == null && r.Some? && AllPassed(states, times, mach.clock) ==> !r.value.Able()
      ensures whenTime.open == old(whenTime.open) + if r.Some? then {r.value} else {}
      ensures r.Some? ==>
                && r.value.times.Keys == Elems(states)
                && forall i :: 0 <= i < |states| && states[i] !in states[i + 1..] ==>
                     r.value.times[states[i]] == times[i]
    {
      hide Parity, Known, Aligned, Default, Sound, TopologyOf, Closes, Report, Monotone, Tracks;
      hide Matching, Reached, AllReached, EarlierReached, AwaitedTimes, NoDup, Matches, MadeAt, Exact;
      hide Machine.Valid, Binding.Counts;
      if |states| != |times| || states == [] {
        return None;
      }
      AwaitedAreLast(states, times);
      r := AwaitTime(whenTime, states, times, mach.clock);
      if t == null && r.Some? && AllPassed(states, times, mach.clock) {
        PassedIsReached(states, times, mach.clock);
        AbleIsShort(r.value, mach.clock);
      }
    }

    method WhenTimeSum(mtime: nat) returns (closed: bool)
      requires Valid()
      modifies this`sums
      ensures Valid()
      ensures closed <==> mtime <= Sum(TimeOf(mach.names, mach.clock))
      ensures Elems(sums) == Elems(old(sums)) + if closed then {} else {mtime}
    {
      hide Parity, Known, Aligned, Default, Sound, TopologyOf, Exact, Matching, Reached, AllReached, Closes;
      hide Report, Monotone, Tracks, Ascending, Sum, TimeOf, Machine.Valid, Index.Valid;
      var time := mach.Time();
      if mtime <= Sum(time) {
        return true;
      }
      ghost var was := sums;
      sums, closed := AwaitSum(sums, Sum(time), mtime);
      assert forall m :: m in sums ==> m in Elems(sums);
      assert forall m :: m in was <==> m in Elems(was);
    }

    /** Runs a mutation up to its final handlers; final handlers will complete. */
    method Begin(mut: Mutation, o: Outcome) returns (cancelled: map<Name, nat>)
      requires Valid() && t == null && o.finals.Completed?
      requires !AutoReentry(mach.res, mach.Core(), mut, o) && forall n :: n in mut.called ==> n in mach.rel.schema
      modifies this, mach`clock, mach`activeStates
      ensures Valid() && Was() == old(mach.Core())
      ensures mach.Core() == Next(mach.res, old(mach.Core()), mut, o)
      ensures t == null ==> mach.Core() == old(mach.Core()) && cancelled == map[] && stateCtx == old(stateCtx)
      ensures Expired(old(stateCtx), stateCtx, cancelled, mach.clock)
    {
      hide Parity, Known, Aligned, Default, Sound, TopologyOf, Exact, Matching, Reached, AllReached, Closes;
      hide Report, Tracks, Next, Ascending, Sum, TimeOf, TickedAre;
      hide Machine.Valid, Index.Valid, AutoReentry, NoDup;
      cancelled := map[];
      assert Expired(stateCtx, stateCtx, map[], mach.clock);
      var tx := Launch(mach, mut, o);
      hide Monotone;
      if tx != null {
        var rest, dropped := ProcessStateCtx(stateCtx, tx.activated, tx.deactivated);
        hide LiveMachine.Waits, LiveMachine.WaitsTime;
        ReportedExpire(stateCtx, rest, dropped, tx.activated, tx.deactivated, tx.before, mach.Core());
        stateCtx, cancelled, t := rest, dropped, tx;
      }
    }

    ghost predicate WhenSettled()
      reads when, when.open, mach
    {
      forall b :: b in when.open ==> Tracks(b.flags, mach.activeStates)
    }

    ghost predicate TimesSettled()
      reads whenTime, whenTime.open, mach
    {
      forall b :: b in whenTime.open ==> Reached(b.flags, b.times, mach.clock)
    }

    method CloseWhen() returns (closed: seq<Binding>)
      requires Valid() && t != null
      modifies when`lists, when`open, when.known
      ensures Valid() && WhenSettled() && NoDup(closed)
      ensures forall b :: b in closed <==>
                b in old(when.open) && Closes(b.negation, old(b.flags), t.activated, mach.activeStates)
      ensures when.open == old(when.open) - Elems(closed)
      ensures forall b :: b in when.open ==> exists s :: s in b.states && (s in mach.activeStates) == b.negation
      ensures forall b, s :: b in closed && s in b.states ==>
                if b.negation then s !in mach.activeStates
                else s in old(t.before.active) || s in mach.activeStates
    {
      hide Parity, Known, Aligned, Default, Sound, TopologyOf, Exact, Matching, Reached, AllReached, Closes;
      hide Report, Monotone, Tracks;
      hide Machine.Valid, MadeAt, Ascending, Sum, TimeOf, NoDup, Index.Sane;
      OpenKeys(when);
      ghost var before := t.before.active;
      closed := ProcessWhen(when, t.activated, t.deactivated, before, mach.activeStates);
      OpenAreUnsatisfied(when, mach.activeStates);
      forall b, s | b in closed && s in b.states
        ensures if b.negation then s !in mach.activeStates else s in before || s in mach.activeStates
      {
        ClosedIsSatisfied(b.negation, old(b.flags), t.activated, t.deactivated, before, mach.activeStates);
        assert s in old(b.flags);
      }
    }

    /** Nothing due on time was made for repeated states. */
    ghost predicate TimesClean()
      reads whenTime, mach
    {
      forall b :: b in whenTime.open && TimesDue(b, mach.clock) ==> NoDup(b.order)
    }

    method CloseTimes() returns (closed: seq<Binding>)
      requires Valid() && t != null && WhenSettled()
      modifies whenTime`lists, whenTime`open, whenTime.known
      ensures forall b :: b in closed ==> b in old(whenTime.open) && TimesDue(b, mach.clock)
      ensures old(TimesClean()) <==>
                && whenTime.Valid() && NoDup(closed)
                && forall b :: b in old(whenTime.open) && TimesDue(b, mach.clock) ==> b in closed
      ensures old(TimesClean()) ==> Valid() && WhenSettled() && TimesSettled()
      ensures whenTime.open == old(whenTime.open) - Elems(closed)
      ensures forall b, s :: b in closed && s in b.times ==> Tick(mach.clock, s) >= b.times[s]
      ensures old(TimesClean()) ==> forall b :: b in whenTime.open && b.Able() ==>
                exists s :: s in b.times && Tick(mach.clock, s) < b.times[s]
    {
      hide Parity, Known, Aligned, Default, Sound, TopologyOf, Exact, Matching, Reached, Closes;
      hide Report, Monotone, Tracks;
      closed := ProcessWhenTime(whenTime, t.before.clock, mach.clock);
      if old(TimesClean()) {
        OpenTimesAreShort(whenTime, mach.clock);
      }
    }

    method CloseSums() returns (due: seq<nat>)
      requires Ascending(sums)
      modifies this`t, this`sums
      ensures t == null
      ensures forall m :: m in old(sums) ==> (m in due <==> m <= Sum(TimeOf(mach.names, mach.clock)))
      ensures old(sums) == due + sums && forall m :: m in sums ==> m > Sum(TimeOf(mach.names, mach.clock))
      ensures old(Valid() && WhenSettled() && TimesSettled()) ==> Valid()
    {
      hide Parity, Known, Aligned, Default, Sound, TopologyOf, Exact, Matching, Reached, AllReached, Closes, Report;
      hide Tracks, Ascending, Sum, TimeOf, Machine.Valid, Index.Valid, MadeAt, NoDup;
      assert Monotone(mach.clock, mach.clock);
      hide Monotone;
      var time := mach.Time();
      sums, due := ProcessWhenTimeSum(sums, Sum(time));
      t := null;
    }

    /** Final handlers are done: closes the waits that are due. Each is closed once and all
        flags are exact again, if and only if no wait due on time was made for repeated
        states. */
    method Finish() returns (closed: seq<Binding>, closedTime: seq<Binding>, due: seq<nat>)
      requires Valid() && t != null
      modifies this`t, this`sums, when`lists, when`open, when.known, whenTime`lists, whenTime`open, whenTime.known
      ensures t == null && NoDup(closed)
      ensures forall b :: b in closed <==>
                b in old(when.open) && Closes(b.negation, old(b.flags), old(t.activated), mach.activeStates)
      ensures forall b :: b in closedTime ==> b in old(whenTime.open) && TimesDue(b, mach.clock)
      ensures forall m :: m in old(sums) ==> (m in due <==> m <= Sum(TimeOf(mach.names, mach.clock)))
      ensures forall b :: b in when.open ==> exists s :: s in b.states && (s in mach.activeStates) == b.negation
      ensures forall b, s :: b in closed && s in b.states ==>
                if b.negation then s !in mach.activeStates
                else s in old(t.before.active) || s in mach.activeStates
      ensures when.open == old(when.open) - Elems(closed) && whenTime.open == old(whenTime.open) - Elems(closedTime)
      ensures old(sums) == due + sums && forall m :: m in sums ==> m > Sum(TimeOf(mach.names, mach.clock))
      ensures old(TimesClean()) <==>
                && whenTime.Valid() && NoDup(closedTime)
                && forall b :: b in old(whenTime.open) && TimesDue(b, mach.clock) ==> b in closedTime
      ensures old(TimesClean()) ==> Valid()
      ensures forall b, s :: b in closedTime && s in b.times ==> Tick(mach.clock, s) >= b.times[s]
      ensures old(TimesClean()) ==> forall b :: b in whenTime.open && b.Able() ==>
                exists s :: s in b.times && Tick(mach.clock, s) < b.times[s]
    {
      hide Parity, Known, Aligned, Default, Sound, TopologyOf, Exact, Matching, Reached, AllReached, Closes, Report;
      hide Monotone, Tracks, Ascending, Sum, TimeOf, Machine.Valid, Index.Sane, MadeAt, TimesDue;
      ghost var clean := TimesClean();
      assert Ascending(sums);
      closed := CloseWhen();
      hide LiveMachine.Valid;
      closedTime := CloseTimes();
      due := CloseSums();
    }
  }
}
