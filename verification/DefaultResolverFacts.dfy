/** What every resolution guarantees, whatever was called and active. */
module DefaultResolverFacts {
  import opened Slices
  import opened Schemas
  import opened Sorting
  import opened Topology
  import opened Resolvers
  import opened DefaultResolver
  import opened Transitions

  // ----- sorting

  lemma SortStatesMembers(rel: Relations, s: seq<Name>)
    ensures forall x :: x in SortStates(rel, s) <==> x in s
    ensures multiset(SortStates(rel, s)) == multiset(s)
    ensures NoDup(s) ==> NoDup(SortStates(rel, s))
  {
    hide StableSort;
    var byReq := StableSort(ByTopology(rel.topology), s);
    SortMembers(ByTopology(rel.topology), s);
    SortMembers(ByAfter(rel.schema), byReq);
    SortPermutes(ByTopology(rel.topology), s);
    SortPermutes(ByAfter(rel.schema), byReq);
    if NoDup(s) {
      SortNoDup(ByTopology(rel.topology), s);
      SortNoDup(ByAfter(rel.schema), byReq);
    }
  }

  /** Sorting permutes any list so that each state follows the required states in it. */
  lemma SortedByRequire(rel: Relations, s: seq<Name>)
    requires Acyclic(rel.schema) && TopologyOf(rel.schema, rel.topology)
    ensures RequireOrdered(rel.schema, StableSort(ByTopology(rel.topology), s))
  {
    SortAscending(rel.topology, s);
    hide StableSort, TopologyOf, Acyclic;
    var r := StableSort(ByTopology(rel.topology), s);
    forall i, j | 0 <= i < |r| && 0 <= j < |r| && r[i] in Def(rel.schema, r[j]).require ensures i < j {
      RequiredComesFirst(rel.schema, rel.topology, r[j], r[i]);
    }
  }

  ghost predicate NoAfter(schema: Schema) {
    forall n :: n in schema ==> schema[n].after == []
  }

  lemma NoAfterSort(rel: Relations, s: seq<Name>)
    requires NoAfter(rel.schema)
    ensures SortStates(rel, s) == StableSort(ByTopology(rel.topology), s)
  {
    hide StableSort;
    SortIdentity(ByAfter(rel.schema), StableSort(ByTopology(rel.topology), s));
  }

  // ----- from survivors to targets

  lemma PruneMembers(schema: Schema, s: seq<Name>)
    ensures Elems(Prune(schema, s)) == Kernel(schema, Elems(s))
    ensures NoDup(s) ==> NoDup(Prune(schema, s))
  {
    KernelIsGreatest(schema, Elems(s));
    hide Kernel;
    if NoDup(s) {
      OnlyNoDup(s, Kernel(schema, Elems(s)));
    }
  }

  /** As a set, the targets are the greatest Require-closed part of the resolved states. */
  lemma SettleMembers(rel: Relations, call: Call, kept: seq<Name>)
    ensures Elems(Settle(rel, call, kept)) == Kernel(rel.schema, Elems(Resolved(rel.schema, call, kept)))
  {
    hide SortStates, Prune, Resolved, Kernel;
    var resolved := Resolved(rel.schema, call, kept);
    PruneMembers(rel.schema, Reverse(resolved));
    SortStatesMembers(rel, Prune(rel.schema, Reverse(resolved)));
    assert Elems(Reverse(resolved)) == Elems(resolved);
  }

  lemma SettleNoDup(rel: Relations, call: Call, kept: seq<Name>)
    ensures NoDup(Settle(rel, call, kept))
  {
    var resolved := Resolved(rel.schema, call, kept);
    assert NoDup(resolved);
    hide SortStates, Prune, Resolved;
    ReverseNoDup(resolved);
    PruneMembers(rel.schema, Reverse(resolved));
    SortStatesMembers(rel, Prune(rel.schema, Reverse(resolved)));
  }

  lemma SettleClosed(rel: Relations, call: Call, kept: seq<Name>)
    ensures Closed(rel.schema, Elems(Settle(rel, call, kept)))
  {
    SettleMembers(rel, call, kept);
    KernelIsGreatest(rel.schema, Elems(Resolved(rel.schema, call, kept)));
  }

  /** Every target is a survivor or implied by one, and no survivor removes it. */
  lemma SettleOrigin(rel: Relations, call: Call, kept: seq<Name>, x: Name)
    requires x in Settle(rel, call, kept)
    ensures x in kept || exists n :: n in kept && x in Implied(rel.schema, call, n)
    ensures forall s :: s in kept ==> !Removes(rel.schema, s, x)
  {
    assert x in Elems(Settle(rel, call, kept));
    hide Settle, Implied, AllImplied, Removed, Removes;
    SettleMembers(rel, call, kept);
    KernelIsGreatest(rel.schema, Elems(Resolved(rel.schema, call, kept)));
    RemovedMember(rel.schema, kept, x);
    AllImpliedMember(rel.schema, call, Uniq(kept), x);
  }

  /** At most `depth` levels of Add lead from the requested states to `x`. */
  ghost predicate Reaches(schema: Schema, call: Call, toSet: seq<Name>, x: Name, depth: nat) {
    x in toSet || (depth > 0 && exists n :: Reaches(schema, call, toSet, n, depth - 1) && x in Implied(schema, call, n))
  }

  lemma CandidateSource(schema: Schema, call: Call, toSet: seq<Name>, x: Name)
    requires x in Candidates(schema, call, toSet)
    ensures Reaches(schema, call, toSet, x, 1)
  {
    hide Kernel, Implied, AllImplied;
    AllImpliedMember(schema, call, Uniq(Uniq(toSet)), x);
    if x !in toSet {
      var n :| n in Uniq(Uniq(toSet)) && x in Implied(schema, call, n);
      assert Reaches(schema, call, toSet, n, 0);
    }
  }

  lemma ReachesDeeper(schema: Schema, call: Call, toSet: seq<Name>, x: Name)
    requires Reaches(schema, call, toSet, x, 1)
    ensures Reaches(schema, call, toSet, x, 2)
  {
  }

  /** Every target was asked for or is at most two levels of Add away from that. */
  lemma TargetSource(rel: Relations, call: Call, toSet: seq<Name>, x: Name)
    requires x in Targets(rel, call, toSet)
    ensures Reaches(rel.schema, call, toSet, x, 2)
  {
    hide Settle, Candidates, Implied, Reaches;
    var all := Candidates(rel.schema, call, toSet);
    var kept := Unblocked(rel.schema, all);
    SettleOrigin(rel, call, kept, x);
    SurvivorsWithin(rel.schema, all, Reverse(all));
    if x in kept {
      CandidateSource(rel.schema, call, toSet, x);
      ReachesDeeper(rel.schema, call, toSet, x);
    } else {
      var n :| n in kept && x in Implied(rel.schema, call, n);
      CandidateSource(rel.schema, call, toSet, n);
      OneLevelMore(rel.schema, call, toSet, n, x, 1);
    }
  }

  // ----- mutual exclusion

  /** Each member removes all the others, and nothing adds a member. */
  ghost predicate Exclusive(schema: Schema, group: set<Name>) {
    && (forall a, b :: a in group && b in group && a != b ==> Removes(schema, a, b))
    && (forall n, g :: g in group ==> g !in Def(schema, n).add)
  }

  /** Whatever survived, two states that remove each other are never both targets. */
  lemma SettleExclusive(rel: Relations, call: Call, kept: seq<Name>, group: set<Name>)
    requires Exclusive(rel.schema, group)
    ensures AtMostOne(group, Settle(rel, call, kept))
  {
    hide Settle;
    var t := Settle(rel, call, kept);
    forall a, b | a in group && b in group && a in t && b in t ensures a == b {
      SettleOrigin(rel, call, kept, a);
      SettleOrigin(rel, call, kept, b);
      assert a in kept;
    }
  }

  // ----- targets as sets

  ghost predicate ConflictFree(schema: Schema, a: set<Name>) {
    forall x, y :: x in a && y in a ==> !Removes(schema, x, y)
  }

  ghost function ImpliedBy(schema: Schema, call: Call, states: set<Name>): set<Name> {
    set n, x | n in states && x in Implied(schema, call, n) :: x
  }

  ghost function RemovedBy(schema: Schema, states: set<Name>): set<Name> {
    set n, x | n in states && x in Def(schema, n).remove :: x
  }

  /** Whatever the order of the request, candidates are what Require supports of it and
      one level of Add. */
  lemma CandidatesAsSet(schema: Schema, call: Call, toSet: seq<Name>)
    ensures Elems(Candidates(schema, call, toSet)) ==
            Kernel(schema, Elems(toSet) + ImpliedBy(schema, call, Elems(toSet)))
  {
    hide Kernel, Prune, Implied, AllImplied;
    var expanded := Uniq(WithImplied(schema, call, Uniq(toSet)));
    PruneMembers(schema, expanded);
    assert Elems(expanded) == Elems(toSet) + ImpliedBy(schema, call, Elems(toSet)) by {
      forall x ensures x in expanded <==> x in Elems(toSet) + ImpliedBy(schema, call, Elems(toSet)) {
        AllImpliedMember(schema, call, Uniq(Uniq(toSet)), x);
      }
    }
  }

  /** Targets are what Require supports of the survivors and one more level of Add, less
      everything a survivor removes. */
  lemma SettleAsSet(rel: Relations, call: Call, kept: seq<Name>)
    ensures var s := Elems(kept);
            Elems(Settle(rel, call, kept)) ==
            Kernel(rel.schema, s + ImpliedBy(rel.schema, call, s) - RemovedBy(rel.schema, s))
  {
    SettleMembers(rel, call, kept);
    hide Settle, Kernel, Implied, AllImplied, Removed;
    var s, resolved := Elems(kept), Resolved(rel.schema, call, kept);
    assert Elems(resolved) == s + ImpliedBy(rel.schema, call, s) - RemovedBy(rel.schema, s) by {
      forall x ensures x in resolved <==> x in s + ImpliedBy(rel.schema, call, s) - RemovedBy(rel.schema, s) {
        AllImpliedMember(rel.schema, call, Uniq(kept), x);
        RemovedMember(rel.schema, kept, x);
      }
    }
  }

  /** When no two candidates conflict, all of them survive and the targets do not depend
      on the order of anything. */
  lemma ConflictFreeTargets(rel: Relations, call: Call, toSet: seq<Name>)
    requires ConflictFree(rel.schema, Kernel(rel.schema, Elems(toSet) + ImpliedBy(rel.schema, call, Elems(toSet))))
    ensures var c := Kernel(rel.schema, Elems(toSet) + ImpliedBy(rel.schema, call, Elems(toSet)));
            Elems(Targets(rel, call, toSet)) ==
            Kernel(rel.schema, c + ImpliedBy(rel.schema, call, c) - RemovedBy(rel.schema, c))
  {
    hide Settle, Candidates, Kernel, ImpliedBy, RemovedBy, ConflictFree, Unblocked;
    var all := Candidates(rel.schema, call, toSet);
    CandidatesAsSet(rel.schema, call, toSet);
    CandidatesNoDup(rel.schema, call, toSet);
    AllSurvive(rel.schema, all);
    SettleAsSet(rel, call, Unblocked(rel.schema, all));
  }

  // ----- exactly two levels of Add

  ghost predicate NoRequireRemove(schema: Schema) {
    forall n :: n in schema ==> schema[n].require == [] && schema[n].remove == []
  }

  ghost predicate FollowsAdd(schema: Schema, call: Call, states: seq<Name>) {
    forall n, x :: n in states && x in Implied(schema, call, n) ==> x in states
  }

  lemma AddTargets(rel: Relations, call: Call, toSet: seq<Name>)
    requires NoRequireRemove(rel.schema)
    ensures var c := Elems(toSet) + ImpliedBy(rel.schema, call, Elems(toSet));
            Elems(Targets(rel, call, toSet)) == c + ImpliedBy(rel.schema, call, c)
  {
    var c := Elems(toSet) + ImpliedBy(rel.schema, call, Elems(toSet));
    var all := c + ImpliedBy(rel.schema, call, c);
    assert Closed(rel.schema, c) && Closed(rel.schema, all);
    assert ConflictFree(rel.schema, c) && RemovedBy(rel.schema, c) == {};
    KernelOfClosed(rel.schema, c);
    KernelOfClosed(rel.schema, all);
    hide Targets, Kernel, ImpliedBy;
    ConflictFreeTargets(rel, call, toSet);
  }

  /** Where only Add decides, a state is targeted if and only if it was requested or is at
      most two levels of Add away from that. */
  lemma TwoLevelsOfAdd(rel: Relations, call: Call, toSet: seq<Name>, x: Name)
    requires NoRequireRemove(rel.schema)
    ensures x in Targets(rel, call, toSet) <==> Reaches(rel.schema, call, toSet, x, 2)
  {
    hide Targets, Implied;
    if x in Targets(rel, call, toSet) {
      TargetSource(rel, call, toSet, x);
    }
    if Reaches(rel.schema, call, toSet, x, 2) {
      AddTargets(rel, call, toSet);
      var c := Elems(toSet) + ImpliedBy(rel.schema, call, Elems(toSet));
      if x !in toSet {
        var n :| Reaches(rel.schema, call, toSet, n, 1) && x in Implied(rel.schema, call, n);
        OneLevel(rel.schema, call, toSet, n);
        assert n in c;
      }
      assert x in Elems(Targets(rel, call, toSet));
    }
  }

  lemma OneLevel(schema: Schema, call: Call, toSet: seq<Name>, n: Name)
    requires Reaches(schema, call, toSet, n, 1)
    ensures n in Elems(toSet) + ImpliedBy(schema, call, Elems(toSet))
  {
    if n !in toSet {
      var m :| Reaches(schema, call, toSet, m, 0) && n in Implied(schema, call, m);
      assert m in Elems(toSet);
    }
  }

  /** Add is followed all the way if and only if no third level leads anywhere new. */
  lemma AddIsTransitive(rel: Relations, call: Call, toSet: seq<Name>)
    requires NoRequireRemove(rel.schema)
    ensures FollowsAdd(rel.schema, call, Targets(rel, call, toSet)) <==>
            forall x :: Reaches(rel.schema, call, toSet, x, 3) ==> Reaches(rel.schema, call, toSet, x, 2)
  {
    hide Targets, Implied;
    forall x ensures x in Targets(rel, call, toSet) <==> Reaches(rel.schema, call, toSet, x, 2) {
      TwoLevelsOfAdd(rel, call, toSet, x);
    }
    hide Reaches;
    var targets := Targets(rel, call, toSet);
    if FollowsAdd(rel.schema, call, targets) {
      forall x | Reaches(rel.schema, call, toSet, x, 3) ensures Reaches(rel.schema, call, toSet, x, 2) {
        OneLevelLess(rel.schema, call, toSet, x, 3);
      }
    } else {
      var n, x :| n in targets && x in Implied(rel.schema, call, n) && x !in targets;
      OneLevelMore(rel.schema, call, toSet, n, x, 2);
      assert Reaches(rel.schema, call, toSet, x, 3) && !Reaches(rel.schema, call, toSet, x, 2);
    }
  }

  lemma OneLevelLess(schema: Schema, call: Call, toSet: seq<Name>, x: Name, depth: nat)
    requires depth > 0 && Reaches(schema, call, toSet, x, depth)
    ensures || Reaches(schema, call, toSet, x, depth - 1)
            || exists n :: Reaches(schema, call, toSet, n, depth - 1) && x in Implied(schema, call, n)
  {
  }

  lemma OneLevelMore(schema: Schema, call: Call, toSet: seq<Name>, n: Name, x: Name, depth: nat)
    requires Reaches(schema, call, toSet, n, depth) && x in Implied(schema, call, n)
    ensures Reaches(schema, call, toSet, x, depth + 1)
  {
  }

  // ----- exact targets without implied states

  lemma {:induction false} NothingImplied(schema: Schema, call: Call, states: seq<Name>)
    requires forall n :: n in states ==> Implied(schema, call, n) == []
    ensures AllImplied(schema, call, states) == []
  {
    if states != [] {
      NothingImplied(schema, call, states[..|states| - 1]);
    }
  }

  lemma PlainCandidates(schema: Schema, call: Call, toSet: seq<Name>)
    requires forall n :: n in toSet ==> Implied(schema, call, n) == []
    ensures Elems(Candidates(schema, call, toSet)) == Kernel(schema, Elems(toSet))
  {
    NothingImplied(schema, call, Uniq(Uniq(toSet)));
    hide Kernel, Prune, Implied, AllImplied;
    var plain := Uniq(WithImplied(schema, call, Uniq(toSet)));
    PruneMembers(schema, plain);
    assert Elems(plain) == Elems(toSet);
  }

  lemma PlainResolved(schema: Schema, call: Call, kept: seq<Name>)
    requires forall n :: n in kept ==> Implied(schema, call, n) == []
    ensures forall x :: x in Resolved(schema, call, kept) <==>
                        x in kept && forall n :: n in kept ==> !Removes(schema, n, x)
  {
    NothingImplied(schema, call, Uniq(kept));
    hide Implied, AllImplied, Removed;
    forall x ensures x in Resolved(schema, call, kept) <==>
                     x in kept && forall n :: n in kept ==> !Removes(schema, n, x)
    {
      RemovedMember(schema, kept, x);
    }
  }

  lemma AllSurvive(schema: Schema, all: seq<Name>)
    requires NoDup(all) && ConflictFree(schema, Elems(all))
    ensures Elems(Unblocked(schema, all)) == Elems(all)
  {
    hide Survivors;
    ReverseNoDup(all);
    var todo := Reverse(all);
    SurvivorsWithin(schema, all, todo);
    forall n | n in all ensures n in Survivors(schema, all, todo) {
      assert n in todo;
      var i :| 0 <= i < |todo| && todo[i] == n;
      SurvivorsAreKernel(schema, all, todo, i);
      assert forall b :: b in all ==> b in Elems(all);
    }
  }

  /** When nothing is implied, the target is the greatest Require-closed part of
      the requested states if and only if no two states of that part conflict. */
  lemma PlainTargets(rel: Relations, call: Call, toSet: seq<Name>)
    requires forall n :: n in toSet ==> Implied(rel.schema, call, n) == []
    ensures Elems(Targets(rel, call, toSet)) == Kernel(rel.schema, Elems(toSet)) <==>
            ConflictFree(rel.schema, Kernel(rel.schema, Elems(toSet)))
  {
    var kernel := Kernel(rel.schema, Elems(toSet));
    KernelIsGreatest(rel.schema, Elems(toSet));
    KernelOfClosed(rel.schema, kernel);
    hide Settle, Candidates, Kernel, Implied, Resolved, Survivors;
    var all := Candidates(rel.schema, call, toSet);
    var kept := Unblocked(rel.schema, all);
    PlainCandidates(rel.schema, call, toSet);
    CandidatesNoDup(rel.schema, call, toSet);
    ReverseNoDup(all);
    SurvivorsWithin(rel.schema, all, Reverse(all));
    forall n | n in kept ensures n in Elems(all) && n in toSet {
      assert n in Elems(all);
    }
    PlainResolved(rel.schema, call, kept);
    SettleMembers(rel, call, kept);
    KernelIsGreatest(rel.schema, Elems(Resolved(rel.schema, call, kept)));
    if ConflictFree(rel.schema, kernel) {
      AllSurvive(rel.schema, all);
      assert forall n :: n in kept <==> n in Elems(kept);
      assert Elems(Resolved(rel.schema, call, kept)) == kernel;
    } else {
      var x, y :| x in kernel && y in kernel && Removes(rel.schema, x, y);
      assert y !in Resolved(rel.schema, call, kept) || x !in Resolved(rel.schema, call, kept);
    }
  }

  // ----- Remove mutations

  /** A Remove mutation plans no state it calls. */
  lemma RemoveNeverTargetsCalled(rel: Relations, core: Core, mut: Mutation, x: Name)
    requires mut.typ.Remove? && x in Plan(Default(rel), core, mut)
    ensures x !in mut.called
  {
    hide Targets;
    TargetSource(rel, Call(Remove, mut.called, core.active), Diff(core.active, mut.called), x);
  }

  ghost predicate MultiHasNoAdd(schema: Schema) {
    forall n :: n in schema && schema[n].multi ==> schema[n].add == []
  }

  /** Where Multi states have no Add, a Remove mutation plans exactly the greatest
      Require-closed part of active minus called, if and only if that part is conflict-free. */
  lemma RemoveTargets(rel: Relations, core: Core, mut: Mutation)
    requires MultiHasNoAdd(rel.schema) && mut.typ.Remove?
    ensures var rest := Elems(core.active) - Elems(mut.called);
            Elems(Plan(Default(rel), core, mut)) == Kernel(rel.schema, rest)
            <==> ConflictFree(rel.schema, Kernel(rel.schema, rest))
  {
    hide Targets, Kernel;
    var call, toSet := Call(Remove, mut.called, core.active), Diff(core.active, mut.called);
    forall n | n in toSet ensures Implied(rel.schema, call, n) == [] {
      if Def(rel.schema, n).multi {
        HeadIsMember(Implied(rel.schema, call, n));
      }
    }
    PlainTargets(rel, call, toSet);
    assert Elems(toSet) == Elems(core.active) - Elems(mut.called);
  }

  // ----- the resolver interface

  /** Add relations stay inside the schema. Parsing a schema drops unknown names from Add,
      except one that is also in Remove. */
  ghost predicate AddsKnown(schema: Schema) {
    forall n, x :: x in Def(schema, n).add ==> x in schema
  }

  lemma TargetsKnown(rel: Relations, call: Call, toSet: seq<Name>)
    requires AddsKnown(rel.schema) && forall n :: n in toSet ==> n in rel.schema
    ensures forall n :: n in Targets(rel, call, toSet) ==> n in rel.schema
  {
    hide Targets;
    forall x | x in Targets(rel, call, toSet) ensures x in rel.schema {
      TargetSource(rel, call, toSet, x);
      if x !in toSet {
        var n :| Reaches(rel.schema, call, toSet, n, 1) && x in Implied(rel.schema, call, n);
        assert x in Def(rel.schema, n).add;
      }
    }
  }

  /** The default resolver meets the contract of the interface. */
  lemma DefaultIsSound(rel: Relations)
    requires AddsKnown(rel.schema)
    ensures Sound(Default(rel))
  {
    hide Settle, SortStates, Candidates, Unblocked;
    forall call, toSet
      ensures NoDup(Targets(rel, call, toSet)) && Closed(rel.schema, Elems(Targets(rel, call, toSet)))
    {
      SettleNoDup(rel, call, Unblocked(rel.schema, Candidates(rel.schema, call, toSet)));
      SettleClosed(rel, call, Unblocked(rel.schema, Candidates(rel.schema, call, toSet)));
    }
    forall call, toSet | forall n :: n in toSet ==> n in rel.schema
      ensures forall n :: n in Targets(rel, call, toSet) ==> n in rel.schema
    {
      TargetsKnown(rel, call, toSet);
    }
    forall s ensures multiset(SortStates(rel, s)) == multiset(s) && (NoDup(s) ==> NoDup(SortStates(rel, s))) {
      SortStatesMembers(rel, s);
    }
  }

  /** What parsing does ensure: nothing removes an unknown state. */
  ghost predicate Parsed(schema: Schema) {
    forall n, x :: Removes(schema, n, x) ==> x in schema
  }

  lemma KernelHoldsFree(schema: Schema, s: set<Name>, x: Name)
    requires x in s && Def(schema, x).require == []
    ensures x in Kernel(schema, s)
  {
    assert Closed(schema, {x});
    KernelIsGreatest(schema, s);
    assert {x} <= Kernel(schema, s);
  }

  function AddOne(n: Name): Mutation {
    Mutation(Add, [n], false, false, false, 0)
  }

  /** An unknown name in Add does get targeted, as soon as its state is added to a machine
      with nothing active. */
  lemma UnknownIsTargeted(rel: Relations, n: Name, x: Name)
    requires Parsed(rel.schema) && x in Def(rel.schema, n).add && x !in rel.schema
    ensures x in Plan(Default(rel), Core(map[], []), AddOne(n))
  {
    var schema, call := rel.schema, Call(Add, [n], []);
    var all, asked := Candidates(schema, call, [n]), Elems([n]) + ImpliedBy(schema, call, Elems([n]));
    assert n in Elems([n]) && x in Implied(schema, call, n);
    assert x in asked;
    hide Implied, ImpliedBy, Settle, Candidates, Unblocked, Kernel, SortStates;
    CandidatesAsSet(schema, call, [n]);
    KernelHoldsFree(schema, asked, x);
    CandidatesNoDup(schema, call, [n]);
    assert x in Elems(all);
    UnremovedSurvives(schema, all, x);
    SettleTakes(rel, call, Unblocked(schema, all), x);
    assert [n] + [] == [n];
  }

  lemma UnremovedSurvives(schema: Schema, all: seq<Name>, x: Name)
    requires NoDup(all) && x in all && forall b :: b in all ==> !Removes(schema, b, x)
    ensures x in Unblocked(schema, all)
    ensures forall n :: n in Unblocked(schema, all) ==> n in all
  {
    hide Survivors;
    ReverseNoDup(all);
    assert x in Reverse(all);
    var i :| 0 <= i < |Reverse(all)| && Reverse(all)[i] == x;
    SurvivorsAreKernel(schema, all, Reverse(all), i);
    SurvivorsWithin(schema, all, Reverse(all));
  }

  /** A survivor without requirements that no survivor removes is targeted. */
  lemma SettleTakes(rel: Relations, call: Call, kept: seq<Name>, x: Name)
    requires x in kept && Def(rel.schema, x).require == [] && forall n :: n in kept ==> !Removes(rel.schema, n, x)
    ensures x in Settle(rel, call, kept)
  {
    var s := Elems(kept);
    var resolved := s + ImpliedBy(rel.schema, call, s) - RemovedBy(rel.schema, s);
    assert x in resolved;
    hide Settle, ImpliedBy, RemovedBy;
    SettleAsSet(rel, call, kept);
    KernelHoldsFree(rel.schema, resolved, x);
    assert x in Elems(Settle(rel, call, kept));
  }

  /** Every mutation of known states on known active states plans known states. */
  ghost predicate PlansKnown(res: Resolver) {
    forall core: Core, mut: Mutation :: (forall n :: n in mut.called || n in core.active ==> n in res.schema) ==>
      forall x :: x in Plan(res, core, mut) ==> x in res.schema
  }

  /** For parsed schemas, no mutation ever plans an unknown state if and only if Add stays
      inside the schema. */
  lemma PlansKnownIff(rel: Relations)
    requires Parsed(rel.schema)
    ensures PlansKnown(Default(rel)) <==> AddsKnown(rel.schema)
  {
    hide Targets, SortStates, Parsed;
    if AddsKnown(rel.schema) {
      forall core: Core, mut: Mutation | forall n :: n in mut.called || n in core.active ==> n in rel.schema
        ensures forall x :: x in Plan(Default(rel), core, mut) ==> x in rel.schema
      {
        TargetsKnown(rel, CallOf(mut, core), StatesToSet(mut.typ, mut.called, core.active));
      }
    } else {
      var n, x :| x in Def(rel.schema, n).add && x !in rel.schema;
      UnknownIsTargeted(rel, n, x);
      assert n in rel.schema;
      hide Plan;
      assert forall m :: m in AddOne(n).called || m in Core(map[], []).active ==> m in rel.schema;
    }
  }

  /** With acyclic Require and no After, it lists requirements first. */
  lemma DefaultIsOrdered(rel: Relations)
    requires Acyclic(rel.schema) && TopologyOf(rel.schema, rel.topology) && NoAfter(rel.schema)
    ensures Ordered(Default(rel))
  {
    hide SortStates, StableSort, Candidates, Unblocked, Resolved;
    forall call, toSet ensures RequireOrdered(rel.schema, Targets(rel, call, toSet)) {
      var kept := Unblocked(rel.schema, Candidates(rel.schema, call, toSet));
      var pruned := Prune(rel.schema, Reverse(Resolved(rel.schema, call, kept)));
      SortedByRequire(rel, pruned);
      NoAfterSort(rel, pruned);
    }
  }

  /** It keeps apart every group whose members remove each other and that nothing adds. */
  lemma DefaultSeparates(rel: Relations, group: set<Name>)
    requires Exclusive(rel.schema, group)
    ensures Separates(Default(rel), group)
  {
    hide Settle, Candidates, Unblocked;
    forall call, toSet ensures AtMostOne(group, Targets(rel, call, toSet)) {
      SettleExclusive(rel, call, Unblocked(rel.schema, Candidates(rel.schema, call, toSet)), group);
    }
  }

  ghost predicate NoAddRemove(schema: Schema) {
    forall n :: n in schema ==> schema[n].add == [] && schema[n].remove == []
  }

  /** Without Add and Remove, only Require decides. */
  lemma DefaultOnlyRequire(rel: Relations)
    requires NoAddRemove(rel.schema)
    ensures OnlyRequire(Default(rel))
  {
    hide Targets, Kernel;
    forall call, toSet
      ensures Elems(Targets(rel, call, toSet)) == Kernel(rel.schema, Elems(toSet))
    {
      forall n | n in toSet ensures Implied(rel.schema, call, n) == [] {
        HeadIsMember(Implied(rel.schema, call, n));
      }
      PlainTargets(rel, call, toSet);
    }
  }
}
