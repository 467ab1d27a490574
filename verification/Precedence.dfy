/** Which of the states that remove each other is targeted, and in which order targets come
    when Require does not decide. */
module Precedence {
  import opened Slices
  import opened Schemas
  import opened Sorting
  import opened Resolvers
  import opened DefaultResolver
  import opened DefaultResolverFacts

  // ----- who survives

  /** A candidate survives if and only if each of its removers comes later in the list and
      does not survive. */
  lemma UnblockedIff(schema: Schema, all: seq<Name>, i: nat)
    requires NoDup(all) && i < |all|
    ensures all[i] in Unblocked(schema, all) <==>
            forall j :: 0 <= j < |all| && Removes(schema, all[j], all[i]) ==>
              j > i && all[j] !in Unblocked(schema, all)
  {
    hide Survivors, Removes;
    ReverseNoDup(all);
    var r, k := Reverse(all), |all| - 1 - i;
    SurvivorsAreKernel(schema, all, r, k);
    forall j | 0 <= j < |all| ensures all[j] in r[..k] <==> j > i {
      assert r[|all| - 1 - j] == all[j];
    }
    assert forall b :: b in all ==> exists j :: 0 <= j < |all| && all[j] == b;
  }

  /** Where states only ever remove each other both ways, a candidate survives if and only if
      it conflicts with none before it. */
  lemma MutualRemoval(schema: Schema, all: seq<Name>, i: nat)
    requires NoDup(all) && i < |all|
    requires forall a, b :: a in all && b in all && Removes(schema, a, b) ==> a != b && Removes(schema, b, a)
    ensures all[i] in Unblocked(schema, all) <==> forall j :: 0 <= j < i ==> !Removes(schema, all[j], all[i])
  {
    hide Unblocked, Removes;
    UnblockedIff(schema, all, i);
    forall j | i < j < |all| && Removes(schema, all[j], all[i]) ensures all[j] !in Unblocked(schema, all) {
      UnblockedIff(schema, all, j);
    }
  }

  /** Requested candidates come in the order of the request, before the implied ones. */
  lemma CandidateOrder(schema: Schema, call: Call, toSet: seq<Name>, x: Name, b: Name)
    requires x in toSet && x in Candidates(schema, call, toSet) && b in Candidates(schema, call, toSet)
    ensures Leads(Candidates(schema, call, toSet), x, b) <==> Leads(toSet, x, b) || b !in toSet
  {
    hide Kernel, Implied, AllImplied, Leads;
    var once := Uniq(toSet);
    var implied := AllImplied(schema, call, Uniq(once));
    var expanded := Uniq(once + implied);
    OnlyLeads(expanded, Kernel(schema, Elems(expanded)), x, b);
    UniqLeads(once + implied, x, b);
    AppendLeads(once, implied, x, b);
    UniqLeads(toSet, x, b);
  }

  /** The states that compete for a request. */
  ghost function Asked(schema: Schema, call: Call, toSet: seq<Name>): set<Name> {
    Kernel(schema, Elems(toSet) + ImpliedBy(schema, call, Elems(toSet)))
  }

  /** A requested state without requirements is a survivor if every competitor that removes
      it is removed by it and was not requested before it. */
  lemma EarlierSurvives(schema: Schema, call: Call, toSet: seq<Name>, x: Name)
    requires x in toSet && Def(schema, x).require == []
    requires forall b :: b in Asked(schema, call, toSet) && Removes(schema, b, x) ==>
               b != x && Removes(schema, x, b) && !Leads(toSet, b, x)
    ensures var kept := Unblocked(schema, Candidates(schema, call, toSet));
            x in kept && forall n :: n in kept ==> !Removes(schema, n, x)
  {
    hide Candidates, Unblocked, Kernel, ImpliedBy, Removes;
    var all := Candidates(schema, call, toSet);
    CandidatesAsSet(schema, call, toSet);
    CandidatesNoDup(schema, call, toSet);
    KernelHoldsFree(schema, Elems(toSet) + ImpliedBy(schema, call, Elems(toSet)), x);
    assert x in Elems(all);
    var i := IndexOf(all, x);
    forall j | 0 <= j < |all| && Removes(schema, all[j], x)
      ensures j > i && all[j] !in Unblocked(schema, all)
    {
      assert all[j] in Elems(all);
      CandidateOrder(schema, call, toSet, x, all[j]);
      UnblockedIff(schema, all, j);
    }
    UnblockedIff(schema, all, i);
    UnblockedWithin(schema, all);
  }

  lemma UnblockedWithin(schema: Schema, all: seq<Name>)
    ensures forall n :: n in Unblocked(schema, all) ==> exists j :: 0 <= j < |all| && all[j] == n
  {
    hide Survivors;
    SurvivorsWithin(schema, all, Reverse(all));
  }

  /** Then it is targeted. */
  lemma EarlierIsTargeted(rel: Relations, call: Call, toSet: seq<Name>, x: Name)
    requires x in toSet && Def(rel.schema, x).require == []
    requires forall b :: b in Asked(rel.schema, call, toSet) && Removes(rel.schema, b, x) ==>
               b != x && Removes(rel.schema, x, b) && !Leads(toSet, b, x)
    ensures x in Targets(rel, call, toSet)
  {
    hide Settle, Candidates, Unblocked, Asked, Removes;
    EarlierSurvives(rel.schema, call, toSet, x);
    SettleTakes(rel, call, Unblocked(rel.schema, Candidates(rel.schema, call, toSet)), x);
  }

  /** Of requested states that remove each other the first one wins: where nothing adds a
      state and it removes whatever removes it, it is targeted if and only if no competitor
      that removes it was requested before it. */
  lemma EarlierWins(rel: Relations, call: Call, toSet: seq<Name>, x: Name)
    requires x in toSet && Def(rel.schema, x).require == [] && forall n :: x !in Def(rel.schema, n).add
    requires forall b :: b in Asked(rel.schema, call, toSet) && Removes(rel.schema, b, x) ==>
               b != x && Removes(rel.schema, x, b)
    ensures x in Targets(rel, call, toSet) <==>
            forall b :: b in Asked(rel.schema, call, toSet) && Removes(rel.schema, b, x) ==> !Leads(toSet, b, x)
  {
    hide Settle, Candidates, Unblocked, Removes, Kernel, ImpliedBy;
    var schema, all := rel.schema, Candidates(rel.schema, call, toSet);
    var asked := Asked(schema, call, toSet);
    CandidatesAsSet(schema, call, toSet);
    if b :| b in asked && Removes(schema, b, x) && Leads(toSet, b, x) {
      KernelHoldsFree(schema, Elems(toSet) + ImpliedBy(schema, call, Elems(toSet)), x);
      assert b in Elems(all) && x in Elems(all);
      CandidateOrder(schema, call, toSet, b, x);
      CandidatesNoDup(schema, call, toSet);
      UnblockedIff(schema, all, IndexOf(all, x));
      assert all[IndexOf(all, b)] == b;
      if x in Targets(rel, call, toSet) {
        SettleOrigin(rel, call, Unblocked(schema, all), x);
        assert false;
      }
    } else {
      EarlierIsTargeted(rel, call, toSet, x);
    }
  }

  lemma {:induction false} ImpliedByFirst(schema: Schema, call: Call, states: seq<Name>)
    requires states != []
    ensures AllImplied(schema, call, states) ==
            Implied(schema, call, states[0]) + AllImplied(schema, call, states[1..])
  {
    hide Implied;
    if |states| > 1 {
      var init := states[..|states| - 1];
      ImpliedByFirst(schema, call, init);
      assert init[1..] == states[1..][..|states[1..]| - 1];
    }
  }

  lemma {:induction false} UniqKeepsFirst(s: seq<Name>)
    requires s != []
    ensures Uniq(s) != [] && Uniq(s)[0] == s[0]
  {
    if |s| > 1 {
      UniqKeepsFirst(s[..|s| - 1]);
    }
  }

  /** A state that the first requested one adds comes before others that were not requested,
      in the order of its Add. */
  lemma ImpliedOrder(schema: Schema, call: Call, toSet: seq<Name>, x: Name, b: Name)
    requires toSet != [] && x in Implied(schema, call, toSet[0]) && x !in toSet && b !in toSet
    requires x in Candidates(schema, call, toSet) && b in Candidates(schema, call, toSet)
    ensures b != x && !Leads(Implied(schema, call, toSet[0]), b, x) ==> Leads(Candidates(schema, call, toSet), x, b)
  {
    hide Kernel, Implied, AllImplied, Leads;
    var once, twice := Uniq(toSet), Uniq(Uniq(toSet));
    UniqKeepsFirst(toSet);
    UniqKeepsFirst(once);
    var first, others := Implied(schema, call, toSet[0]), AllImplied(schema, call, twice[1..]);
    ImpliedByFirst(schema, call, twice);
    var expanded := Uniq(once + (first + others));
    OnlyLeads(expanded, Kernel(schema, Elems(expanded)), x, b);
    UniqLeads(once + (first + others), x, b);
    LaterLeads(once, first + others, x, b);
    AppendLeads(first, others, x, b);
    EitherLeads(first, x, b);
  }

  lemma LaterLeads(s: seq<Name>, t: seq<Name>, x: Name, y: Name)
    requires x !in s && y !in s
    ensures Leads(s + t, x, y) <==> Leads(t, x, y)
  {
    IndexInAppend(s, t, x);
    IndexInAppend(s, t, y);
  }

  lemma EitherLeads(s: seq<Name>, x: Name, y: Name)
    ensures x in s && y in s && x != y ==> Leads(s, x, y) || Leads(s, y, x)
  {
  }

  /** Of states that remove each other and are added by the first requested state, the first
      in its Add wins. */
  lemma FirstAddWins(rel: Relations, call: Call, toSet: seq<Name>, x: Name)
    requires toSet != [] && x in Implied(rel.schema, call, toSet[0]) && x !in toSet && Def(rel.schema, x).require == []
    requires forall b :: b in Asked(rel.schema, call, toSet) && Removes(rel.schema, b, x) ==>
               && b != x && Removes(rel.schema, x, b)
               && b !in toSet && !Leads(Implied(rel.schema, call, toSet[0]), b, x)
    ensures x in Targets(rel, call, toSet)
  {
    hide Settle, Candidates, Unblocked, Kernel, Removes, Implied;
    var schema, all := rel.schema, Candidates(rel.schema, call, toSet);
    CandidatesAsSet(schema, call, toSet);
    CandidatesNoDup(schema, call, toSet);
    assert toSet[0] in Elems(toSet);
    KernelHoldsFree(schema, Elems(toSet) + ImpliedBy(schema, call, Elems(toSet)), x);
    hide ImpliedBy;
    assert x in Elems(all);
    forall j | 0 <= j < |all| && Removes(schema, all[j], x)
      ensures j > IndexOf(all, x) && all[j] !in Unblocked(schema, all)
    {
      assert all[j] in Elems(all);
      ImpliedOrder(schema, call, toSet, x, all[j]);
      UnblockedIff(schema, all, j);
    }
    UnblockedIff(schema, all, IndexOf(all, x));
    UnblockedWithin(schema, all);
    SettleTakes(rel, call, Unblocked(schema, all), x);
  }

  // ----- the order of targets

  lemma {:induction false} AllKept(schema: Schema, all: seq<Name>, todo: seq<Name>)
    requires NoDup(todo) && forall n :: n in todo ==> n in Survivors(schema, all, todo)
    ensures Survivors(schema, all, todo) == todo
  {
    if todo != [] {
      var init, last := todo[..|todo| - 1], todo[|todo| - 1];
      assert todo == init + [last] && last !in init;
      hide Blocked;
      forall n | n in init ensures n in Survivors(schema, all, init) {
        assert n in todo;
      }
      AllKept(schema, all, init);
    }
  }

  lemma ConflictFreeKept(schema: Schema, all: seq<Name>)
    requires NoDup(all) && ConflictFree(schema, Elems(all))
    ensures Unblocked(schema, all) == Reverse(all)
  {
    hide Survivors, ConflictFree;
    ReverseNoDup(all);
    AllSurvive(schema, all);
    forall n | n in Reverse(all) ensures n in Survivors(schema, all, Reverse(all)) {
      assert n in Elems(all);
    }
    AllKept(schema, all, Reverse(all));
  }

  /** What resolving adds comes after the survivors. */
  lemma ResolvedOrder(schema: Schema, call: Call, kept: seq<Name>, x: Name, y: Name)
    requires x in kept && y in kept && x in Resolved(schema, call, kept) && y in Resolved(schema, call, kept)
    ensures Leads(Resolved(schema, call, kept), x, y) <==> Leads(kept, x, y)
  {
    hide AllImplied, Removed, Leads;
    var implied, removed := AllImplied(schema, call, Uniq(kept)), Removed(schema, kept);
    var rest := Elems(kept + implied) - Elems(removed);
    DiffIsOnly(kept + implied, removed, rest);
    UniqLeads(Diff(kept + implied, removed), x, y);
    OnlyLeads(kept + implied, rest, x, y);
    AppendLeads(kept, implied, x, y);
  }

  lemma Unsorted(rel: Relations, s: seq<Name>)
    requires rel.topology == [] && NoAfter(rel.schema)
    ensures SortStates(rel, s) == s
  {
    hide StableSort;
    NoAfterSort(rel, s);
    SortIdentity(ByTopology([]), s);
  }

  lemma SettledOrder(rel: Relations, call: Call, kept: seq<Name>, x: Name, y: Name)
    requires rel.topology == [] && NoAfter(rel.schema)
    requires x in kept && y in kept && x in Settle(rel, call, kept) && y in Settle(rel, call, kept)
    ensures Leads(Settle(rel, call, kept), x, y) <==> Leads(kept, y, x)
  {
    hide SortStates, Resolved, Kernel, Leads, NoAfter;
    var resolved := Resolved(rel.schema, call, kept);
    assert NoDup(resolved) by { ResolvedNoDup(rel.schema, call, kept); }
    Unsorted(rel, Prune(rel.schema, Reverse(resolved)));
    OnlyLeads(Reverse(resolved), Kernel(rel.schema, Elems(Reverse(resolved))), x, y);
    ReverseLeads(resolved, x, y);
    ResolvedOrder(rel.schema, call, kept, y, x);
  }

  lemma ResolvedNoDup(schema: Schema, call: Call, kept: seq<Name>)
    ensures NoDup(Resolved(schema, call, kept))
  {
  }

  /** Where Require is cyclic, so that there is no order by it, After is not used and no two
      competitors conflict, requested states are targeted in the order of the request. */
  lemma RequestOrder(rel: Relations, call: Call, toSet: seq<Name>, x: Name, y: Name)
    requires rel.topology == [] && NoAfter(rel.schema)
    requires ConflictFree(rel.schema, Asked(rel.schema, call, toSet))
    requires x in toSet && y in toSet && x in Targets(rel, call, toSet) && y in Targets(rel, call, toSet)
    requires x in Asked(rel.schema, call, toSet) && y in Asked(rel.schema, call, toSet)
    ensures Leads(Targets(rel, call, toSet), x, y) <==> Leads(toSet, x, y)
  {
    hide Settle, Candidates, Kernel, ImpliedBy, Leads, NoAfter, ConflictFree, Unblocked;
    var all := Candidates(rel.schema, call, toSet);
    CandidatesAsSet(rel.schema, call, toSet);
    CandidatesNoDup(rel.schema, call, toSet);
    assert x in Elems(all) && y in Elems(all);
    ConflictFreeKept(rel.schema, all);
    SettledOrder(rel, call, Unblocked(rel.schema, all), x, y);
    ReverseLeads(all, y, x);
    CandidateOrder(rel.schema, call, toSet, x, y);
  }

  /** No target directly precedes one that it is to come after, unless each is to come after
      the other. */
  lemma AfterNeighbours(rel: Relations, call: Call, toSet: seq<Name>, i: nat)
    requires i + 1 < |Targets(rel, call, toSet)|
    ensures var t := Targets(rel, call, toSet);
            t[i + 1] in Def(rel.schema, t[i]).after ==> t[i] in Def(rel.schema, t[i + 1]).after
  {
    hide StableSort, Resolved, Candidates, Unblocked, Kernel, Only;
    var resolved := Resolved(rel.schema, call, Unblocked(rel.schema, Candidates(rel.schema, call, toSet)));
    var byRequire := StableSort(ByTopology(rel.topology), Prune(rel.schema, Reverse(resolved)));
    SortNeighbours(ByAfter(rel.schema), byRequire);
    assert !Less(ByAfter(rel.schema), Targets(rel, call, toSet)[i + 1], Targets(rel, call, toSet)[i]);
  }
}
