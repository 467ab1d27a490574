/** The relation resolver: from called and active states to target states. */
module DefaultResolver {
  import opened Slices
  import opened Schemas
  import opened Sorting
  import opened Resolvers

  /** The schema with the Require order computed for it. */
  datatype Relations = Relations(schema: Schema, topology: seq<Name>)

  // ----- Add

  /** States one state pulls in: nothing when it is already active and not Multi,
      and never a state called for removal. */
  function Implied(schema: Schema, call: Call, n: Name): seq<Name> {
    if n in call.before && !Def(schema, n).multi then []
    else if call.typ.Remove? then Diff(Def(schema, n).add, call.called)
    else Def(schema, n).add
  }

  function AllImplied(schema: Schema, call: Call, states: seq<Name>): seq<Name> {
    if states == [] then []
    else AllImplied(schema, call, states[..|states| - 1]) + Implied(schema, call, states[|states| - 1])
  }

  lemma {:induction false} AllImpliedMember(schema: Schema, call: Call, states: seq<Name>, x: Name)
    ensures x in AllImplied(schema, call, states) <==> exists n :: n in states && x in Implied(schema, call, n)
  {
    if states != [] {
      var init, last := states[..|states| - 1], states[|states| - 1];
      AllImpliedMember(schema, call, init, x);
      assert states == init + [last];
    }
  }

  /** One level of Add: the list, then what each of its members implies. */
  function WithImplied(schema: Schema, call: Call, states: seq<Name>): seq<Name> {
    states + AllImplied(schema, call, Uniq(states))
  }

  ghost predicate Saturated(schema: Schema, call: Call, states: seq<Name>, visited: set<Name>) {
    forall n :: n in states && Implied(schema, call, n) != [] ==> n in visited
  }

  /** One pass over the list, collecting what each unvisited member implies. */
  method Sweep(schema: Schema, call: Call, states: seq<Name>, seen: set<Name>)
    returns (added: seq<Name>, visited: set<Name>)
    requires seen == {} || Saturated(schema, call, states, seen)
    ensures Saturated(schema, call, states, visited)
    ensures added == if seen == {} then AllImplied(schema, call, Uniq(states)) else []
  {
    added, visited := [], seen;
    for i := 0 to |states|
      invariant seen != {} ==> added == [] && visited == seen
      invariant seen == {} ==> added == AllImplied(schema, call, Uniq(states[..i]))
      invariant seen == {} ==> Saturated(schema, call, states[..i], visited)
      invariant seen == {} ==> forall n :: n in visited ==> n in states[..i]
    {
      var name := states[i];
      ImpliedPrefix(schema, call, states, i);
      if name !in visited && Implied(schema, call, name) != [] {
        assert name !in states[..i];
        added, visited := added + Implied(schema, call, name), visited + {name};
      }
    }
    assert states[..|states|] == states;
  }

  /** The sweep repeats until nothing changes, yet only the first one ever adds. */
  method ParseAdd(schema: Schema, call: Call, states: seq<Name>) returns (ret: seq<Name>)
    ensures ret == WithImplied(schema, call, states)
  {
    ret := states;
    var visited: set<Name> := {};
    var changed := true;
    ghost var first := true;
    while changed
      invariant first ==> changed && visited == {} && ret == states
      invariant !first ==> ret == WithImplied(schema, call, states) && Saturated(schema, call, states, visited)
      invariant !first && changed ==> visited != {}
      decreases first, changed
    {
      var added, marked := Sweep(schema, call, states, visited);
      ret, changed, visited := ret + added, added != [], marked;
      if added != [] {
        Contributor(schema, call, Uniq(states));
      }
      first := false;
    }
  }

  lemma {:induction false} Contributor(schema: Schema, call: Call, states: seq<Name>)
    requires AllImplied(schema, call, states) != []
    ensures exists n :: n in states && Implied(schema, call, n) != []
  {
    var init, last := states[..|states| - 1], states[|states| - 1];
    if Implied(schema, call, last) == [] {
      Contributor(schema, call, init);
    } else {
      assert last in states;
    }
  }

  lemma ImpliedPrefix(schema: Schema, call: Call, states: seq<Name>, i: nat)
    requires i < |states|
    ensures states[..i + 1] == states[..i] + [states[i]]
    ensures AllImplied(schema, call, Uniq(states[..i + 1])) ==
            AllImplied(schema, call, Uniq(states[..i])) +
            if states[i] in states[..i] then [] else Implied(schema, call, states[i])
  {
    var longer := states[..i + 1];
    assert longer[..|longer| - 1] == states[..i];
    var u := Uniq(states[..i]);
    if states[i] !in states[..i] {
      assert (u + [states[i]])[..|u + [states[i]]| - 1] == u;
    }
  }

  // ----- Require

  /** What is left of a list once states with missing requirements are gone. */
  ghost function Prune(schema: Schema, states: seq<Name>): seq<Name> {
    Only(states, Kernel(schema, Elems(states)))
  }

  function MissingRequires(schema: Schema, n: Name, states: seq<Name>): seq<Name> {
    Diff(Def(schema, n).require, states)
  }

  /** Keeps exactly the greatest Require-closed part, in the given order. */
  method ParseRequire(schema: Schema, targetStates: seq<Name>) returns (ret: seq<Name>)
    ensures ret == Prune(schema, targetStates)
  {
    ret := targetStates;
    ghost var all := Elems(targetStates);
    ghost var kept := all;
    var lengthBefore := 0;
    OnlyAll(targetStates, all);
    KernelIsGreatest(schema, all);
    while lengthBefore != |ret|
      invariant ret == Only(targetStates, kept) && Elems(ret) == kept
      invariant Kernel(schema, all) <= kept <= all
      invariant lengthBefore == |ret| ==> Closed(schema, kept)
      decreases |ret|, lengthBefore != |ret|
    {
      lengthBefore := |ret|;
      var fine := set n | n in ret && MissingRequires(schema, n, ret) == [];
      RequireRound(schema, targetStates, kept, fine, ret);
      ret := Only(ret, fine);
      kept := fine;
    }
    KernelBetween(schema, all, kept);
    KernelOfClosed(schema, kept);
  }

  /** One round of pruning: nothing supported goes, and a round without loss ends closed. */
  lemma RequireRound(schema: Schema, states: seq<Name>, kept: set<Name>, fine: set<Name>, ret: seq<Name>)
    requires ret == Only(states, kept) && Elems(ret) == kept && kept <= Elems(states)
    requires Kernel(schema, Elems(states)) <= kept
    requires fine == set n | n in ret && MissingRequires(schema, n, ret) == []
    ensures Only(ret, fine) == Only(states, fine) && Elems(Only(ret, fine)) == fine
    ensures Kernel(schema, Elems(states)) <= fine <= kept
    ensures |Only(ret, fine)| == |ret| ==> Closed(schema, fine)
  {
    OnlyTwice(states, kept, fine, fine);
    forall n | n in Kernel(schema, Elems(states)) ensures n in fine {
      assert n in Elems(ret);
      SupportedIsFine(schema, Elems(states), n, ret);
    }
    if |Only(ret, fine)| == |ret| {
      OnlySameLength(ret, fine);
      forall n, r | n in fine && r in Def(schema, n).require ensures r in fine {
        assert r !in MissingRequires(schema, n, ret);
      }
    }
  }

  lemma SupportedIsFine(schema: Schema, all: set<Name>, n: Name, ret: seq<Name>)
    requires n in Kernel(schema, all) && Kernel(schema, all) <= Elems(ret)
    ensures MissingRequires(schema, n, ret) == []
  {
    KernelIsGreatest(schema, all);
    forall r | r in Def(schema, n).require ensures r in ret {
      assert r in Kernel(schema, all);
    }
    HeadIsMember(MissingRequires(schema, n, ret));
  }

  // ----- Remove

  /** Some member of `all` removes `n` and has not been dropped from `seen`. */
  predicate Blocked(schema: Schema, all: seq<Name>, n: Name, seen: seq<Name>, kept: seq<Name>) {
    exists b :: b in all && Removes(schema, b, n) && (b in seen ==> b in kept)
  }

  /** The part of `todo`, taken front to back, that no remaining member of `all` removes. */
  function Survivors(schema: Schema, all: seq<Name>, todo: seq<Name>): seq<Name> {
    if todo == [] then []
    else
      var init, n := todo[..|todo| - 1], todo[|todo| - 1];
      var kept := Survivors(schema, all, init);
      if Blocked(schema, all, n, init, kept) then kept else kept + [n]
  }

  lemma {:induction false} SurvivorsWithin(schema: Schema, all: seq<Name>, todo: seq<Name>)
    ensures forall n :: n in Survivors(schema, all, todo) ==> n in todo
    ensures NoDup(todo) ==> NoDup(Survivors(schema, all, todo))
  {
    if todo != [] {
      var init := todo[..|todo| - 1];
      SurvivorsWithin(schema, all, init);
      assert todo == init + [todo[|todo| - 1]];
      assert NoDup(todo) ==> todo[|todo| - 1] !in init;
    }
  }

  method DropBlocked(schema: Schema, all: seq<Name>, todo: seq<Name>) returns (ret: seq<Name>)
    requires NoDup(todo)
    ensures ret == Survivors(schema, all, todo)
  {
    ret := [];
    var alreadyBlocked: set<Name> := {};
    for i := 0 to |todo|
      invariant ret == Survivors(schema, all, todo[..i])
      invariant forall b :: b in alreadyBlocked <==> b in todo[..i] && b !in ret
    {
      var name := todo[i];
      assert todo[..i + 1] == todo[..i] + [name];
      assert todo[..i + 1][..i] == todo[..i];
      assert name !in todo[..i];
      SurvivorsWithin(schema, all, todo[..i]);
      var blockedBy := set b | b in all && Removes(schema, b, name) && b !in alreadyBlocked;
      if b :| b in all && Removes(schema, b, name) && (b in todo[..i] ==> b in ret) {
        assert b in blockedBy;
      }
      if blockedBy == {} {
        ret := ret + [name];
      } else {
        alreadyBlocked := alreadyBlocked + {name};
      }
    }
    assert todo[..|todo|] == todo;
  }

  /** A state survives exactly when each of its removers was taken earlier and did not survive. */
  lemma {:induction false} SurvivorsAreKernel(schema: Schema, all: seq<Name>, todo: seq<Name>, i: nat)
    requires NoDup(todo) && i < |todo|
    ensures todo[i] in Survivors(schema, all, todo) <==>
            forall b :: b in all && Removes(schema, b, todo[i]) ==>
              b in todo[..i] && b !in Survivors(schema, all, todo)
  {
    var init, n := todo[..|todo| - 1], todo[|todo| - 1];
    var kept := Survivors(schema, all, init);
    assert todo == init + [n];
    SurvivorsWithin(schema, all, init);
    assert n !in init;
    if i < |init| {
      SurvivorsAreKernel(schema, all, init, i);
      assert init[i] == todo[i] && init[..i] == todo[..i];
      assert n !in todo[..i] && todo[i] != n;
      hide NoDup, Blocked, Removes;
    } else {
      assert todo[..i] == init;
    }
  }

  /** No survivor removes a survivor. */
  lemma SurvivorsAgree(schema: Schema, all: seq<Name>, todo: seq<Name>, a: Name, b: Name)
    requires NoDup(todo) && Elems(todo) == Elems(all)
    requires a in Survivors(schema, all, todo) && b in Survivors(schema, all, todo)
    ensures !Removes(schema, a, b)
  {
    SurvivorsWithin(schema, all, todo);
    assert a in Elems(todo);
    var i :| 0 <= i < |todo| && todo[i] == b;
    SurvivorsAreKernel(schema, all, todo, i);
  }

  function Removed(schema: Schema, states: seq<Name>): seq<Name> {
    if states == [] then []
    else Removed(schema, states[..|states| - 1]) + Def(schema, states[|states| - 1]).remove
  }

  lemma {:induction false} RemovedMember(schema: Schema, states: seq<Name>, x: Name)
    ensures x in Removed(schema, states) <==> exists n :: n in states && Removes(schema, n, x)
  {
    if states != [] {
      var init, last := states[..|states| - 1], states[|states| - 1];
      RemovedMember(schema, init, x);
      assert states == init + [last];
      assert x in Def(schema, last).remove <==> Removes(schema, last, x);
    }
  }

  method CollectRemoved(schema: Schema, states: seq<Name>) returns (toRemove: seq<Name>)
    ensures toRemove == Removed(schema, states)
  {
    toRemove := [];
    for i := 0 to |states|
      invariant toRemove == Removed(schema, states[..i])
    {
      assert states[..i + 1][..i] == states[..i];
      toRemove := toRemove + Def(schema, states[i]).remove;
    }
    assert states[..|states|] == states;
  }

  // ----- the whole resolution

  /** Order by requirements, then by After. */
  function SortStates(rel: Relations, states: seq<Name>): seq<Name> {
    StableSort(ByAfter(rel.schema), StableSort(ByTopology(rel.topology), states))
  }

  /** Requested states with one level of Add, pruned to what Require supports. */
  ghost function Candidates(schema: Schema, call: Call, toSet: seq<Name>): seq<Name> {
    Prune(schema, Uniq(WithImplied(schema, call, Uniq(toSet))))
  }

  /** Candidates that survive each other's Remove relations, last first. */
  function Unblocked(schema: Schema, all: seq<Name>): seq<Name> {
    Survivors(schema, all, Reverse(all))
  }

  /** Survivors with one more level of Add, minus everything a survivor removes. */
  function Resolved(schema: Schema, call: Call, kept: seq<Name>): seq<Name> {
    Uniq(Diff(WithImplied(schema, call, kept), Removed(schema, kept)))
  }

  /** Targets once the survivors are known: pruned again and put in handler order. */
  ghost function Settle(rel: Relations, call: Call, kept: seq<Name>): seq<Name> {
    SortStates(rel, Prune(rel.schema, Reverse(Resolved(rel.schema, call, kept))))
  }

  ghost function Targets(rel: Relations, call: Call, toSet: seq<Name>): seq<Name> {
    Settle(rel, call, Unblocked(rel.schema, Candidates(rel.schema, call, toSet)))
  }

  lemma CandidatesNoDup(schema: Schema, call: Call, toSet: seq<Name>)
    ensures NoDup(Candidates(schema, call, toSet))
  {
    var expanded := Uniq(WithImplied(schema, call, Uniq(toSet)));
    OnlyNoDup(expanded, Kernel(schema, Elems(expanded)));
  }

  method TargetStates(rel: Relations, call: Call, toSet: seq<Name>) returns (target: seq<Name>)
    ensures target == Targets(rel, call, toSet)
  {
    hide WithImplied, Prune, Survivors, Removed, SortStates;
    var all := ParseAdd(rel.schema, call, Uniq(toSet));
    all := ParseRequire(rel.schema, Uniq(all));
    CandidatesNoDup(rel.schema, call, toSet);
    ReverseNoDup(all);
    var resolved := DropBlocked(rel.schema, all, Reverse(all));
    var toRemove := CollectRemoved(rel.schema, resolved);
    resolved := ParseAdd(rel.schema, call, resolved);
    resolved := Uniq(Diff(resolved, toRemove));
    target := ParseRequire(rel.schema, Reverse(resolved));
    target := SortStates(rel, target);
  }

  /** The default resolver behind the resolver interface. */
  ghost function Default(rel: Relations): Resolver {
    Resolver(
      rel.schema,
      (call, toSet) => Targets(rel, call, toSet),
      states => SortStates(rel, states))
  }
}
