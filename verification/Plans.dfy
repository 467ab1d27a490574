/** What mutations make of a machine with the default resolver. */
module Plans {
  import opened Slices
  import opened Schemas
  import opened Topology
  import opened Resolvers
  import opened DefaultResolver
  import opened DefaultResolverFacts
  import opened Precedence
  import opened Transitions

  /** A called state without requirements is planned if it removes every competitor that
      removes it, even if that one is active. */
  lemma AddedIsPlanned(rel: Relations, core: Core, mut: Mutation, x: Name)
    requires mut.typ.Add? && mut.called == [x] && Def(rel.schema, x).require == []
    requires forall b ::
               b in Asked(rel.schema, Call(Add, [x], core.active), [x] + core.active) && Removes(rel.schema, b, x) ==>
                 b != x && Removes(rel.schema, x, b)
    ensures x in Plan(Default(rel), core, mut)
  {
    hide Targets, Asked, Removes;
    var toSet := [x] + core.active;
    assert toSet[0] == x;
    EarlierIsTargeted(rel, Call(Add, [x], core.active), toSet, x);
  }

  /** Adding a member of an exclusive group, when everybody agrees, makes it the active one,
      whichever was active before. */
  lemma AddSwitches(rel: Relations, core: Core, mut: Mutation, o: Outcome, group: set<Name>, g: Name)
    requires Exclusive(rel.schema, group) && g in group && Def(rel.schema, g).require == []
    requires forall b :: Removes(rel.schema, b, g) ==> b != g && Removes(rel.schema, g, b)
    requires mut.typ.Add? && mut.called == [g] && !mut.isCheck
    requires o.accept && o.finals.Completed? && (mut.isAuto ==> g !in o.rejected)
    ensures var next := Next(Default(rel), core, mut, o).active;
            g in next && forall h :: h in group && h in next ==> h == g
  {
    AddedIsPlanned(rel, core, mut, g);
    DefaultSeparates(rel, group);
    hide Default, Exclusive, Removes;
    AddedLands(Default(rel), core, mut, o, g);
    assert AtMostOne(group, Plan(Default(rel), core, mut));
  }

  lemma AddedLands(res: Resolver, core: Core, mut: Mutation, o: Outcome, g: Name)
    requires mut.typ.Add? && mut.called == [g] && !mut.isCheck && g in Plan(res, core, mut)
    requires o.accept && o.finals.Completed? && (mut.isAuto ==> g !in o.rejected)
    ensures Next(res, core, mut, o).active == Plan(res, core, mut)
  {
    var target := Plan(res, core, mut);
    assert Diff([g], target) == [];
    if mut.isAuto {
      hide Plan;
      var left := Negotiated(res.schema, mut, target, o);
      assert g in left;
      assert Diff([g], Diff([g], left)) == [g];
    }
  }

  /** Where only Add decides, a mutation plans exactly what it asks for, what such a state
      adds, and what that adds; an active state adds nothing unless it is Multi, and what is
      to be removed is never added. */
  lemma PlanOfAdds(rel: Relations, core: Core, mut: Mutation, x: Name)
    requires NoRequireRemove(rel.schema)
    ensures var asked := match mut.typ
                         case Add => Elems(mut.called) + Elems(core.active)
                         case Remove => Elems(core.active) - Elems(mut.called)
                         case Set => Elems(mut.called);
            var barred := if mut.typ.Remove? then Elems(mut.called) else {};
            var quiet := set n | n in core.active && !Def(rel.schema, n).multi;
            x in Plan(Default(rel), core, mut) <==>
            || x in asked
            || (x !in barred && exists n :: n in asked - quiet && x in Def(rel.schema, n).add)
            || (x !in barred && exists n, m ::
                  n in asked - quiet && m in Def(rel.schema, n).add
                  && m !in quiet && m !in barred && x in Def(rel.schema, m).add)
  {
    hide Targets, Reaches;
    var call, toSet := CallOf(mut, core), StatesToSet(mut.typ, mut.called, core.active);
    TwoLevelsOfAdd(rel, call, toSet, x);
    ReachesTwice(rel.schema, call, toSet, x);
    var asked, barred := Elems(toSet), if mut.typ.Remove? then Elems(mut.called) else {};
    var quiet := set n | n in core.active && !Def(rel.schema, n).multi;
    forall n, m
      ensures m in Implied(rel.schema, call, n) <==> n !in quiet && m !in barred && m in Def(rel.schema, n).add
    {
    }
    hide Implied;
  }

  lemma ReachesTwice(schema: Schema, call: Call, toSet: seq<Name>, x: Name)
    ensures Reaches(schema, call, toSet, x, 2) <==>
            || x in toSet
            || (exists n :: n in toSet && x in Implied(schema, call, n))
            || (exists n, m :: n in toSet && m in Implied(schema, call, n) && x in Implied(schema, call, m))
  {
    hide Implied;
    forall m ensures Reaches(schema, call, toSet, m, 1) <==>
                     m in toSet || exists n :: n in toSet && m in Implied(schema, call, n)
    {
      forall n ensures Reaches(schema, call, toSet, n, 0) <==> n in toSet {
      }
    }
  }

  /** With acyclic Require and no After, states are left with requirements listed first. */
  lemma ExitsOrdered(rel: Relations, active: seq<Name>, target: seq<Name>)
    requires Acyclic(rel.schema) && TopologyOf(rel.schema, rel.topology) && NoAfter(rel.schema)
    ensures RequireOrdered(rel.schema, Exits(Default(rel), active, target))
  {
    hide SortStates, Targets;
    SortedByRequire(rel, Diff(active, target));
    NoAfterSort(rel, Diff(active, target));
  }
}
