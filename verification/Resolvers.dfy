/** What a machine expects of a relation resolver, whichever one it was given. */
module Resolvers {
  import opened Slices
  import opened Schemas

  datatype MutationType = Add | Remove | Set

  /** What a transition tells the resolver about itself. */
  datatype Call = Call(typ: MutationType, called: seq<Name>, before: seq<Name>)

  /** The resolver interface: target states for a request, and handler order. */
  datatype Resolver = Resolver(
    schema: Schema,
    targets: (Call, seq<Name>) -> seq<Name>,
    sort: seq<Name> -> seq<Name>)

  predicate Removes(schema: Schema, a: Name, b: Name) {
    b in Def(schema, a).remove
  }

  // ----- contracts

  /** Targets are listed once, hold their requirements and stay inside the schema;
      sorting neither loses, adds nor repeats a state. */
  ghost predicate Sound(res: Resolver) {
    && (forall c, t :: NoDup(res.targets(c, t)) && Closed(res.schema, Elems(res.targets(c, t))))
    && (forall c, t :: (forall n :: n in t ==> n in res.schema) ==>
                         forall n :: n in res.targets(c, t) ==> n in res.schema)
    && (forall s :: multiset(res.sort(s)) == multiset(s))
    && (forall s :: NoDup(s) ==> NoDup(res.sort(s)))
  }

  /** Each state follows the required states present in the list. */
  ghost predicate RequireOrdered(schema: Schema, s: seq<Name>) {
    forall i, j :: 0 <= i < |s| && 0 <= j < |s| && s[i] in Def(schema, s[j]).require ==> i < j
  }

  /** Targets always come with requirements first. */
  ghost predicate Ordered(res: Resolver) {
    forall c, t :: RequireOrdered(res.schema, res.targets(c, t))
  }

  ghost predicate AtMostOne(group: set<Name>, states: seq<Name>) {
    forall a, b :: a in group && b in group && a in states && b in states ==> a == b
  }

  /** No request ever targets two members of the group. */
  ghost predicate Separates(res: Resolver, group: set<Name>) {
    forall c, t :: AtMostOne(group, res.targets(c, t))
  }

  /** Targets are the greatest Require-closed part of what was requested. */
  ghost predicate OnlyRequire(res: Resolver) {
    forall c, t :: Elems(res.targets(c, t)) == Kernel(res.schema, Elems(t))
  }

  // ----- consequences

  lemma SortMembersOf(res: Resolver, s: seq<Name>)
    requires Sound(res)
    ensures forall n :: n in res.sort(s) <==> n in s
  {
    assert multiset(res.sort(s)) == multiset(s);
    forall n ensures n in res.sort(s) <==> n in s {
      assert n in s <==> n in multiset(s);
      assert n in res.sort(s) <==> n in multiset(res.sort(s));
    }
  }

  /** Dropping members keeps requirement order. */
  lemma {:induction false} OnlyKeepsOrder(schema: Schema, s: seq<Name>, keep: set<Name>)
    requires RequireOrdered(schema, s)
    ensures RequireOrdered(schema, Only(s, keep))
  {
    if s != [] {
      var init, last := s[..|s| - 1], s[|s| - 1];
      OnlyKeepsOrder(schema, init, keep);
      var r := Only(init, keep);
      forall k | 0 <= k < |r| ensures last !in Def(schema, r[k]).require {
        assert r[k] in r;
        var i :| 0 <= i < |init| && init[i] == r[k];
        assert s[i] == r[k];
      }
      assert last !in Def(schema, last).require;
    }
  }
}
