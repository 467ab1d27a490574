/** The client's mirror of a source machine: clock updates and faked requirements. */
module NetMachine {
  import opened Slices
  import opened Schemas
  import opened Transitions
  import opened TransitionFacts
  import opened ClockSync
  import opened Replication

  /** `c` is the smallest Require-closed set that holds `a`. */
  ghost predicate LeastClosed(schema: Schema, a: set<Name>, c: set<Name>) {
    a <= c && Closed(schema, c) && forall s: set<Name> :: a <= s && Closed(schema, s) ==> c <= s
  }

  /** All names that some state requires. */
  function AllRequired(schema: Schema): set<Name> {
    set n, r | n in schema && r in schema[n].require :: r
  }

  lemma RequiredListed(schema: Schema, n: Name, r: Name)
    requires r in Def(schema, n).require
    ensures r in AllRequired(schema)
  {
  }

  ghost predicate Sees(schema: Schema, visited: set<Name>, list: seq<Name>, n: Name) {
    forall r :: r in Def(schema, n).require ==> r in visited && r in list
  }

  /** `after` extends `before` with visited states, and stays within every closed set. */
  ghost predicate Extends(schema: Schema, visited: set<Name>, before: seq<Name>, after: seq<Name>) {
    && before <= after
    && (forall n :: n in before ==> n in after)
    && (forall n :: n in after ==> n in before || n in visited)
    && (forall c: set<Name> :: Closed(schema, c) && Elems(before) <= c ==> Elems(after) <= c)
  }

  lemma ExtendsTrans(schema: Schema, mid: set<Name>, visited: set<Name>, a: seq<Name>, b: seq<Name>, c: seq<Name>)
    requires Extends(schema, mid, a, b) && Extends(schema, visited, b, c) && mid <= visited
    ensures Extends(schema, visited, a, c)
  {
  }

  /** Listing a requirement of a listed state. */
  lemma ExtendsRequired(schema: Schema, visited: set<Name>, list: seq<Name>, n: Name, r: Name)
    requires n in list && r in Def(schema, n).require && r in visited
    ensures Extends(schema, visited, list, list + [r])
  {
  }

  lemma Fewer(all: set<Name>, some: set<Name>, more: set<Name>)
    requires some <= more <= all
    ensures |all - more| <= |all - some|
    ensures some < more ==> |all - more| < |all - some|
  {
    assert all - some == (all - more) + (more - some);
    if some < more {
      var n :| n in more && n !in some;
      assert n in more - some;
    }
  }

  /** Depth-first visit of requirements. States still on the way were visited before:
      everything visited from here on has its requirements visited and listed. */
  method Visit(schema: Schema, n: Name, visited: set<Name>, list: seq<Name>, ghost all: set<Name>)
    returns (visited': set<Name>, list': seq<Name>)
    requires n in list && n in all && visited <= all && AllRequired(schema) <= all
    ensures visited + {n} <= visited' <= all
    ensures Extends(schema, visited', list, list')
    ensures forall v :: v in visited' && v !in visited ==> Sees(schema, visited', list', v)
    decreases |all - visited|, 1
  {
    visited', list' := visited, list;
    if n !in visited {
      Fewer(all, visited, visited + {n});
      visited', list' := VisitRequired(schema, n, visited + {n}, list, all);
    }
  }

  method VisitRequired(schema: Schema, n: Name, visited: set<Name>, list: seq<Name>, ghost all: set<Name>)
    returns (visited': set<Name>, list': seq<Name>)
    requires n in list && n in visited && visited <= all && AllRequired(schema) <= all
    ensures visited <= visited' <= all
    ensures Extends(schema, visited', list, list')
    ensures forall v :: v in visited' && (v !in visited || v == n) ==> Sees(schema, visited', list', v)
    decreases |all - visited|, 2
  {
    var require := Def(schema, n).require;
    visited', list' := visited, list;
    for i := 0 to |require|
      invariant visited <= visited' <= all
      invariant Extends(schema, visited', list, list')
      invariant forall v :: v in visited' && v !in visited ==> Sees(schema, visited', list', v)
      invariant forall k :: 0 <= k < i ==> require[k] in visited' && require[k] in list'
    {
      var r := require[i];
      RequiredListed(schema, n, r);
      Fewer(all, visited, visited');
      var before, mid := visited', list';
      visited', list' := Visit(schema, r, visited', list' + [r], all);
      hide Extends;
      ExtendsRequired(schema, visited', mid, n, r);
      ExtendsTrans(schema, visited', visited', mid, mid + [r], list');
      ExtendsTrans(schema, before, visited', list, mid, list');
      SeesMore(schema, before, visited', mid, list');
    }
  }

  lemma SeesMore(schema: Schema, before: set<Name>, visited: set<Name>, mid: seq<Name>, list: seq<Name>)
    requires before <= visited && Extends(schema, visited, mid, list)
    ensures forall n :: n in mid ==> n in list
    ensures forall v :: Sees(schema, before, mid, v) ==> Sees(schema, visited, list, v)
  {
  }

  /** The list grown from the active states is the smallest Require-closed set around
      them, also when requirements form cycles. */
  method ActivateRequired(schema: Option<Schema>, active: seq<Name>) returns (r: seq<Name>)
    ensures schema.None? ==> r == active
    ensures schema.Some? ==> NoDup(r) && LeastClosed(schema.value, Elems(active), Elems(r))
    ensures NoDup(active) ==> active <= r
  {
    if schema.None? {
      return active;
    }
    var s := schema.value;
    ghost var all := AllRequired(s) + Elems(active);
    var visited: set<Name>, list := {}, active;
    for i := 0 to |active|
      invariant visited <= all && Extends(s, visited, active, list)
      invariant forall v :: v in visited ==> Sees(s, visited, list, v)
      invariant forall k :: 0 <= k < i ==> active[k] in visited
    {
      assert active[i] in Elems(active) && active[i] in active;
      var before, mid := visited, list;
      visited, list := Visit(s, active[i], visited, list, all);
      ExtendsTrans(s, before, visited, active, mid, list);
      SeesMore(s, before, visited, mid, list);
    }
    r := Uniq(list);
    GrownIsLeast(s, visited, active, list, r);
    if NoDup(active) {
      UniqPrefix(active, list);
    }
  }

  lemma GrownIsLeast(schema: Schema, visited: set<Name>, active: seq<Name>, list: seq<Name>, r: seq<Name>)
    requires Extends(schema, visited, active, list) && forall n :: n in r <==> n in list
    requires forall v :: v in visited ==> Sees(schema, visited, list, v)
    requires forall n :: n in active ==> n in visited
    ensures LeastClosed(schema, Elems(active), Elems(r))
  {
  }

  lemma {:induction false} UniqPrefix(a: seq<Name>, s: seq<Name>)
    requires NoDup(a) && a <= s
    ensures a <= Uniq(s)
    decreases |s|
  {
    if a == s {
      UniqNoDup(a);
    } else {
      UniqPrefix(a, s[..|s| - 1]);
    }
  }

  class NetMach {
    const names: seq<Name>
    const schema: Option<Schema>
    var machTime: seq<nat>
    var queueTick: nat
    var machTick: nat
    var activeStates: seq<Name>

    ghost predicate Valid()
      reads this
    {
      && NoDup(names) && |machTime| == |names|
      && Shows(schema, names, machTime, activeStates)
    }

    ghost function View(): Mirror
      reads this
    {
      Mirror(machTime, queueTick, machTick)
    }

    /** A machine made from what the handshake returned. */
    constructor (names: seq<Name>, time: seq<nat>, queueTick: nat, schema: Option<Schema>)
      requires NoDup(names) && |time| == |names|
      ensures Valid() && View() == Mirror(time, queueTick, 0)
      ensures this.names == names && this.schema == schema
    {
      this.names, this.schema := names, schema;
      this.machTime, this.queueTick, this.machTick := time, queueTick, 0;
      var active := OddTicks(names, time);
      var shown := ActivateRequired(schema, active);
      this.activeStates := shown;
    }

    method UpdateClock(now: seq<nat>, qTick: nat, tick: nat) returns (activated: seq<Name>, deactivated: seq<Name>)
      requires Valid() && |now| == |names|
      modifies this
      ensures Valid() && View() == Mirror(now, qTick, tick)
      ensures forall n :: n in activated <==> n in activeStates && n !in old(activeStates)
      ensures forall n :: n in deactivated <==> n in old(activeStates) && n !in activeStates
    {
      var activeNow := OddTicks(names, now);
      activeNow := ActivateRequired(schema, activeNow);
      activated, deactivated := Diff(activeNow, activeStates), Diff(activeStates, activeNow);
      machTime, machTick, queueTick, activeStates := now, tick, qTick, activeNow;
    }

    /** A drifted update is reported and changes nothing. */
    method ClockUpdate(u: Update) returns (ok: bool)
      requires Valid() && |u.indexes| == |u.ticks|
      modifies this
      ensures Valid() && ok == Accepts(u, old(View()))
      ensures ok ==> View() == Applied(u, old(View()))
      ensures !ok ==> View() == old(View()) && activeStates == old(activeStates)
    {
      var after := ClockFromUpdate(u, Mirror(machTime, queueTick, machTick));
      if Checksum(Sum(after.time), after.queueTick, after.machTick) != u.checksum {
        return false;
      }
      var _, _ := UpdateClock(after.time, after.queueTick, after.machTick);
      return true;
    }

    /** A batch is applied up to its first rejected update. */
    method ClockUpdateMutations(updates: seq<Update>) returns (ok: bool)
      requires Valid() && forall i :: 0 <= i < |updates| ==> |updates[i].indexes| == |updates[i].ticks|
      modifies this
      ensures Valid()
      ensures var visits := Visits(updates, old(View()));
              && (ok <==> |visits| == |updates|)
              && View() == if visits == [] then old(View()) else visits[|visits| - 1]
    {
      hide Accepts, Applied;
      ghost var start := View();
      for i := 0 to |updates|
        invariant Valid()
        invariant i > 0 ==> |Visits(updates[..i], start)| == i && Visits(updates[..i], start)[i - 1] == View()
        invariant i == 0 ==> View() == start
      {
        VisitsGrow(updates, start, i, View());
        ok := ClockUpdate(updates[i]);
        if !ok {
          return;
        }
      }
      assert updates[..|updates|] == updates;
      ok := true;
    }
  }

  /** The states a client shows for a time. */
  ghost predicate Shows(schema: Option<Schema>, names: seq<Name>, time: seq<nat>, active: seq<Name>)
    requires |time| == |names|
  {
    && NoDup(active)
    && match schema
       case None => active == ActiveOf(names, time)
       case Some(s) => LeastClosed(s, Elems(ActiveOf(names, time)), Elems(active))
  }

  method OddTicks(names: seq<Name>, time: seq<nat>) returns (active: seq<Name>)
    requires |time| == |names| && NoDup(names)
    ensures active == ActiveOf(names, time) && NoDup(active)
  {
    active := [];
    for i := 0 to |names|
      invariant active == ActiveOf(names[..i], time[..i])
    {
      assert names[..i + 1][..i] == names[..i] && time[..i + 1][..i] == time[..i];
      if IsActiveTick(time[i]) {
        active := active + [names[i]];
      }
    }
    assert names[..|names|] == names && time[..|time|] == time;
    ActiveOfMembers(names, time);
  }

  /** Delivering one more update after i accepted ones. */
  lemma {:induction false} VisitsGrow(updates: seq<Update>, start: Mirror, i: nat, m: Mirror)
    requires forall i :: 0 <= i < |updates| ==> |updates[i].indexes| == |updates[i].ticks|
    requires i < |updates| && |Visits(updates[..i], start)| == i
    requires m == if i == 0 then start else Visits(updates[..i], start)[i - 1]
    ensures Accepts(updates[i], m) ==>
              Visits(updates[..i + 1], start) == Visits(updates[..i], start) + [Applied(updates[i], m)]
    ensures !Accepts(updates[i], m) ==> Visits(updates, start) == Visits(updates[..i], start)
    decreases i
  {
    hide Accepts, Applied;
    if i > 0 {
      var rest := updates[1..];
      assert updates[..i][1..] == rest[..i - 1] && updates[..i + 1][1..] == rest[..i];
      VisitsGrow(rest, Visits(updates[..i], start)[0], i - 1, m);
    }
  }
}
