/** The index that lists each waiting binding under its states, and how it is swept. */
module Indexes {
  import opened Slices
  import opened Schemas
  import opened Bindings

  type Lists<T> = map<Name, seq<T>>

  function At<T>(lists: Lists<T>, s: Name): seq<T> {
    if s in lists then lists[s] else []
  }

  function Copies<T>(x: T, n: nat): (r: seq<T>)
    ensures |r| == n && forall i :: 0 <= i < n ==> r[i] == x
  {
    seq(n, _ => x)
  }

  lemma {:induction false} CountCopies<T>(x: T, n: nat, y: T)
    ensures Count(Copies(x, n), y) == if y == x then n else 0
  {
    if n > 0 {
      CountCopies(x, n - 1, y);
      assert Copies(x, n)[..n - 1] == Copies(x, n - 1);
    }
  }

  /** Lists `b` under each state, as often as the state was passed. */
  method AddTo<T>(lists: Lists<T>, b: T, states: seq<Name>) returns (r: Lists<T>)
    ensures forall s :: At(r, s) == At(lists, s) + Copies(b, Count(states, s))
  {
    r := lists;
    for i := 0 to |states|
      invariant forall s :: At(r, s) == At(lists, s) + Copies(b, Count(states[..i], s))
    {
      assert states[..i + 1][..i] == states[..i];
      AppendCopy(At(lists, states[i]), b, Count(states[..i], states[i]));
      r := r[states[i] := At(r, states[i]) + [b]];
    }
    assert states[..|states|] == states;
  }

  lemma AppendCopy<T>(list: seq<T>, b: T, n: nat)
    ensures list + Copies(b, n) + [b] == list + Copies(b, n + 1)
  {
  }

  // ----- taking a binding out

  /** A list of length 1 goes away whatever it holds, otherwise one entry of `b` goes. */
  function Gc<T(==)>(list: seq<T>, b: T): seq<T> {
    if |list| == 1 then [] else Without(list, b)
  }

  method RemoveFrom<T(==)>(lists: Lists<T>, b: T, states: set<Name>) returns (r: Lists<T>)
    ensures forall s :: At(r, s) == if s in states then Gc(At(lists, s), b) else At(lists, s)
  {
    hide Without;
    r := lists;
    var todo := states;
    while todo != {}
      invariant todo <= states
      invariant forall s :: At(r, s) == if s in states && s !in todo then Gc(At(lists, s), b) else At(lists, s)
    {
      var s :| s in todo;
      todo := todo - {s};
      if |At(r, s)| == 1 {
        r := r - {s};
      } else {
        r := r[s := Without(At(r, s), b)];
      }
    }
  }

  lemma CountGc<T>(list: seq<T>, b: T, y: T)
    requires b in list
    ensures Count(Gc(list, b), y) == Count(list, y) - if y == b then 1 else 0
  {
    CountWithout(list, b, y);
    if |list| == 1 {
      assert list == [b] && [b][..0] == [];
    }
  }

  lemma GcShrinks<T>(list: seq<T>, b: T)
    ensures forall y :: y in Gc(list, b) ==> y in list
  {
  }

  /** A list after the bindings in `closed` were taken out one after the other. */
  ghost function Swept(list: seq<Binding>, s: Name, closed: seq<Binding>): seq<Binding> {
    if closed == [] then list
    else
      var b, rest := closed[|closed| - 1], Swept(list, s, closed[..|closed| - 1]);
      if s in b.states then Gc(rest, b) else rest
  }

  lemma SweptMore(list: seq<Binding>, s: Name, closed: seq<Binding>, b: Binding)
    ensures Swept(list, s, closed + [b]) ==
            if s in b.states then Gc(Swept(list, s, closed), b) else Swept(list, s, closed)
  {
    assert (closed + [b])[..|closed|] == closed;
  }

  lemma {:induction false} SweptTwice(list: seq<Binding>, s: Name, first: seq<Binding>, second: seq<Binding>)
    ensures Swept(Swept(list, s, first), s, second) == Swept(list, s, first + second)
  {
    if second == [] {
      assert first + second == first;
    } else {
      SweptTwice(list, s, first, second[..|second| - 1]);
      assert (first + second)[..|first + second| - 1] == first + second[..|second| - 1];
    }
  }

  lemma {:induction false} SweptShrinks(list: seq<Binding>, s: Name, closed: seq<Binding>)
    ensures forall b :: b in Swept(list, s, closed) ==> b in list
  {
    if closed != [] {
      SweptShrinks(list, s, closed[..|closed| - 1]);
      GcShrinks(Swept(list, s, closed[..|closed| - 1]), closed[|closed| - 1]);
      hide Gc;
    }
  }

  /** Bindings that are listed, and each taken out once, lose one entry each. */
  lemma {:induction false} SweptCount(list: seq<Binding>, s: Name, closed: seq<Binding>, x: Binding)
    requires NoDup(closed) && forall b :: b in closed && s in b.states ==> b in list
    ensures Count(Swept(list, s, closed), x) == Count(list, x) - if x in closed && s in x.states then 1 else 0
  {
    if closed != [] {
      var init, b := closed[..|closed| - 1], closed[|closed| - 1];
      assert closed == init + [b] && b !in init;
      SweptCount(list, s, init, x);
      var rest := Swept(list, s, init);
      if s in b.states {
        SweptCount(list, s, init, b);
        CountMember(list, b);
        CountMember(rest, b);
        hide Gc;
        CountGc(rest, b, x);
      }
    }
  }

  // ----- exact lists

  /** Exactly the open bindings are listed, under each state as often as it was passed. */
  ghost predicate Exact(lists: Lists<Binding>, open: set<Binding>) {
    && (forall s, b :: b in At(lists, s) ==> b in open)
    && (forall s, b :: b in open ==> Count(At(lists, s), b) == Count(b.order, s))
  }

  lemma ExactAt(lists: Lists<Binding>, open: set<Binding>, s: Name, b: Binding)
    requires Exact(lists, open) && b.states == Elems(b.order)
    ensures b in At(lists, s) <==> b in open && s in b.states
  {
    if b in open {
      CountMember(At(lists, s), b);
      CountMember(b.order, s);
    }
  }

  lemma ExactMore(lists: Lists<Binding>, open: set<Binding>, b: Binding, r: Lists<Binding>)
    requires Exact(lists, open) && b !in open
    requires forall s :: At(r, s) == At(lists, s) + Copies(b, Count(b.order, s))
    ensures Exact(r, open + {b})
  {
    hide Count;
    forall s, c | c in At(r, s) ensures c in open + {b} {
      assert c in At(lists, s) || c in Copies(b, Count(b.order, s));
    }
    forall s, c | c in open + {b} ensures Count(At(r, s), c) == Count(c.order, s) {
      CountAppend(At(lists, s), Copies(b, Count(b.order, s)), c);
      CountCopies(b, Count(b.order, s), c);
      CountMember(At(lists, s), b);
    }
  }

  /** Taking out open bindings, each once, leaves exactly the others listed if and only if
      none of them was made for repeated states. */
  lemma SweptExact(lists: Lists<Binding>, open: set<Binding>, closed: seq<Binding>, r: Lists<Binding>)
    requires Exact(lists, open) && NoDup(closed)
    requires forall b :: b in closed ==> b in open && b.states == Elems(b.order)
    requires forall s :: At(r, s) == Swept(At(lists, s), s, closed)
    ensures Exact(r, open - Elems(closed)) <==> forall b :: b in closed ==> NoDup(b.order)
  {
    hide Count, Swept, NoDup;
    forall s, b | b in open
      ensures Count(At(r, s), b) == Count(b.order, s) - if b in closed && s in b.states then 1 else 0
    {
      SweptCountAt(lists, open, closed, s, b);
    }
    forall s, b | b in At(r, s) ensures b in open {
      SweptShrinks(At(lists, s), s, closed);
    }
    if forall b :: b in closed ==> NoDup(b.order) {
      forall s, b | b in At(r, s) ensures b in open - Elems(closed) {
        CountMember(At(r, s), b);
        if b in closed {
          NoDupCount(b.order, s);
          CountMember(b.order, s);
        }
      }
    } else {
      var b :| b in closed && !NoDup(b.order);
      var s := Repeated(b.order);
      CountMember(b.order, s);
      CountMember(At(r, s), b);
      assert b in At(r, s) && b in Elems(closed);
    }
  }

  lemma SweptCountAt(lists: Lists<Binding>, open: set<Binding>, closed: seq<Binding>, s: Name, b: Binding)
    requires Exact(lists, open) && NoDup(closed) && b in open
    requires forall c :: c in closed ==> c in open && c.states == Elems(c.order)
    ensures Count(Swept(At(lists, s), s, closed), b) ==
            Count(b.order, s) - if b in closed && s in b.states then 1 else 0
  {
    hide Count, Swept, NoDup;
    forall c | c in closed && s in c.states ensures c in At(lists, s) {
      ExactAt(lists, open, s, c);
    }
    SweptCount(At(lists, s), s, closed, b);
  }

  // ----- what touching a state closes

  type Snapshot = map<Binding, map<Name, bool>>

  /** With its flag for `s` touched, the counter of the binding reaches the total. */
  ghost predicate Due(b: Binding, s: Name, touch: Touch, flags: Snapshot)
    requires b in flags
  {
    b.Able() && Full(Touched(touch, b.times, flags[b], s), b.negation)
  }

  /** The listed bindings that are due, once for each entry. */
  ghost function DueOf(list: seq<Binding>, s: Name, touch: Touch, flags: Snapshot): seq<Binding>
    requires forall b :: b in list ==> b in flags
  {
    if list == [] then []
    else
      var b := list[|list| - 1];
      DueOf(list[..|list| - 1], s, touch, flags) + if Due(b, s, touch, flags) then [b] else []
  }

  lemma {:induction false} DueCount(list: seq<Binding>, s: Name, touch: Touch, flags: Snapshot, x: Binding)
    requires forall b :: b in list ==> b in flags
    ensures Count(DueOf(list, s, touch, flags), x) ==
            if x in flags && Due(x, s, touch, flags) then Count(list, x) else 0
  {
    if list != [] {
      var init, b := list[..|list| - 1], list[|list| - 1];
      DueCount(init, s, touch, flags, x);
      hide Due;
      if Due(b, s, touch, flags) {
        CountAppend(DueOf(init, s, touch, flags), [b], x);
        assert [b][..0] == [];
      } else {
        assert DueOf(list, s, touch, flags) == DueOf(init, s, touch, flags);
      }
    }
  }

  lemma DueMember(list: seq<Binding>, s: Name, touch: Touch, flags: Snapshot, x: Binding)
    requires forall b :: b in list ==> b in flags
    ensures x in DueOf(list, s, touch, flags) <==> x in list && Due(x, s, touch, flags)
  {
    DueCount(list, s, touch, flags, x);
    CountMember(list, x);
    CountMember(DueOf(list, s, touch, flags), x);
    hide Due, DueOf, Count;
  }

  /** Where only bindings without repetitions are due, each is returned once. */
  lemma DueOnce(lists: Lists<Binding>, open: set<Binding>, s: Name, touch: Touch, flags: Snapshot)
    requires Exact(lists, open) && open <= flags.Keys
    requires forall b :: b in DueOf(At(lists, s), s, touch, flags) ==> NoDup(b.order)
    ensures NoDup(DueOf(At(lists, s), s, touch, flags))
  {
    var closed := DueOf(At(lists, s), s, touch, flags);
    hide DueOf, Due, NoDup;
    if !NoDup(closed) {
      var b: Binding := Repeated<Binding>(closed);
      assert Count(closed, b) >= 2;
      DueCount(At(lists, s), s, touch, flags, b);
      CountMember(closed, b);
      CountMember(At(lists, s), b);
      NoDupCount(b.order, s);
    }
  }

  class Index {
    var lists: Lists<Binding>
    ghost var open: set<Binding>
    /** Every binding ever listed. */
    ghost var known: set<Binding>

    /** Only known bindings are listed, under their states, and all counters are exact. */
    ghost predicate Sane()
      reads this, known
    {
      && (forall s, b :: b in At(lists, s) ==> b in known && s in b.states)
      && (forall b :: b in known ==> b.Counts())
    }

    /** Every open binding waits and is listed under each of its states as often as it was
        passed; nothing else is listed. */
    ghost predicate Valid()
      reads this, known
    {
      && Sane() && open <= known && Exact(lists, open)
      && (forall b :: b in open ==> b.matched < b.total)
    }

    ghost function Flags(): Snapshot
      reads this, known
    {
      map b | b in known :: b.flags
    }

    constructor ()
      ensures Valid() && open == {} && known == {} && forall s :: At(lists, s) == []
    {
      lists, open, known := map[], {}, {};
    }

    method Insert(b: Binding)
      requires Valid() && b !in known && b.Waiting()
      modifies this
      ensures Valid() && open == old(open) + {b} && known == old(known) + {b}
      ensures forall s :: At(lists, s) == old(At(lists, s)) + Copies(b, Count(b.order, s))
    {
      hide Binding.Counts;
      CountedKeys(b);
      var r := AddTo(lists, b, b.order);
      ExactMore(lists, open, b, r);
      hide Exact;
      forall s, c | c in At(r, s) ensures c in known + {b} && s in c.states {
        InsertedUnder(At(lists, s), b, s, c);
      }
      lists, open, known := r, open + {b}, known + {b};
    }

    /** Takes a binding out of the list of each of its states. */
    method Release(b: Binding)
      requires b.flags.Keys == b.states
      modifies this`lists
      ensures forall s :: At(lists, s) == if s in b.states then Gc(old(At(lists, s)), b) else old(At(lists, s))
    {
      lists := RemoveFrom(lists, b, b.flags.Keys);
    }

    /** Sets the flag a binding keeps for a state, and takes it out when its counter reaches
        the total. */
    method Visit(b: Binding, s: Name, touch: Touch) returns (full: bool)
      requires Sane() && b in known && s in b.states
      modifies this`lists, b`flags, b`matched
      ensures Sane() && b.flags == Touched(touch, b.times, old(b.flags), s)
      ensures full <==> Full(b.flags, b.negation) && b.Able()
      ensures full <==> b.matched >= b.total
      ensures forall x :: At(lists, x) == if full && x in b.states then Gc(old(At(lists, x)), b) else old(At(lists, x))
    {
      hide Full, Matching, Gc, Binding.Counts;
      assert b.Counts() && b.flags.Keys == b.states by {
        CountedKeys(b);
      }
      full := b.Switch(s, NewFlag(touch, b.times, b.flags[s], s));
      CountedKeys(b);
      if full {
        ghost var was := lists;
        Release(b);
        ReleasedShrinks(was, lists, b);
      }
    }

    /** The bindings in `done` have been touched, and those returned so far taken out. */
    ghost predicate Visited(
      s: Name, touch: Touch, f0: Snapshot, done: set<Binding>, lists0: Lists<Binding>, closed: seq<Binding>)
      reads this, known
    {
      && Sane() && known == f0.Keys
      && (forall b :: b in known ==> b.flags == if b in done then Touched(touch, b.times, f0[b], s) else f0[b])
      && (forall x :: At(lists, x) == Swept(At(lists0, x), x, closed))
    }

    method VisitNext(
      b: Binding, s: Name, touch: Touch, ghost f0: Snapshot, ghost done: set<Binding>, ghost lists0: Lists<Binding>,
      so: seq<Binding>)
      returns (closed: seq<Binding>)
      requires Visited(s, touch, f0, done, lists0, so) && b in known && s in b.states
      modifies this`lists, b`flags, b`matched
      ensures Visited(s, touch, f0, done + {b}, lists0, closed)
      ensures closed == so + if Due(b, s, touch, f0) then [b] else []
    {
      hide Full, Matching, Gc, Binding.Counts, Touched, Swept;
      TouchTwice(touch, b.times, f0[b], s);
      var full := Visit(b, s, touch);
      hide Index.Sane;
      closed := so;
      if full {
        forall x ensures At(lists, x) == Swept(At(lists0, x), x, so + [b]) {
          SweptMore(At(lists0, x), x, so, b);
        }
        closed := so + [b];
      }
    }

    /** Visits the entries of a list one after the other: each binding is touched, and each
        visit that finds a counter at its total returns it and takes it out. */
    method VisitAll(todo: seq<Binding>, s: Name, touch: Touch, ghost f0: Snapshot) returns (closed: seq<Binding>)
      requires Sane() && f0 == Flags() && forall b :: b in todo ==> b in known && s in b.states
      modifies this`lists, known
      ensures Visited(s, touch, f0, Elems(todo), old(lists), closed)
      ensures closed == DueOf(todo, s, touch, f0)
    {
      closed := [];
      hide Touched, Binding.Counts, Due;
      assert Visited(s, touch, f0, Elems(todo[..0]), old(lists), closed);
      hide Swept, Index.Visited;
      for i := 0 to |todo|
        invariant Visited(s, touch, f0, Elems(todo[..i]), old(lists), closed)
        invariant closed == DueOf(todo[..i], s, touch, f0)
      {
        assert todo[..i + 1][..i] == todo[..i];
        assert Elems(todo[..i + 1]) == Elems(todo[..i]) + {todo[i]};
        assert todo[i] in todo;
        closed := VisitNext(todo[i], s, touch, f0, Elems(todo[..i]), old(lists), closed);
      }
      assert todo[..|todo|] == todo;
    }

    /** Touches every binding listed under a state, once for each entry. */
    method TouchState(s: Name, touch: Touch) returns (closed: seq<Binding>)
      requires Sane()
      modifies this`lists, this`open, known
      ensures Sane() && open == old(open) - Elems(closed)
      ensures closed == DueOf(old(At(lists, s)), s, touch, old(Flags()))
      ensures forall b :: b in known ==>
                b.flags == if b in old(At(lists, s)) then Touched(touch, b.times, old(b.flags), s) else old(b.flags)
      ensures forall x :: At(lists, x) == Swept(old(At(lists, x)), x, closed)
    {
      hide DueOf, Swept, Touched, Binding.Counts;
      closed := VisitAll(At(lists, s), s, touch, Flags());
      assert forall b :: b in old(At(lists, s)) <==> b in Elems(old(At(lists, s)));
      open := open - Elems(closed);
    }

    /** From an exact index: the open bindings of the state that reach their total are
        returned, and afterwards exactly the others are listed and each was returned once,
        if and only if none of the returned ones was made for repeated states. */
    method TouchOpen(s: Name, touch: Touch) returns (closed: seq<Binding>)
      requires Valid()
      modifies this`lists, this`open, known
      ensures Sane() && open == old(open) - Elems(closed)
      ensures forall b :: b in old(open) ==> b.flags == Touched(touch, b.times, old(b.flags), s)
      ensures forall b :: b in closed <==> b in old(open) && s in b.states && Full(b.flags, b.negation) && b.Able()
      ensures forall x :: At(lists, x) == Swept(old(At(lists, x)), x, closed)
      ensures Valid() && NoDup(closed) <==> forall b :: b in closed ==> NoDup(b.order)
    {
      hide DueOf, Swept, Touched, Exact, Binding.Counts, Full, NoDup;
      ghost var was, all, f0 := lists, open, Flags();
      forall b | b in all ensures !(Full(f0[b], b.negation) && b.Able()) && f0[b].Keys == b.states {
        TotalReached(b);
        CountedKeys(b);
      }
      closed := TouchState(s, touch);
      TouchedOpen(this, was, all, f0, s, touch, closed);
    }
  }

  /** What touching a state does to an index that was exact. */
  lemma TouchedOpen(
    ix: Index, was: Lists<Binding>, all: set<Binding>, f0: Snapshot, s: Name, touch: Touch, closed: seq<Binding>)
    requires ix.Sane() && Exact(was, all) && all <= ix.known && all <= f0.Keys
    requires forall b :: b in all ==> !(Full(f0[b], b.negation) && b.Able()) && f0[b].Keys == b.states
    requires ix.open == all - Elems(closed) && closed == DueOf(At(was, s), s, touch, f0)
    requires forall b :: b in all ==> b.flags == if b in At(was, s) then Touched(touch, b.times, f0[b], s) else f0[b]
    requires forall x :: At(ix.lists, x) == Swept(At(was, x), x, closed)
    ensures forall b :: b in all ==> b.flags == Touched(touch, b.times, f0[b], s)
    ensures forall b :: b in closed <==> b in all && s in b.states && Full(b.flags, b.negation) && b.Able()
    ensures ix.Valid() && NoDup(closed) <==> forall b :: b in closed ==> NoDup(b.order)
  {
    assert forall b :: b in At(was, s) ==> b in all;
    hide DueOf, Swept, Touched, Exact, Binding.Counts, Full, NoDup;
    forall b | b in all
      ensures b.flags == Touched(touch, b.times, f0[b], s) && b.states == Elems(b.order)
      ensures b in closed <==> s in b.states && Full(b.flags, b.negation) && b.Able()
    {
      CountedKeys(b);
      ExactAt(was, all, s, b);
      DueMember(At(was, s), s, touch, f0, b);
      if s !in b.states {
        TouchedElsewhere(touch, b.times, f0[b], s);
      }
    }
    forall b | b in closed ensures b in all {
      DueMember(At(was, s), s, touch, f0, b);
      ListedIsOpen(was, all, s, b);
    }
    CleanIff(was, all, s, touch, f0, closed, ix.lists);
    forall b | b in ix.open ensures b.matched < b.total {
      TotalReached(b);
      if s !in b.states {
        TouchedElsewhere(touch, b.times, f0[b], s);
      }
    }
  }

  lemma ListedIsOpen(lists: Lists<Binding>, open: set<Binding>, s: Name, b: Binding)
    requires Exact(lists, open) && b in At(lists, s)
    ensures b in open
  {
  }

  lemma CleanIff(
    lists: Lists<Binding>, open: set<Binding>, s: Name, touch: Touch, flags: Snapshot, closed: seq<Binding>,
    r: Lists<Binding>)
    requires Exact(lists, open) && open <= flags.Keys && closed == DueOf(At(lists, s), s, touch, flags)
    requires forall b :: b in closed ==> b in open && b.states == Elems(b.order)
    requires forall x :: At(r, x) == Swept(At(lists, x), x, closed)
    ensures Exact(r, open - Elems(closed)) && NoDup(closed) <==> forall b :: b in closed ==> NoDup(b.order)
  {
    hide DueOf, Swept, Exact, NoDup;
    if forall b :: b in closed ==> NoDup(b.order) {
      DueOnce(lists, open, s, touch, flags);
    }
    if NoDup(closed) {
      SweptExact(lists, open, closed, r);
    }
  }

  lemma ReleasedShrinks(lists: Lists<Binding>, r: Lists<Binding>, b: Binding)
    requires forall s :: At(r, s) == if s in b.states then Gc(At(lists, s), b) else At(lists, s)
    ensures forall s, c :: c in At(r, s) ==> c in At(lists, s)
  {
    forall s, c | c in At(r, s) ensures c in At(lists, s) {
      GcShrinks(At(lists, s), b);
    }
  }

  lemma InsertedUnder(list: seq<Binding>, b: Binding, s: Name, c: Binding)
    requires b.states == Elems(b.order) && c in list + Copies(b, Count(b.order, s))
    ensures c in list || (c == b && s in b.states)
  {
    CountMember(b.order, s);
    hide Count;
    assert c in list || c in Copies(b, Count(b.order, s));
  }
}
