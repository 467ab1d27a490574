/** Waiting bindings: flags, counters and when the counter reaches its total. */
module Bindings {
  import opened Slices
  import opened Schemas

  /** What a touched state does to the flag a binding keeps for it: the state became
      active or inactive, or its tick was read and compared with the awaited one. */
  datatype Touch = Switched(on: bool) | Ticked(tick: nat)

  /** Position of the last occurrence of each state. */
  function IndexMap(states: seq<Name>): (r: map<Name, nat>)
    ensures r.Keys == Elems(states) && forall s :: s in r ==> r[s] < |states|
  {
    if states == [] then map[]
    else
      assert states == states[..|states| - 1] + [states[|states| - 1]];
      IndexMap(states[..|states| - 1])[states[|states| - 1] := |states| - 1]
  }

  /** The awaited tick of each state; the last one counts. */
  function AwaitedTimes(states: seq<Name>, times: seq<nat>): map<Name, nat>
    requires |states| == |times|
  {
    map s | s in IndexMap(states) :: times[IndexMap(states)[s]]
  }

  /** A channel that closes once every state has its flag set, or every flag is cleared
      for a negated binding. `order` and `wants` are the states and ticks as they were
      passed, `times` the awaited tick of each state. */
  class Binding {
    const order: seq<Name>
    const wants: seq<nat>
    const negation: bool
    const times: map<Name, nat>
    const total: nat
    ghost const states: set<Name>
    /** What the counter held beyond the matching flags when the binding was made. */
    ghost const extra: int
    /** The clock when the binding was made. */
    ghost const made: map<Name, nat>
    var flags: map<Name, bool>
    var matched: int

    constructor (
      order: seq<Name>, wants: seq<nat>, negation: bool, times: map<Name, nat>, flags: map<Name, bool>, matched: int,
      ghost made: map<Name, nat>)
      ensures this.order == order && this.wants == wants && this.negation == negation && this.times == times
      ensures this.flags == flags && total == |order| && this.matched == matched
      ensures states == Elems(order) && extra == matched - |Matching(flags, negation)| && this.made == made
    {
      this.order, this.wants, this.negation, this.times, this.flags := order, wants, negation, times, flags;
      total, this.matched, states := |order|, matched, Elems(order);
      extra := matched - |Matching(flags, negation)|;
      this.made := made;
    }

    /** The counter can reach the total: every state passed more than once was counted for
        all but its last occurrence from the start. */
    ghost predicate Able() {
      extra + |states| == total
    }

    /** The counter says how many flags match. */
    ghost predicate Counts()
      reads this
    {
      && flags.Keys == states == Elems(order) && total == |order|
      && 0 <= extra && extra + |states| <= total
      && matched == |Matching(flags, negation)| + extra
      && if times == map[] then wants == [] else |wants| == |order| && times == AwaitedTimes(order, wants)
    }

    /** The counter is exact and has not reached the total. */
    ghost predicate Waiting()
      reads this
    {
      Counts() && matched < total
    }

    /** Sets one flag and counts. */
    method Switch(s: Name, on: bool) returns (full: bool)
      requires Counts() && s in states
      modifies this`flags, this`matched
      ensures Counts() && flags == old(flags)[s := on]
      ensures full <==> Full(flags, negation) && Able()
      ensures full <==> matched >= total
    {
      CountSwitch(flags, negation, s, on);
      CountFull(flags[s := on], negation);
      assert flags[s := on].Keys == flags.Keys;
      assert |flags[s := on]| == |states|;
      hide Full, Matching, AwaitedTimes;
      if flags[s] != on {
        matched := matched + if on != negation then 1 else -1;
      }
      flags := flags[s := on];
      full := matched >= total;
    }
  }

  lemma CountedKeys(b: Binding)
    requires b.Counts()
    ensures b.flags.Keys == b.states == Elems(b.order)
  {
  }

  lemma TotalReached(b: Binding)
    requires b.Counts()
    ensures b.matched >= b.total <==> Full(b.flags, b.negation) && b.Able()
  {
    CountFull(b.flags, b.negation);
  }

  lemma NoDupIsAble(b: Binding)
    requires b.Counts() && NoDup(b.order)
    ensures b.Able()
  {
    NoDupCard(b.order);
  }

  ghost function Matching(flags: map<Name, bool>, negation: bool): set<Name> {
    set s | s in flags && flags[s] != negation
  }

  ghost predicate Full(flags: map<Name, bool>, negation: bool) {
    forall s :: s in flags ==> flags[s] != negation
  }

  /** The new flag; a completed time stays completed. */
  function NewFlag(touch: Touch, times: map<Name, nat>, flag: bool, s: Name): bool {
    match touch
    case Switched(on) => on
    case Ticked(tick) => flag || (s in times && tick >= times[s])
  }

  function Touched(touch: Touch, times: map<Name, nat>, flags: map<Name, bool>, s: Name): map<Name, bool> {
    if s in flags then flags[s := NewFlag(touch, times, flags[s], s)] else flags
  }

  lemma TouchTwice(touch: Touch, times: map<Name, nat>, flags: map<Name, bool>, s: Name)
    ensures Touched(touch, times, Touched(touch, times, flags, s), s) == Touched(touch, times, flags, s)
    ensures Touched(touch, times, flags, s).Keys == flags.Keys
  {
  }

  lemma TouchedElsewhere(touch: Touch, times: map<Name, nat>, flags: map<Name, bool>, s: Name)
    requires s !in flags
    ensures Touched(touch, times, flags, s) == flags
  {
  }

  lemma CountSwitch(flags: map<Name, bool>, negation: bool, s: Name, on: bool)
    requires s in flags
    ensures |Matching(flags[s := on], negation)| == |Matching(flags, negation)| +
            if flags[s] == on then 0 else if on != negation then 1 else -1
  {
    var was, now := Matching(flags, negation), Matching(flags[s := on], negation);
    if flags[s] == on {
      assert flags[s := on] == flags;
    } else if on != negation {
      assert now == was + {s};
    } else {
      assert now == was - {s};
    }
  }

  lemma CountFull(flags: map<Name, bool>, negation: bool)
    ensures |Matching(flags, negation)| <= |flags|
    ensures |Matching(flags, negation)| == |flags| <==> Full(flags, negation)
  {
    var m := Matching(flags, negation);
    assert m <= flags.Keys && |flags.Keys| == |flags|;
    CardWithin(m, flags.Keys);
    if Full(flags, negation) {
      assert m == flags.Keys;
    }
  }
}
