/** Import of exported times, entry by entry, and what it leaves behind. */
module Importing {
  import opened Slices
  import opened Schemas
  import opened Transitions
  import opened TransitionFacts

  /** Entries up to the first unknown name. */
  method TakeOver(known: seq<Name>, clock: map<Name, nat>, stateNames: seq<Name>, time: seq<nat>)
    returns (active: seq<Name>, next: map<Name, nat>, taken: nat)
    requires |time| <= |stateNames|
    ensures taken <= |time| && (taken < |time| ==> stateNames[taken] !in known)
    ensures forall i :: 0 <= i < taken ==> stateNames[i] in known
    ensures active == ActiveOf(stateNames[..taken], time[..taken])
    ensures next == Overlay(clock, stateNames[..taken], time[..taken])
  {
    active, next, taken := [], clock, 0;
    while taken < |time|
      invariant taken <= |time| && forall i :: 0 <= i < taken ==> stateNames[i] in known
      invariant active == ActiveOf(stateNames[..taken], time[..taken])
      invariant next == Overlay(clock, stateNames[..taken], time[..taken])
    {
      var state := stateNames[taken];
      if state !in known {
        return;
      }
      assert stateNames[..taken + 1][..taken] == stateNames[..taken];
      assert time[..taken + 1][..taken] == time[..taken];
      if IsActiveTick(time[taken]) {
        active := active + [state];
      }
      next := next[state := time[taken]];
      taken := taken + 1;
    }
  }

  /** A clock with the given ticks in place of its own, later ones over earlier ones. */
  function Overlay(clock: map<Name, nat>, names: seq<Name>, time: seq<nat>): map<Name, nat>
    requires |time| == |names|
  {
    if names == [] then clock
    else
      var k := |names| - 1;
      Overlay(clock, names[..k], time[..k])[names[k] := time[k]]
  }

  /** No odd tick is left out of the names, and only the last entry of a name is odd. */
  ghost predicate ImportsCleanly(clock: map<Name, nat>, names: seq<Name>, time: seq<nat>)
    requires |time| == |names|
  {
    && (forall n :: n in clock && n !in names ==> !IsActiveTick(clock[n]))
    && (forall i, j :: 0 <= i < j < |names| && names[i] == names[j] ==> !IsActiveTick(time[i]))
  }

  ghost predicate SomeOdd(names: seq<Name>, time: seq<nat>, n: Name)
    requires |time| == |names|
  {
    exists i :: 0 <= i < |names| && names[i] == n && IsActiveTick(time[i])
  }

  lemma {:induction false} ActiveIsSomeOdd(names: seq<Name>, time: seq<nat>, n: Name)
    requires |time| == |names|
    ensures n in ActiveOf(names, time) <==> SomeOdd(names, time, n)
  {
    if names != [] {
      var k := |names| - 1;
      ActiveIsSomeOdd(names[..k], time[..k], n);
      if SomeOdd(names, time, n) {
        var i :| 0 <= i < |names| && names[i] == n && IsActiveTick(time[i]);
        assert i < k ==> names[..k][i] == n && time[..k][i] == time[i];
      }
      if SomeOdd(names[..k], time[..k], n) {
        var i :| 0 <= i < k && names[..k][i] == n && IsActiveTick(time[..k][i]);
        assert names[i] == n && IsActiveTick(time[i]);
      }
    }
  }

  /** The tick of a name is the one of its last entry, or its own. */
  lemma {:induction false} OverlayLast(clock: map<Name, nat>, names: seq<Name>, time: seq<nat>, i: nat)
    requires |time| == |names| && i < |names| && forall j :: i < j < |names| ==> names[j] != names[i]
    ensures Tick(Overlay(clock, names, time), names[i]) == time[i]
  {
    var k := |names| - 1;
    if i < k {
      OverlayLast(clock, names[..k], time[..k], i);
    }
  }

  lemma {:induction false} OverlayOthers(clock: map<Name, nat>, names: seq<Name>, time: seq<nat>, n: Name)
    requires |time| == |names| && n !in names
    ensures Tick(Overlay(clock, names, time), n) == Tick(clock, n)
  {
    if names != [] {
      var k := |names| - 1;
      OverlayOthers(clock, names[..k], time[..k], n);
    }
  }

  lemma {:induction false} LastEntry(names: seq<Name>, n: Name) returns (i: nat)
    requires n in names
    ensures i < |names| && names[i] == n && forall j :: i < j < |names| ==> names[j] != n
  {
    var k := |names| - 1;
    if names[k] == n {
      i := k;
    } else {
      i := LastEntry(names[..k], n);
    }
  }

  lemma {:induction false} ActiveOfNoDup(names: seq<Name>, time: seq<nat>)
    requires |time| == |names|
    ensures NoDup(ActiveOf(names, time)) <==>
            forall i, j :: 0 <= i < j < |names| && names[i] == names[j] ==>
              !(IsActiveTick(time[i]) && IsActiveTick(time[j]))
  {
    if names != [] {
      var k := |names| - 1;
      var init, was := names[..k], time[..k];
      ActiveOfNoDup(init, was);
      ActiveIsSomeOdd(init, was, names[k]);
      var a := ActiveOf(init, was);
      var r := ActiveOf(names, time);
      assert NoDup(r) <==> NoDup(a) && (IsActiveTick(time[k]) ==> names[k] !in a) by {
        AppendNoDup(a, names[k]);
        assert r == if IsActiveTick(time[k]) then a + [names[k]] else a;
      }
      hide ActiveOf, NoDup;
      assert forall i :: 0 <= i < k ==> init[i] == names[i] && was[i] == time[i];
      assert IsActiveTick(time[k]) && SomeOdd(init, was, names[k]) ==>
               exists i :: 0 <= i < k && names[i] == names[k] && IsActiveTick(time[i]);
    }
  }

  lemma AppendNoDup(s: seq<Name>, x: Name)
    ensures NoDup(s + [x]) <==> NoDup(s) && x !in s
  {
    var r := s + [x];
    if NoDup(r) {
      assert forall i :: 0 <= i < |s| ==> r[i] == s[i] && r[i] != r[|s|];
    }
  }

  /** Importing a prefix leaves ticks and active states in agreement exactly when it is clean. */
  lemma ImportedParity(clock: map<Name, nat>, names: seq<Name>, time: seq<nat>)
    requires |time| == |names|
    ensures Parity(Core(Overlay(clock, names, time), ActiveOf(names, time))) <==>
            ImportsCleanly(clock, names, time)
  {
    ActiveOfNoDup(names, time);
    hide ActiveOf, Overlay, NoDup;
    var active, over := ActiveOf(names, time), Overlay(clock, names, time);
    forall n ensures n in active <==> SomeOdd(names, time, n) {
      ActiveIsSomeOdd(names, time, n);
    }
    forall n | n !in names ensures Tick(over, n) == Tick(clock, n) && n !in active {
      OverlayOthers(clock, names, time, n);
    }
    if ImportsCleanly(clock, names, time) {
      forall n | n in names ensures n in active <==> IsActiveTick(Tick(over, n)) {
        var i := LastEntry(names, n);
        OverlayLast(clock, names, time, i);
      }
    } else if forall n :: n in clock && n !in names ==> !IsActiveTick(clock[n]) {
      var i, j :| 0 <= i < j < |names| && names[i] == names[j] && IsActiveTick(time[i]);
      var k := LastEntry(names, names[i]);
      OverlayLast(clock, names, time, k);
      assert i < k && names[i] == names[k];
      assert SomeOdd(names, time, names[i]);
    }
  }

  lemma {:induction false} OverlayKeys(clock: map<Name, nat>, names: seq<Name>, time: seq<nat>)
    requires |time| == |names| && forall n :: n in names ==> n in clock
    ensures Overlay(clock, names, time).Keys == clock.Keys
  {
    if names != [] {
      var k := |names| - 1;
      OverlayKeys(clock, names[..k], time[..k]);
      assert names[k] in clock;
    }
  }

  /** As many distinct known names as the schema has are all of them. */
  lemma AllNames(schema: Schema, names: seq<Name>)
    requires NoDup(names) && |names| == |schema| && forall i :: 0 <= i < |names| ==> names[i] in schema
    ensures Elems(names) == schema.Keys
  {
    NoDupCard(names);
    assert |schema.Keys| == |schema|;
    CardWithin(Elems(names), schema.Keys);
  }

  /** Whatever times are imported for all names, active means odd tick. */
  lemma ImportedKeeps(schema: Schema, clock: map<Name, nat>, names: seq<Name>, time: seq<nat>)
    requires NoDup(names) && |time| == |names| && Elems(names) == schema.Keys == clock.Keys
    ensures Overlay(clock, names, time).Keys == schema.Keys
    ensures Parity(Core(Overlay(clock, names, time), ActiveOf(names, time)))
    ensures Known(schema, Core(Overlay(clock, names, time), ActiveOf(names, time)))
  {
    assert forall n :: n in names <==> n in Elems(names);
    assert ImportsCleanly(clock, names, time);
    ImportedParity(clock, names, time);
    OverlayKeys(clock, names, time);
    hide ActiveOf, Overlay, Parity;
    forall n | n in ActiveOf(names, time) ensures n in schema {
      ActiveIsSomeOdd(names, time, n);
    }
  }

  /** An export imported into any machine of the same schema is the restart of the exporter. */
  lemma ImportOfExport(clock: map<Name, nat>, names: seq<Name>, source: Core)
    requires NoDup(names) && forall n :: n in clock <==> n in names
    ensures var time := TimeOf(names, source.clock);
            Core(Overlay(clock, names, time), ActiveOf(names, time)) == Restored(names, source)
  {
    hide ActiveOf;
    var time := TimeOf(names, source.clock);
    OverlayKeys(clock, names, time);
    var over, back := Overlay(clock, names, time), Restored(names, source).clock;
    forall n | n in names ensures Tick(over, n) == Tick(source.clock, n) {
      var i := LastEntry(names, n);
      OverlayLast(clock, names, time, i);
    }
    hide Overlay;
    assert over.Keys == back.Keys;
    assert forall n :: n in over ==> over[n] == back[n];
    assert over == back;
  }
}
