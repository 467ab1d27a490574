/** When an update is accepted, whatever the server and the client hold. */
module Acceptance {
  import opened Slices
  import opened Transitions
  import opened ClockSync
  import opened ClockSyncFacts

  /** What the server means to add for the k-th tracked state: the difference to the last
      push, or the whole tick when that has no such entry. Then a state is left out if the
      entry at its own number is 0, although with full indexes that is another state's. */
  function Step(sync: bool, d: Data, last: Data, k: nat): int
    requires k < |d.trackedIdxs|
  {
    var p := Positions(sync, d.trackedIdxs)[k];
    if k < |last.mTime| then TickAt(d.mTime, p) as int - TickAt(last.mTime, p) as int
    else if TickAt(d.mTime, k) == 0 then 0 else TickAt(d.mTime, p)
  }

  /** What it adds at positions a client of `len` states has, over the first `n` states. */
  function Steps(sync: bool, d: Data, last: Data, len: nat, n: nat): int
    requires n <= |d.trackedIdxs|
  {
    if n == 0 then 0
    else
      Steps(sync, d, last, len, n - 1) +
      if Positions(sync, d.trackedIdxs)[n - 1] < len then Step(sync, d, last, n - 1) else 0
  }

  /** The ticks of an update at positions below `len`. */
  function Landed(indexes: seq<nat>, ticks: seq<nat>, len: nat): nat
    requires |indexes| == |ticks|
  {
    if indexes == [] then 0
    else
      Landed(indexes[..|indexes| - 1], ticks[..|ticks| - 1], len) +
      if indexes[|indexes| - 1] < len then ticks[|ticks| - 1] else 0
  }

  lemma {:induction false} AdvancedLanded(time: seq<nat>, indexes: seq<nat>, ticks: seq<nat>)
    requires |indexes| == |ticks| && |time| < 0x1_0000
    ensures Sum(Advanced(time, indexes, ticks)) == Sum(time) + Landed(indexes, ticks, |time|)
  {
    if indexes == [] {
      assert Advanced(time, indexes, ticks) == time;
    } else {
      var ids, ts := indexes[..|indexes| - 1], ticks[..|ticks| - 1];
      var i, t := indexes[|indexes| - 1], ticks[|ticks| - 1];
      AdvancedLanded(time, ids, ts);
      var a := Advanced(time, ids, ts);
      assert U16(|time|) == |time|;
      hide U16, Sum;
      if i < |time| {
        assert Advanced(time, indexes, ticks) == a[i := a[i] + t];
        hide Advanced;
        SumUpdate(a, i, a[i] + t);
      } else {
        assert Advanced(time, indexes, ticks) == a;
      }
    }
  }

  lemma LandedAdd(c: Changes, index: nat, tick: nat, len: nat)
    requires |c.indexes| == |c.ticks|
    ensures var r := Add(c, index, tick);
            Landed(r.indexes, r.ticks, len) == Landed(c.indexes, c.ticks, len) + if index < len then tick else 0
  {
    var r := Add(c, index, tick);
    assert r.indexes[..|r.indexes| - 1] == c.indexes && r.ticks[..|r.ticks| - 1] == c.ticks;
  }

  lemma DiffMod(now: int, prev: int)
    ensures U8(Diff32(now, prev)) == U8(now - prev)
  {
    var b := (now - prev) / 0x1_0000_0000;
    SameMod(Diff32(now, prev), now - prev, -0x100_0000 * b);
  }

  /** Each tracked state adds what is meant, modulo 256. */
  lemma ChangeIsStep(sync: bool, d: Data, last: Data, k: nat, c: Changes)
    requires Shaped(sync, d) && |d.mTime| < 0x1_0000 && k < |d.trackedIdxs|
    ensures var p, r := Positions(sync, d.trackedIdxs)[k], AddChange(sync, d, last.mTime, k, c);
            || (r == c && Step(sync, d, last, k) == 0)
            || exists t: nat :: r == Add(c, p, t) && U8(t) == U8(Step(sync, d, last, k))
  {
    PositionsInside(sync, d);
    var p, r := Positions(sync, d.trackedIdxs)[k], AddChange(sync, d, last.mTime, k, c);
    assert U16(p) == p;
    hide Positions, Shaped, U8, Diff32;
    var prev := if k < |last.mTime| then TickAt(last.mTime, p) else 0;
    DiffMod(TickAt(d.mTime, p), prev);
    var t := Diff32(TickAt(d.mTime, p), prev);
    assert r == c || r == Add(c, p, t);
  }

  lemma AddMod(a: int, b: int, x: int, y: int)
    requires U8(a) == U8(b) && U8(x) == U8(y)
    ensures U8(a + x) == U8(b + y)
  {
    var i, j := a / 0x100 - b / 0x100, x / 0x100 - y / 0x100;
    assert a == b + 0x100 * i && x == y + 0x100 * j;
    SameMod(a + x, b + y, i + j);
  }

  lemma {:induction false} ChangesLanded(sync: bool, d: Data, last: Data, len: nat, n: nat)
    requires Shaped(sync, d) && |d.mTime| < 0x1_0000 && n <= |d.trackedIdxs|
    ensures var c := ChangesOf(sync, d, last.mTime, n);
            U8(Landed(c.indexes, c.ticks, len)) == U8(Steps(sync, d, last, len, n))
  {
    hide AddChange, Step, U8, Positions, Shaped;
    if n > 0 {
      var p, c := Positions(sync, d.trackedIdxs)[n - 1], ChangesOf(sync, d, last.mTime, n - 1);
      ChangesLanded(sync, d, last, len, n - 1);
      ChangeIsStep(sync, d, last, n - 1, c);
      var r := AddChange(sync, d, last.mTime, n - 1, c);
      assert ChangesOf(sync, d, last.mTime, n) == r;
      var step := Step(sync, d, last, n - 1);
      hide ChangesOf, Landed;
      if !(r == c && step == 0) {
        var t: nat :| r == Add(c, p, t) && U8(t) == U8(step);
        LandedAdd(c, p, t, len);
        var was := Landed(c.indexes, c.ticks, len);
        AddMod(was, Steps(sync, d, last, len, n - 1), t, step);
      }
    }
  }

  /** Whatever was collected and whatever the client holds: the update is accepted if and only
      if the client's total and what the update means to add agree with the checksum. */
  lemma AcceptsIff(sync: bool, d: Data, last: Data, m: Mirror)
    requires Shaped(sync, d) && |d.mTime| < 0x1_0000 && |m.time| < 0x1_0000
    ensures Accepts(Encode(sync, d, last), m) <==>
            U8(Total(m) + Steps(sync, d, last, |m.time|, |d.trackedIdxs|)
               + (d.queueTick as int - last.queueTick as int)
               + (d.machTick as int - last.machTick as int)) == d.checksum
  {
    hide ChangesOf, Steps, Landed, Advanced, Sum, U8, U16, U32, Shaped;
    var u := Encode(sync, d, last);
    ChangesLanded(sync, d, last, |m.time|, |d.trackedIdxs|);
    AdvancedLanded(m.time, u.indexes, u.ticks);
    TotalMod(Sum(m.time), Landed(u.indexes, u.ticks, |m.time|), Steps(sync, d, last, |m.time|, |d.trackedIdxs|),
      m.queueTick, d.queueTick as int - last.queueTick as int, m.machTick, d.machTick as int - last.machTick as int);
  }

  /** Narrowing to 8, 16 or 32 bits does not show modulo 256. */
  lemma TotalMod(sum: nat, landed: nat, steps: int, q: nat, dq: int, k: nat, dk: int)
    requires U8(landed) == U8(steps)
    ensures U8(sum + landed + (q + U16(dq)) + U32(k + U8(dk))) == U8(sum + q + k + steps + dq + dk)
  {
    var a := landed / 0x100 - steps / 0x100;
    var b, c, e := dq / 0x1_0000, dk / 0x100, (k + U8(dk)) / 0x1_0000_0000;
    assert landed == steps + 0x100 * a && U16(dq) == dq - 0x1_0000 * b && U8(dk) == dk - 0x100 * c;
    assert U32(k + U8(dk)) == k + U8(dk) - 0x1_0000_0000 * e;
    SameMod(sum + landed + (q + U16(dq)) + U32(k + U8(dk)), sum + q + k + steps + dq + dk,
      a - 0x100 * b - c - 0x100_0000 * e);
  }

  // ----- what is meant, by shape

  /** Ticks of tracked states at positions the client does not have. */
  function Beyond(sync: bool, d: Data, len: nat, n: nat): nat
    requires n <= |d.trackedIdxs|
  {
    if n == 0 then 0
    else
      var p := Positions(sync, d.trackedIdxs)[n - 1];
      Beyond(sync, d, len, n - 1) + if p < len then 0 else TickAt(d.mTime, p)
  }

  /** Ticks that are left out of a push that compares with nothing. */
  function Missed(sync: bool, d: Data, n: nat): nat
    requires n <= |d.trackedIdxs|
  {
    if n == 0 then 0
    else
      Missed(sync, d, n - 1) +
      if TickAt(d.mTime, n - 1) == 0 then TickAt(d.mTime, Positions(sync, d.trackedIdxs)[n - 1]) else 0
  }

  /** In one index space, what is meant is the difference of the tracked sums, less what the
      client has no place for. */
  lemma {:induction false} StepsBetween(sync: bool, d: Data, last: Data, n: nat)
    requires Shaped(sync, d) && n <= |d.trackedIdxs| && (sync ==> |last.mTime| == |d.mTime|)
    ensures var pos := Positions(sync, d.trackedIdxs)[..n];
            Steps(sync, d, last, |last.mTime|, n) ==
            SumAt(d.mTime, pos) as int - SumAt(last.mTime, pos) as int - Beyond(sync, d, |last.mTime|, n)
  {
    if n > 0 {
      var pos := Positions(sync, d.trackedIdxs);
      StepsBetween(sync, d, last, n - 1);
      PositionsInside(sync, d);
      SumAtPrefix(d.mTime, pos, n);
      SumAtPrefix(last.mTime, pos, n);
      hide SumAt, NoDup;
    }
  }

  lemma {:induction false} StepsFromNothing(sync: bool, d: Data, last: Data, len: nat, n: nat)
    requires Shaped(sync, d) && n <= |d.trackedIdxs| && last.mTime == [] && len == |d.mTime|
    ensures Steps(sync, d, last, len, n) ==
            SumAt(d.mTime, Positions(sync, d.trackedIdxs)[..n]) as int - Missed(sync, d, n)
    ensures !sync ==> Missed(sync, d, n) == 0
  {
    if n > 0 {
      var pos := Positions(sync, d.trackedIdxs);
      StepsFromNothing(sync, d, last, len, n - 1);
      PositionsInside(sync, d);
      SumAtPrefix(d.mTime, pos, n);
      hide SumAt, NoDup;
    }
  }
}
