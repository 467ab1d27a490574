/** Exactness, drift detection and the width limits of clock replication. */
module ClockSyncFacts {
  import opened Slices
  import opened Transitions
  import opened ClockSync

  // ----- sums

  lemma {:induction false} SumUpdate(s: seq<nat>, i: nat, v: nat)
    requires i < |s|
    ensures Sum(s[i := v]) == Sum(s) - s[i] + v
  {
    var init := s[..|s| - 1];
    if i == |s| - 1 {
      assert s[i := v][..|s| - 1] == init;
    } else {
      SumUpdate(init, i, v);
      assert s[i := v][..|s| - 1] == init[i := v];
    }
  }

  ghost predicate Inside(indexes: seq<nat>, len: nat) {
    forall k :: 0 <= k < |indexes| ==> indexes[k] < len
  }

  lemma {:induction false} AdvancedSum(time: seq<nat>, indexes: seq<nat>, ticks: seq<nat>)
    requires |indexes| == |ticks| && |time| < 0x1_0000
    requires Inside(indexes, |time|)
    ensures Sum(Advanced(time, indexes, ticks)) == Sum(time) + Sum(ticks)
  {
    if indexes == [] {
      assert Advanced(time, indexes, ticks) == time;
    } else {
      var ids, ts := indexes[..|indexes| - 1], ticks[..|ticks| - 1];
      var i, t := indexes[|indexes| - 1], ticks[|ticks| - 1];
      AdvancedSum(time, ids, ts);
      var a := Advanced(time, ids, ts);
      assert Advanced(time, indexes, ticks) == a[i := a[i] + t];
      SumUpdate(a, i, a[i] + t);
    }
  }

  /** A time with everything outside the given positions at 0. */
  function Masked(time: seq<nat>, pos: seq<nat>): seq<nat> {
    seq(|time|, i requires 0 <= i < |time| => if i in pos then time[i] else 0)
  }

  lemma {:induction false} ZeroSum(s: seq<nat>)
    requires forall i :: 0 <= i < |s| ==> s[i] == 0
    ensures Sum(s) == 0
  {
    if s != [] {
      ZeroSum(s[..|s| - 1]);
    }
  }

  lemma {:induction false} MaskedSum(time: seq<nat>, pos: seq<nat>)
    requires NoDup(pos) && forall k :: 0 <= k < |pos| ==> pos[k] < |time|
    ensures Sum(Masked(time, pos)) == SumAt(time, pos)
  {
    if pos == [] {
      ZeroSum(Masked(time, pos));
    } else {
      var init, p := pos[..|pos| - 1], pos[|pos| - 1];
      MaskedSum(time, init);
      assert p !in init;
      assert Masked(time, pos) == Masked(time, init)[p := time[p]];
      SumUpdate(Masked(time, init), p, time[p]);
    }
  }

  // ----- what an update says

  /** The last push has the same shape, or there was none and only tracked ticks are sent. */
  ghost predicate Comparable(sync: bool, d: Data, last: Data) {
    && Shaped(sync, d) && |d.mTime| < 0x1_0000
    && (|last.mTime| == |d.mTime| || (!sync && last.mTime == []))
  }

  lemma PositionsInside(sync: bool, d: Data)
    requires Shaped(sync, d)
    ensures NoDup(Positions(sync, d.trackedIdxs))
    ensures forall k :: 0 <= k < |d.trackedIdxs| ==> Positions(sync, d.trackedIdxs)[k] < |d.mTime|
  {
  }

  /** The difference sent for a position, modulo 2^32. */
  function Sent(d: Data, last: Data, p: nat): nat {
    Diff32(TickAt(d.mTime, p), TickAt(last.mTime, p))
  }

  /** Each tracked state contributes its difference, or nothing when that is 0. */
  lemma ChangeIsSent(sync: bool, d: Data, last: Data, k: nat, c: Changes)
    requires Comparable(sync, d, last) && k < |d.trackedIdxs|
    ensures var p := Positions(sync, d.trackedIdxs)[k];
            && p < |d.mTime|
            && (|| (Sent(d, last, p) == 0 && AddChange(sync, d, last.mTime, k, c) == c)
                || AddChange(sync, d, last.mTime, k, c) == Add(c, p, Sent(d, last, p)))
  {
    PositionsInside(sync, d);
  }

  lemma {:induction false} ChangesInside(sync: bool, d: Data, last: Data, n: nat)
    requires Comparable(sync, d, last) && n <= |d.trackedIdxs|
    ensures Inside(ChangesOf(sync, d, last.mTime, n).indexes, |d.mTime|)
  {
    hide AddChange, Comparable, Sent;
    if n > 0 {
      var c, after := ChangesOf(sync, d, last.mTime, n - 1), ChangesOf(sync, d, last.mTime, n);
      ChangesInside(sync, d, last, n - 1);
      ChangeIsSent(sync, d, last, n - 1, c);
      var p := Positions(sync, d.trackedIdxs)[n - 1];
      hide ChangesOf, Positions;
      assert after.indexes == c.indexes || after.indexes == c.indexes + [p];
    }
  }

  lemma DeltaAdd(c: Changes, index: nat, tick: nat, p: nat)
    requires |c.indexes| == |c.ticks|
    ensures var r := Add(c, index, tick);
            Delta(r.indexes, r.ticks, p) == Delta(c.indexes, c.ticks, p) + if index == p then tick else 0
  {
  }

  lemma SumAdd(s: seq<nat>, x: nat)
    ensures Sum(s + [x]) == Sum(s) + x
  {
  }

  lemma PrefixGrows(s: seq<nat>, n: nat, x: nat)
    requires NoDup(s) && n < |s|
    ensures x in s[..n + 1] <==> x in s[..n] || x == s[n]
    ensures s[n] !in s[..n]
  {
  }

  /** An update adds to each tracked tick its difference modulo 2^32, and nothing elsewhere. */
  lemma {:induction false} ChangesDelta(sync: bool, d: Data, last: Data, n: nat, p: nat)
    requires Comparable(sync, d, last) && n <= |d.trackedIdxs|
    ensures var c := ChangesOf(sync, d, last.mTime, n);
            Delta(c.indexes, c.ticks, p) ==
            if p in Positions(sync, d.trackedIdxs)[..n] then Sent(d, last, p) else 0
  {
    hide AddChange, Sent, Positions, Shaped;
    if n > 0 {
      var pos := Positions(sync, d.trackedIdxs);
      var q, c := pos[n - 1], ChangesOf(sync, d, last.mTime, n - 1);
      ChangesDelta(sync, d, last, n - 1, p);
      ChangeIsSent(sync, d, last, n - 1, c);
      PositionsInside(sync, d);
      assert ChangesOf(sync, d, last.mTime, n) == AddChange(sync, d, last.mTime, n - 1, c);
      hide ChangesOf, Comparable, Delta, NoDup;
      PrefixGrows(pos, n - 1, p);
      DeltaAdd(c, q, Sent(d, last, q), p);
      if p == q {
        assert p in pos[..n] && p !in pos[..n - 1];
      }
    }
  }

  lemma SumAtPrefix(time: seq<nat>, pos: seq<nat>, n: nat)
    requires 0 < n <= |pos|
    ensures SumAt(time, pos[..n]) == SumAt(time, pos[..n - 1]) + TickAt(time, pos[n - 1])
  {
    assert pos[..n][..n - 1] == pos[..n - 1];
  }

  /** Modulo 256 the ticks of an update sum up to the difference of the tracked sums,
      however large the differences are. */
  lemma {:induction false} ChangesSum(sync: bool, d: Data, last: Data, n: nat)
    requires Comparable(sync, d, last) && n <= |d.trackedIdxs|
    ensures var pos := Positions(sync, d.trackedIdxs)[..n];
            U8(Sum(ChangesOf(sync, d, last.mTime, n).ticks)) ==
            U8(SumAt(d.mTime, pos) as int - SumAt(last.mTime, pos) as int)
  {
    hide AddChange, Comparable, Diff32, U8;
    if n == 0 {
      assert Sum(ChangesOf(sync, d, last.mTime, n).ticks) == 0;
    } else {
      var pos := Positions(sync, d.trackedIdxs);
      var p, c := pos[n - 1], ChangesOf(sync, d, last.mTime, n - 1);
      ChangesSum(sync, d, last, n - 1);
      ChangeIsSent(sync, d, last, n - 1, c);
      assert ChangesOf(sync, d, last.mTime, n) == AddChange(sync, d, last.mTime, n - 1, c);
      hide ChangesOf, Positions, Sum, SumAt, TickAt;
      SumAtPrefix(d.mTime, pos, n);
      SumAtPrefix(last.mTime, pos, n);
      SumAdd(c.ticks, Sent(d, last, p));
      assert Sum(ChangesOf(sync, d, last.mTime, n).ticks) == Sum(c.ticks) + Sent(d, last, p);
      var diff := SumAt(d.mTime, pos[..n - 1]) as int - SumAt(last.mTime, pos[..n - 1]) as int;
      assert SumAt(d.mTime, pos[..n]) as int - SumAt(last.mTime, pos[..n]) as int ==
             diff + TickAt(d.mTime, p) - TickAt(last.mTime, p);
      AddDiff(Sum(c.ticks), diff, TickAt(d.mTime, p), TickAt(last.mTime, p));
    }
  }

  lemma SameMod(x: int, y: int, k: int)
    requires x == y + 0x100 * k
    ensures U8(x) == U8(y)
  {
  }

  lemma AddDiff(sum: nat, diff: int, now: nat, prev: nat)
    requires U8(sum) == U8(diff)
    ensures U8(sum + Diff32(now, prev)) == U8(diff + now - prev)
  {
    var a := sum / 0x100 - diff / 0x100;
    var b := (now as int - prev as int) / 0x1_0000_0000;
    assert sum == diff + 0x100 * a;
    assert Diff32(now, prev) == now as int - prev as int - 0x1_0000_0000 * b;
    SameMod(sum + Diff32(now, prev), diff + now - prev, a - 0x100_0000 * b);
  }

  // ----- drift detection

  function Total(m: Mirror): nat {
    Sum(m.time) + m.queueTick + m.machTick
  }

  /** The total of the tracked ticks, the queue tick and the machine tick pushed last. */
  function PushedTotal(sync: bool, idxs: seq<nat>, last: Data): nat {
    SumAt(last.mTime, Positions(sync, idxs)) + last.queueTick + last.machTick
  }

  lemma EncodedSum(sync: bool, d: Data, last: Data)
    requires Comparable(sync, d, last)
    ensures Inside(Encode(sync, d, last).indexes, |d.mTime|)
    ensures var pos := Positions(sync, d.trackedIdxs);
            U8(Sum(Encode(sync, d, last).ticks)) == U8(SumAt(d.mTime, pos) as int - SumAt(last.mTime, pos) as int)
  {
    ChangesInside(sync, d, last, |d.trackedIdxs|);
    ChangesSum(sync, d, last, |d.trackedIdxs|);
    var pos := Positions(sync, d.trackedIdxs);
    assert pos[..|d.trackedIdxs|] == pos;
    hide Positions, ChangesOf, Sum, SumAt, U8, Comparable;
  }

  /** Whatever the client's clock is, it accepts an update exactly when its total agrees
      modulo 256 with what the server pushed last. No difference has to fit its width. */
  lemma DriftDetection(sync: bool, d: Data, last: Data, m: Mirror)
    requires Collected(sync, d) && Comparable(sync, d, last) && |m.time| == |d.mTime|
    ensures Accepts(Encode(sync, d, last), m) <==> U8(Total(m)) == U8(PushedTotal(sync, d.trackedIdxs, last))
  {
    hide ChangesOf, U8, U16, U32, Advanced, Positions, SumAt, Sum, Inside, Shaped;
    var pos := Positions(sync, d.trackedIdxs);
    var u := Encode(sync, d, last);
    EncodedSum(sync, d, last);
    AdvancedSum(m.time, u.indexes, u.ticks);
    Congruence(Sum(m.time), Sum(u.ticks), SumAt(d.mTime, pos), SumAt(last.mTime, pos),
      m.queueTick, d.queueTick, last.queueTick, m.machTick, d.machTick, last.machTick);
  }

  /** Narrowing a difference to 8, 16 or 32 bits does not change it modulo 256. */
  lemma Congruence(
    sum: nat, ticks: nat, now: nat, last: nat, q: nat, nowQ: nat, lastQ: nat, k: nat, nowK: nat, lastK: nat)
    requires U8(ticks) == U8(now as int - last as int)
    ensures U8(sum + ticks + (q + U16(nowQ as int - lastQ as int)) + U32(k + U8(nowK as int - lastK as int)))
            == U8(now + nowQ + nowK)
            <==> U8(sum + q + k) == U8(last + lastQ + lastK)
  {
    var dq, dk := nowQ as int - lastQ as int, nowK as int - lastK as int;
    var a := ticks / 0x100 - (now as int - last as int) / 0x100;
    var b, c := dq / 0x1_0000, dk / 0x100;
    var e := (k + U8(dk)) / 0x1_0000_0000;
    assert ticks == now as int - last as int + 0x100 * a;
    assert U16(dq) == dq - 0x1_0000 * b && U8(dk) == dk - 0x100 * c;
    assert U32(k + U8(dk)) == k + U8(dk) - 0x1_0000_0000 * e;
    var base, pushed := sum + q + k, last + lastQ + lastK;
    var z := a - 0x100 * b - c - 0x100_0000 * e;
    SameMod(sum + ticks + (q + U16(dq)) + U32(k + U8(dk)), now + nowQ + nowK + (base - pushed), z);
    ShiftMod(now + nowQ + nowK, base, pushed);
  }

  lemma ShiftMod(r: int, x: int, y: int)
    ensures U8(r + (x - y)) == U8(r) <==> U8(x) == U8(y)
  {
    var k := x / 0x100 - y / 0x100;
    if U8(x) == U8(y) {
      assert x - y == 0x100 * k;
      SameMod(r + (x - y), r, k);
    }
    if U8(r + (x - y)) == U8(r) {
      var j := (r + (x - y)) / 0x100 - r / 0x100;
      assert x - y == 0x100 * j;
      SameMod(x, y, j);
    }
  }
}
