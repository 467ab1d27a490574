/** A client in sync stays in sync: updates one by one, and whole batches of mutations. */
module Replication {
  import opened Slices
  import opened Transitions
  import opened ClockSync
  import opened ClockSyncFacts
  import opened Acceptance

  /** What a client in sync holds: the tracked ticks, 0 for the others. */
  function MirrorOf(sync: bool, idxs: seq<nat>, d: Data): Mirror {
    Mirror(Masked(d.mTime, Positions(sync, idxs)), d.queueTick, d.machTick)
  }

  /** Every tracked tick grew by less than 2^32, the queue tick by less than 2^16 and the
      machine tick by less than 2^8 (around its own 32 bits). */
  ghost predicate TicksFit(sync: bool, d: Data, last: Data)
    requires |last.mTime| == |d.mTime|
  {
    forall p :: 0 <= p < |d.mTime| && p in Positions(sync, d.trackedIdxs) ==>
      last.mTime[p] <= d.mTime[p] < last.mTime[p] + 0x1_0000_0000
  }

  ghost predicate Fits(sync: bool, d: Data, last: Data)
    requires |last.mTime| == |d.mTime|
  {
    && TicksFit(sync, d, last)
    && last.queueTick <= d.queueTick < last.queueTick + 0x1_0000
    && U32(d.machTick as int - last.machTick as int) < 0x100
  }

  /** Same shape as the last push, and machine ticks are 32-bit numbers. */
  ghost predicate Pair(sync: bool, d: Data, last: Data) {
    && Shaped(sync, d) && |d.mTime| < 0x1_0000 && |last.mTime| == |d.mTime|
    && d.machTick < 0x1_0000_0000 && last.machTick < 0x1_0000_0000
  }

  lemma MirrorTotal(sync: bool, d: Data, base: Data)
    requires Shaped(sync, d) && |base.mTime| == |d.mTime|
    ensures Total(MirrorOf(sync, d.trackedIdxs, base)) == PushedTotal(sync, d.trackedIdxs, base)
  {
    PositionsInside(sync, d);
    hide Positions, Sum, SumAt, Shaped;
    MaskedSum(base.mTime, Positions(sync, d.trackedIdxs));
  }

  /** A client in sync with the last push never rejects the next update. */
  lemma InSyncAccepts(sync: bool, d: Data, last: Data)
    requires Collected(sync, d) && Pair(sync, d, last)
    ensures Accepts(Encode(sync, d, last), MirrorOf(sync, d.trackedIdxs, last))
  {
    hide Accepts, Encode, Total, PushedTotal, Shaped, U8;
    MirrorTotal(sync, d, last);
    DriftDetection(sync, d, last, MirrorOf(sync, d.trackedIdxs, last));
  }

  /** Each tick of the client after an update. */
  lemma AppliedTick(sync: bool, d: Data, last: Data, p: nat)
    requires Pair(sync, d, last) && p < |d.mTime|
    ensures Applied(Encode(sync, d, last), MirrorOf(sync, d.trackedIdxs, last)).time[p] ==
            if p in Positions(sync, d.trackedIdxs) then last.mTime[p] + Diff32(d.mTime[p], last.mTime[p]) else 0
  {
    hide ChangesOf, Delta, Diff32, Shaped;
    var pos, m := Positions(sync, d.trackedIdxs), MirrorOf(sync, d.trackedIdxs, last);
    ChangesDelta(sync, d, last, |d.trackedIdxs|, p);
    assert pos[..|d.trackedIdxs|] == pos;
    assert U16(|d.mTime|) == |d.mTime|;
    assert m.time[p] == if p in pos then last.mTime[p] else 0;
    hide Positions, MirrorOf, Masked, U8, U16, U32, Pair;
  }

  lemma TicksExact(sync: bool, d: Data, last: Data)
    requires Pair(sync, d, last)
    ensures var after := Applied(Encode(sync, d, last), MirrorOf(sync, d.trackedIdxs, last));
            after.time == Masked(d.mTime, Positions(sync, d.trackedIdxs)) <==> TicksFit(sync, d, last)
  {
    hide Encode, Positions, Advanced, Shaped, Applied;
    var pos := Positions(sync, d.trackedIdxs);
    var time := Applied(Encode(sync, d, last), MirrorOf(sync, d.trackedIdxs, last)).time;
    AppliedLength(sync, d, last);
    forall p | 0 <= p < |d.mTime|
      ensures time[p] == Masked(d.mTime, pos)[p] <==>
              p in pos ==> last.mTime[p] <= d.mTime[p] < last.mTime[p] + 0x1_0000_0000
    {
      AppliedTick(sync, d, last, p);
    }
  }

  lemma AppliedLength(sync: bool, d: Data, last: Data)
    requires Pair(sync, d, last)
    ensures |Applied(Encode(sync, d, last), MirrorOf(sync, d.trackedIdxs, last)).time| == |d.mTime|
  {
  }

  lemma QueueExact(now: nat, last: nat)
    ensures last + U16(now as int - last as int) == now <==> last <= now < last + 0x1_0000
  {
  }

  /** An 8-bit difference restores a 32-bit counter that advanced by less than 2^8. */
  lemma MachExact(now: nat, last: nat)
    requires now < 0x1_0000_0000 && last < 0x1_0000_0000
    ensures U32(last + U8(now as int - last as int)) == now <==> U32(now as int - last as int) < 0x100
  {
    var d := U8(now as int - last as int);
    assert U32(last + d) == if last + d < 0x1_0000_0000 then last + d else last + d - 0x1_0000_0000;
  }

  /** From a client in sync, the update leads to the new tracked clock if and only if every
      difference fits its width; otherwise the drift passes the checksum unnoticed. */
  lemma UpdateExact(sync: bool, d: Data, last: Data)
    requires Collected(sync, d) && Pair(sync, d, last)
    ensures var r := Deliver(Encode(sync, d, last), MirrorOf(sync, d.trackedIdxs, last));
            r.Some? && (r.value == MirrorOf(sync, d.trackedIdxs, d) <==> Fits(sync, d, last))
  {
    hide Advanced, Accepts, Masked, ChangesOf, TicksFit, Positions, Shaped, Collected, U8, U16, U32;
    QueueExact(d.queueTick, last.queueTick);
    MachExact(d.machTick, last.machTick);
    InSyncAccepts(sync, d, last);
    TicksExact(sync, d, last);
  }

  /** What the server takes the client's tracked sum to be when it pushes `d` after `last`. */
  function Assumed(sync: bool, d: Data, last: Data): int {
    SumAt(d.mTime, Positions(sync, d.trackedIdxs)) - Steps(sync, d, last, |d.mTime|, |d.trackedIdxs|)
  }

  /** A push with no changed tick is not sent but remembered as sent. The client, still in
      sync with the push before, accepts the next update if and only if its total agrees
      modulo 256 with what the server takes it to be. For a skipped push of the same shape
      that means that the queue and machine ticks it carried were 0 modulo 256; one of the
      initial, empty data makes the server start from nothing. */
  lemma SkippedPush(sync: bool, d: Data, skipped: Data, last: Data)
    requires Collected(sync, d) && |d.mTime| == |last.mTime| < 0x1_0000
    requires Encode(sync, skipped, last).indexes == []
    ensures var pos, m := Positions(sync, d.trackedIdxs), MirrorOf(sync, d.trackedIdxs, last);
            var accepted := Accepts(Encode(sync, d, skipped), m);
            && (accepted <==> U8(Total(m)) == U8(Assumed(sync, d, skipped) + skipped.queueTick + skipped.machTick))
            && (Pair(sync, skipped, last) && d.trackedIdxs == skipped.trackedIdxs ==>
                  (accepted <==> U8(skipped.queueTick + skipped.machTick) == U8(last.queueTick + last.machTick)))
            && (skipped.mTime == [] ==> Assumed(sync, d, skipped) == Missed(sync, d, |d.trackedIdxs|))
  {
    var pos, m := Positions(sync, d.trackedIdxs), MirrorOf(sync, d.trackedIdxs, last);
    var n := |d.trackedIdxs|;
    assert pos[..n] == pos;
    hide Accepts, Encode, Positions, SumAt, Shaped, ChangesOf, Total, Inside, Steps, Missed;
    AcceptsIff(sync, d, skipped, m);
    assert |m.time| == |d.mTime|;
    AssumedMod(Total(m), SumAt(d.mTime, pos), Steps(sync, d, skipped, |d.mTime|, n), d.queueTick, d.machTick,
      skipped.queueTick, skipped.machTick);
    if Pair(sync, skipped, last) && d.trackedIdxs == skipped.trackedIdxs {
      SameShapeSkipped(sync, d, skipped, last);
    }
    if skipped.mTime == [] {
      StepsFromNothing(sync, d, skipped, |d.mTime|, n);
    }
  }

  lemma AssumedMod(total: nat, sum: nat, steps: int, q: nat, k: nat, lastQ: nat, lastK: nat)
    ensures U8(total + steps + (q as int - lastQ as int) + (k as int - lastK as int)) == U8(sum + q + k) <==>
            U8(total) == U8(sum - steps + lastQ + lastK)
  {
    ShiftMod(sum + q + k, total, sum - steps + lastQ + lastK);
  }

  lemma SameShapeSkipped(sync: bool, d: Data, skipped: Data, last: Data)
    requires Collected(sync, d) && |d.mTime| == |last.mTime| < 0x1_0000 && Pair(sync, skipped, last)
    requires d.trackedIdxs == skipped.trackedIdxs && Encode(sync, skipped, last).indexes == []
    ensures Accepts(Encode(sync, d, skipped), MirrorOf(sync, d.trackedIdxs, last)) <==>
            U8(skipped.queueTick + skipped.machTick) == U8(last.queueTick + last.machTick)
  {
    hide Accepts, Encode, Positions, SumAt, Shaped, ChangesOf, Total, Inside;
    var pos, m := Positions(sync, d.trackedIdxs), MirrorOf(sync, d.trackedIdxs, last);
    EncodedSum(sync, skipped, last);
    assert Sum(Encode(sync, skipped, last).ticks) == 0;
    MirrorTotal(sync, d, last);
    DriftDetection(sync, d, skipped, m);
    assert U8(0) == 0;
    hide U8, Sum;
    SumMod(SumAt(skipped.mTime, pos), SumAt(last.mTime, pos), skipped.queueTick + skipped.machTick,
      last.queueTick + last.machTick);
  }

  lemma SumMod(a: nat, b: nat, x: nat, y: nat)
    requires U8(a as int - b as int) == 0
    ensures U8(b + y) == U8(a + x) <==> U8(x) == U8(y)
  {
    var k := (a as int - b as int) / 0x100;
    assert a as int == b + 0x100 * k;
    SameMod(a + x, b + x, k);
    ShiftMod(b + y, x, y);
  }

  // ----- batches

  /** The client's clock after each update, up to the first rejected one. */
  function Visits(updates: seq<Update>, m: Mirror): (r: seq<Mirror>)
    requires forall i :: 0 <= i < |updates| ==> |updates[i].indexes| == |updates[i].ticks|
    decreases updates
  {
    if updates == [] then []
    else
      match Deliver(updates[0], m)
      case None => []
      case Some(next) => [next] + Visits(updates[1..], next)
  }

  /** The tracked clock of each mutation in turn. */
  function Each(sync: bool, idxs: seq<nat>, data: seq<Data>): (r: seq<Mirror>)
    ensures |r| == |data| && forall i :: 0 <= i < |data| ==> r[i] == MirrorOf(sync, idxs, data[i])
  {
    seq(|data|, i requires 0 <= i < |data| => MirrorOf(sync, idxs, data[i]))
  }

  ghost predicate FittingChain(sync: bool, idxs: seq<nat>, last: Data, data: seq<Data>)
    decreases data
  {
    data == [] || (
      && Collected(sync, data[0]) && Pair(sync, data[0], last)
      && data[0].trackedIdxs == idxs && Fits(sync, data[0], last)
      && FittingChain(sync, idxs, data[0], data[1..]))
  }

  lemma {:induction false} EncodedLengths(sync: bool, last: Data, data: seq<Data>)
    ensures forall i :: 0 <= i < |EncodeAll(sync, last, data)| ==>
              |EncodeAll(sync, last, data)[i].indexes| == |EncodeAll(sync, last, data)[i].ticks|
    ensures |EncodeAll(sync, last, data)| == |data|
    decreases data
  {
    hide Encode;
    if data != [] {
      EncodedLengths(sync, data[0], data[1..]);
    }
  }

  /** A batch passes every checksum and visits exactly the tracked clock of each mutation
      in turn, whether indexes are of the schema or of the tracked states. */
  lemma {:induction false} BatchVisitsAll(sync: bool, idxs: seq<nat>, last: Data, data: seq<Data>)
    requires FittingChain(sync, idxs, last, data)
    ensures forall i :: 0 <= i < |EncodeAll(sync, last, data)| ==>
              |EncodeAll(sync, last, data)[i].indexes| == |EncodeAll(sync, last, data)[i].ticks|
    ensures Visits(EncodeAll(sync, last, data), MirrorOf(sync, idxs, last)) == Each(sync, idxs, data)
    decreases data
  {
    EncodedLengths(sync, last, data);
    hide Encode, Deliver, MirrorOf, Collected, Pair, Fits;
    if data != [] {
      var rest := data[1..];
      UpdateExact(sync, data[0], last);
      EncodedLengths(sync, data[0], rest);
      BatchVisitsAll(sync, idxs, data[0], rest);
      assert EncodeAll(sync, last, data)[1..] == EncodeAll(sync, data[0], rest);
    }
  }

  /** Where each mutation of a batch fits the one before, the batch visits exactly the clocks
      of its mutations if and only if the first one fits the last push. */
  lemma BatchExact(sync: bool, idxs: seq<nat>, last: Data, data: seq<Data>)
    requires data != [] && data[0].trackedIdxs == idxs && Collected(sync, data[0]) && Pair(sync, data[0], last)
    requires FittingChain(sync, idxs, data[0], data[1..])
    ensures forall i :: 0 <= i < |EncodeAll(sync, last, data)| ==>
              |EncodeAll(sync, last, data)[i].indexes| == |EncodeAll(sync, last, data)[i].ticks|
    ensures var visits := Visits(EncodeAll(sync, last, data), MirrorOf(sync, idxs, last));
            visits == Each(sync, idxs, data) <==> Fits(sync, data[0], last)
  {
    EncodedLengths(sync, last, data);
    hide Encode, Deliver, MirrorOf, Collected, Fits, Shaped;
    UpdateExact(sync, data[0], last);
    if Fits(sync, data[0], last) {
      BatchVisitsAll(sync, idxs, last, data);
    } else {
      var updates := EncodeAll(sync, last, data);
      var visits := Visits(updates, MirrorOf(sync, idxs, last));
      assert visits != [] && Some(visits[0]) == Deliver(updates[0], MirrorOf(sync, idxs, last));
    }
  }

  /** A queue whose first mutation is not newer than the last push fits it if and only if
      nothing tracked has happened in between. */
  lemma ResentFits(sync: bool, first: Data, last: Data)
    requires Pair(sync, first, last) && first.machTick == last.machTick && first.queueTick <= last.queueTick
    requires forall p :: 0 <= p < |first.mTime| && p in Positions(sync, first.trackedIdxs) ==>
               first.mTime[p] <= last.mTime[p]
    ensures Fits(sync, first, last) <==>
            MirrorOf(sync, first.trackedIdxs, first) == MirrorOf(sync, first.trackedIdxs, last)
  {
    hide Positions, Shaped;
    var pos := Positions(sync, first.trackedIdxs);
    var a, b := Masked(first.mTime, pos), Masked(last.mTime, pos);
    if a == b {
      forall p | 0 <= p < |first.mTime| && p in pos ensures first.mTime[p] == last.mTime[p] {
        assert a[p] == b[p];
      }
    }
    if forall p :: 0 <= p < |first.mTime| && p in pos ==> first.mTime[p] == last.mTime[p] {
      assert a == b;
    }
  }

  // ----- shallow clocks

  /** 1 when the activity at a position changed. */
  function Flip(d: Data, last: Data, p: nat): nat {
    if IsActiveTick(TickAt(last.mTime, p)) == IsActiveTick(TickAt(d.mTime, p)) then 0 else 1
  }

  lemma ShallowIsFlip(sync: bool, d: Data, last: Data, k: nat, c: Changes)
    requires Shaped(sync, d) && |d.mTime| < 0x1_0000 && k < |d.trackedIdxs|
    requires last.mTime == [] || |last.mTime| == |d.mTime|
    ensures var p := Positions(sync, d.trackedIdxs)[k];
            || (Flip(d, last, p) == 0 && AddShallow(sync, d, last.mTime, k, c) == c)
            || AddShallow(sync, d, last.mTime, k, c) == Add(c, p, Flip(d, last, p))
  {
    PositionsInside(sync, d);
  }

  lemma {:induction false} ShallowDelta(sync: bool, d: Data, last: Data, n: nat, p: nat)
    requires Shaped(sync, d) && |d.mTime| < 0x1_0000 && n <= |d.trackedIdxs|
    requires last.mTime == [] || |last.mTime| == |d.mTime|
    ensures var c := ShallowChangesOf(sync, d, last.mTime, n);
            Delta(c.indexes, c.ticks, p) == if p in Positions(sync, d.trackedIdxs)[..n] then Flip(d, last, p) else 0
  {
    hide AddShallow, Flip;
    if n > 0 {
      var pos := Positions(sync, d.trackedIdxs);
      var q, c := pos[n - 1], ShallowChangesOf(sync, d, last.mTime, n - 1);
      ShallowDelta(sync, d, last, n - 1, p);
      ShallowIsFlip(sync, d, last, n - 1, c);
      PositionsInside(sync, d);
      PrefixGrows(pos, n - 1, p);
      assert ShallowChangesOf(sync, d, last.mTime, n) == AddShallow(sync, d, last.mTime, n - 1, c);
      hide ShallowChangesOf, Shaped, Positions, Delta, NoDup;
      DeltaAdd(c, q, Flip(d, last, q), p);
    }
  }

  /** What a shallow update makes of any client clock of the same length. */
  lemma ShallowApplied(sync: bool, d: Data, last: Data, m: Mirror, p: nat)
    requires Shaped(sync, d) && |m.time| == |d.mTime| < 0x1_0000 && p < |m.time|
    requires last.mTime == [] || |last.mTime| == |d.mTime|
    ensures Applied(EncodeShallow(sync, d, last), m).time[p] ==
            m.time[p] + if p in Positions(sync, d.trackedIdxs) then Flip(d, last, p) else 0
  {
    hide ShallowChangesOf, Delta, Shaped, Flip;
    var pos := Positions(sync, d.trackedIdxs);
    ShallowDelta(sync, d, last, |d.trackedIdxs|, p);
    assert pos[..|d.trackedIdxs|] == pos;
    assert U16(|m.time|) == |m.time|;
    hide Positions, U16;
  }

  /** With shallow clocks a client whose tracked states are as active as in the last push has
      them as active as in the new one: a tick grows by 1 where that changed, and nowhere
      else, however many activations were skipped in between. */
  lemma ShallowParity(sync: bool, d: Data, last: Data, m: Mirror, p: nat)
    requires Shaped(sync, d) && |m.time| == |d.mTime| < 0x1_0000 && p < |m.time|
    requires last.mTime == [] || |last.mTime| == |d.mTime|
    requires p in Positions(sync, d.trackedIdxs) ==> (IsActiveTick(m.time[p]) <==> IsActiveTick(TickAt(last.mTime, p)))
    ensures var tick := Applied(EncodeShallow(sync, d, last), m).time[p];
            if p in Positions(sync, d.trackedIdxs) then
              && (IsActiveTick(tick) <==> IsActiveTick(d.mTime[p]))
              && tick == m.time[p] + if IsActiveTick(m.time[p]) == IsActiveTick(d.mTime[p]) then 0 else 1
            else tick == m.time[p]
  {
    ShallowApplied(sync, d, last, m, p);
    hide EncodeShallow, Applied, Shaped, Positions;
    if IsActiveTick(m.time[p]) <==> IsActiveTick(TickAt(last.mTime, p)) {
      FlipParity(d, last, m.time[p], p);
    }
  }

  lemma FlipParity(d: Data, last: Data, tick: nat, p: nat)
    requires IsActiveTick(tick) <==> IsActiveTick(TickAt(last.mTime, p))
    ensures IsActiveTick(tick + Flip(d, last, p)) <==> IsActiveTick(TickAt(d.mTime, p))
  {
  }
}
