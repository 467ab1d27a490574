/** Computing updates, and what a client makes of them. */
module Updates {
  import opened Slices
  import opened Transitions
  import opened ClockSync
  import opened ClockSyncFacts
  import opened Replication

  /** A client whose tracked states are as active as in the last push has them as active as
      in the data after the update, with the next ticks of that activity; nothing else of its
      time changes. */
  ghost predicate FollowsActivity(sync: bool, d: Data, last: Data, u: Update)
    requires |u.indexes| == |u.ticks|
  {
    var pos := Positions(sync, d.trackedIdxs);
    forall m: Mirror, p: nat ::
      && |m.time| == |d.mTime| && p < |m.time|
      && (p in pos ==> (IsActiveTick(m.time[p]) <==> IsActiveTick(TickAt(last.mTime, p)))) ==>
        var tick := Applied(u, m).time[p];
        if p in pos then
          && (IsActiveTick(tick) <==> IsActiveTick(d.mTime[p]))
          && tick == m.time[p] + if IsActiveTick(m.time[p]) == IsActiveTick(d.mTime[p]) then 0 else 1
        else tick == m.time[p]
  }

  /** The times of both are about the same states, by 16-bit numbers. */
  ghost predicate SameStates(d: Data, last: Data) {
    |d.mTime| < 0x1_0000 && (last.mTime == [] || |last.mTime| == |d.mTime|)
  }

  lemma ShallowFollows(sync: bool, d: Data, last: Data)
    requires Shaped(sync, d) && SameStates(d, last)
    ensures FollowsActivity(sync, d, last, EncodeShallow(sync, d, last))
  {
    hide EncodeShallow, Applied, Shaped, Positions, IsActiveTick;
    var pos := Positions(sync, d.trackedIdxs);
    forall m: Mirror, p: nat |
      && |m.time| == |d.mTime| && p < |m.time|
      && (p in pos ==> (IsActiveTick(m.time[p]) <==> IsActiveTick(TickAt(last.mTime, p))))
      ensures var tick := Applied(EncodeShallow(sync, d, last), m).time[p];
              if p in pos then
                && (IsActiveTick(tick) <==> IsActiveTick(d.mTime[p]))
                && tick == m.time[p] + if IsActiveTick(m.time[p]) == IsActiveTick(d.mTime[p]) then 0 else 1
              else tick == m.time[p]
    {
      ShallowParity(sync, d, last, m, p);
    }
  }

  /** A client in sync with the last push accepts the update, and is in sync with the data
      then if and only if every difference fits its width. */
  ghost predicate LeadsTo(sync: bool, d: Data, last: Data, u: Update)
    requires |u.indexes| == |u.ticks|
  {
    |last.mTime| == |d.mTime| &&
    var after := Deliver(u, MirrorOf(sync, d.trackedIdxs, last));
    after.Some? && (after.value == MirrorOf(sync, d.trackedIdxs, d) <==> Fits(sync, d, last))
  }

  /** The deep update is the changed ticks, the shallow one the changed activity of tracked
      states; both with the differences of queue and machine tick, and the checksum. */
  method CalcUpdate(sync: bool, d: Data, last: Data, shallow: bool) returns (u: Update)
    requires if shallow then Shaped(sync, d) else InRange(sync, d, last)
    ensures u == if shallow then EncodeShallow(sync, d, last) else Encode(sync, d, last)
    ensures |u.indexes| == |u.ticks|
    ensures u.queueTick == (d.queueTick as int - last.queueTick as int) % 0x1_0000
    ensures u.machTick == (d.machTick as int - last.machTick as int) % 0x100 && u.checksum == d.checksum
    ensures shallow && SameStates(d, last) ==> FollowsActivity(sync, d, last, u)
    ensures !shallow && Collected(sync, d) && Pair(sync, d, last) ==> LeadsTo(sync, d, last, u)
  {
    hide ChangesOf, ShallowChangesOf, Shaped, Collected, Pair, FollowsActivity, LeadsTo, SameStates;
    var indexes, ticks;
    if shallow {
      indexes, ticks := GenShallowUpdate(sync, d, last);
    } else {
      indexes, ticks := GenDeepUpdate(sync, d, last);
    }
    u := Update(indexes, ticks, U16(d.queueTick as int - last.queueTick as int),
      U8(d.machTick as int - last.machTick as int), d.checksum);
    UpdateMeans(sync, d, last);
  }

  lemma UpdateMeans(sync: bool, d: Data, last: Data)
    ensures Shaped(sync, d) && SameStates(d, last) ==> FollowsActivity(sync, d, last, EncodeShallow(sync, d, last))
    ensures Collected(sync, d) && Pair(sync, d, last) ==> LeadsTo(sync, d, last, Encode(sync, d, last))
  {
    hide Encode, EncodeShallow, Shaped, Collected, FollowsActivity, MirrorOf, Deliver, Fits;
    if Shaped(sync, d) && SameStates(d, last) {
      ShallowFollows(sync, d, last);
    }
    if Collected(sync, d) && Pair(sync, d, last) {
      UpdateExact(sync, d, last);
    }
  }

  /** One update for each mutation, relative to the one before. A client in sync with the
      last push passes every checksum and visits the tracked clock of each mutation in turn,
      if every difference fits its width. */
  method CalcUpdateMutations(sync: bool, data: seq<Data>, last: Data) returns (updates: seq<Update>)
    requires Chain(sync, last, data)
    ensures updates == EncodeAll(sync, last, data) && |updates| == |data|
    ensures forall i :: 0 <= i < |updates| ==> |updates[i].indexes| == |updates[i].ticks|
    ensures forall idxs :: FittingChain(sync, idxs, last, data) ==>
              Visits(updates, MirrorOf(sync, idxs, last)) == Each(sync, idxs, data)
  {
    hide Encode, FittingChain, Visits, Each, MirrorOf, Pair, Collected, LeadsTo;
    updates := [];
    var prev := last;
    for i := 0 to |data|
      invariant Chain(sync, prev, data[i..])
      invariant updates + EncodeAll(sync, prev, data[i..]) == EncodeAll(sync, last, data)
    {
      var u := CalcUpdate(sync, data[i], prev, false);
      assert data[i..][1..] == data[i + 1..];
      updates, prev := updates + [u], data[i];
    }
    assert updates == EncodeAll(sync, last, data);
    BatchLands(sync, last, data);
  }

  lemma BatchLands(sync: bool, last: Data, data: seq<Data>)
    ensures |EncodeAll(sync, last, data)| == |data|
    ensures forall i :: 0 <= i < |EncodeAll(sync, last, data)| ==>
              |EncodeAll(sync, last, data)[i].indexes| == |EncodeAll(sync, last, data)[i].ticks|
    ensures forall idxs :: FittingChain(sync, idxs, last, data) ==>
              Visits(EncodeAll(sync, last, data), MirrorOf(sync, idxs, last)) == Each(sync, idxs, data)
  {
    hide EncodeAll, FittingChain, Visits, Each, MirrorOf;
    EncodedLengths(sync, last, data);
    forall idxs | FittingChain(sync, idxs, last, data)
      ensures Visits(EncodeAll(sync, last, data), MirrorOf(sync, idxs, last)) == Each(sync, idxs, data)
    {
      BatchVisitsAll(sync, idxs, last, data);
    }
  }

  // ----- when there is nothing to send

  lemma ChangeStep(sync: bool, d: Data, last: Data, k: nat, c: Changes)
    requires Pair(sync, d, last) && k < |d.trackedIdxs|
    ensures var p := Positions(sync, d.trackedIdxs)[k];
            && p < |d.mTime|
            && (AddChange(sync, d, last.mTime, k, c).indexes == [] <==>
                  c.indexes == [] && d.mTime[p] == last.mTime[p])
  {
    PositionsInside(sync, d);
    hide Positions, Diff32;
    var p := Positions(sync, d.trackedIdxs)[k];
    assert U16(p) == p;
  }

  lemma {:induction false} NoChange(sync: bool, d: Data, last: Data, n: nat)
    requires Pair(sync, d, last) && n <= |d.trackedIdxs|
    ensures forall p :: p in Positions(sync, d.trackedIdxs)[..n] ==> p < |d.mTime|
    ensures ChangesOf(sync, d, last.mTime, n).indexes == [] <==>
            forall p :: p in Positions(sync, d.trackedIdxs)[..n] ==> d.mTime[p] == last.mTime[p]
  {
    hide Shaped, Positions, AddChange;
    if n > 0 {
      var pos := Positions(sync, d.trackedIdxs);
      NoChange(sync, d, last, n - 1);
      ChangeStep(sync, d, last, n - 1, ChangesOf(sync, d, last.mTime, n - 1));
      assert pos[..n] == pos[..n - 1] + [pos[n - 1]];
    }
  }

  /** A deep update lists no change if and only if no tracked tick differs. */
  lemma EmptyUpdate(sync: bool, d: Data, last: Data)
    requires Pair(sync, d, last)
    ensures Encode(sync, d, last).indexes == [] <==>
            forall p :: p in Positions(sync, d.trackedIdxs) ==> TickAt(d.mTime, p) == TickAt(last.mTime, p)
  {
    hide ChangesOf, Shaped;
    NoChange(sync, d, last, |d.trackedIdxs|);
    var pos := Positions(sync, d.trackedIdxs);
    assert pos[..|d.trackedIdxs|] == pos;
  }

  lemma FlipStep(sync: bool, d: Data, last: Data, k: nat, c: Changes)
    requires Shaped(sync, d) && |last.mTime| == |d.mTime| < 0x1_0000 && k < |d.trackedIdxs|
    ensures var p := Positions(sync, d.trackedIdxs)[k];
            AddShallow(sync, d, last.mTime, k, c).indexes == [] <==> c.indexes == [] && Flip(d, last, p) == 0
  {
    PositionsInside(sync, d);
    hide Positions;
    var p := Positions(sync, d.trackedIdxs)[k];
    assert U16(p) == p;
  }

  lemma {:induction false} NoFlip(sync: bool, d: Data, last: Data, n: nat)
    requires Shaped(sync, d) && |last.mTime| == |d.mTime| < 0x1_0000 && n <= |d.trackedIdxs|
    ensures ShallowChangesOf(sync, d, last.mTime, n).indexes == [] <==>
            forall p :: p in Positions(sync, d.trackedIdxs)[..n] ==> Flip(d, last, p) == 0
  {
    hide Shaped, Positions, AddShallow, Flip;
    if n > 0 {
      var pos := Positions(sync, d.trackedIdxs);
      NoFlip(sync, d, last, n - 1);
      FlipStep(sync, d, last, n - 1, ShallowChangesOf(sync, d, last.mTime, n - 1));
      assert pos[..n] == pos[..n - 1] + [pos[n - 1]];
    }
  }

  /** A shallow update lists no change if and only if no tracked state's activity differs. */
  lemma EmptyShallowUpdate(sync: bool, d: Data, last: Data)
    requires Shaped(sync, d) && |last.mTime| == |d.mTime| < 0x1_0000
    ensures EncodeShallow(sync, d, last).indexes == [] <==>
            forall p :: p in Positions(sync, d.trackedIdxs) ==>
              (IsActiveTick(TickAt(last.mTime, p)) <==> IsActiveTick(TickAt(d.mTime, p)))
  {
    hide ShallowChangesOf, Shaped, IsActiveTick, TickAt;
    NoFlip(sync, d, last, |d.trackedIdxs|);
    var pos := Positions(sync, d.trackedIdxs);
    assert pos[..|d.trackedIdxs|] == pos;
  }
}
