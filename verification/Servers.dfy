/** The server side of replication: tracked states, the handshake, and pushes. */
module Servers {
  import opened Slices
  import opened Schemas
  import opened Transitions
  import opened ClockSync
  import opened ClockSyncFacts
  import opened Acceptance
  import opened Replication
  import opened Updates

  /** The states a client asked for, in the order of the schema. */
  function Tracked(names: seq<Name>, allowed: Option<seq<Name>>, skipped: seq<Name>): (r: seq<Name>)
    ensures forall n {:trigger n in r} ::
              n in r <==> n in names && (allowed.None? || n in allowed.value) && n !in skipped
  {
    Diff(if allowed.Some? then Only(names, Elems(allowed.value)) else names, skipped)
  }

  function IndexesOf(names: seq<Name>, some: seq<Name>): seq<nat>
    requires forall n :: n in some ==> n in names
  {
    seq(|some|, i requires 0 <= i < |some| => IndexOf(names, some[i]))
  }

  method FindIndexes(names: seq<Name>, some: seq<Name>) returns (idxs: seq<nat>)
    requires forall n :: n in some ==> n in names
    ensures idxs == IndexesOf(names, some)
  {
    idxs := [];
    for i := 0 to |some|
      invariant idxs == IndexesOf(names, some[..i])
    {
      assert some[i] in names;
      idxs := idxs + [IndexOf(names, some[i])];
      assert some[..i + 1] == some[..i] + [some[i]];
    }
    assert some[..|some|] == some;
  }

  lemma TrackedIndexes(names: seq<Name>, allowed: Option<seq<Name>>, skipped: seq<Name>)
    requires NoDup(names)
    ensures var tracked := Tracked(names, allowed, skipped);
            var idxs := IndexesOf(names, tracked);
            && NoDup(tracked) && NoDup(idxs) && Inside(idxs, |names|)
            && forall i :: 0 <= i < |idxs| ==> names[idxs[i]] == tracked[i]
  {
    var base := if allowed.Some? then Only(names, Elems(allowed.value)) else names;
    if allowed.Some? {
      OnlyNoDup(names, Elems(allowed.value));
    }
    DiffNoDup(base, skipped);
  }

  /** Ticks at the given indexes. */
  function Filter(time: seq<nat>, idxs: seq<nat>): (r: seq<nat>)
    ensures |r| == |idxs|
  {
    seq(|idxs|, i requires 0 <= i < |idxs| => TickAt(time, idxs[i]))
  }

  lemma {:induction false} FilterSum(time: seq<nat>, idxs: seq<nat>)
    ensures Sum(Filter(time, idxs)) == SumAt(time, idxs)
  {
    if idxs != [] {
      FilterSum(time, idxs[..|idxs| - 1]);
      assert Filter(time, idxs)[..|idxs| - 1] == Filter(time, idxs[..|idxs| - 1]);
    }
  }

  /** Summing a time at all its positions is summing it. */
  lemma {:induction false} SumAtAll(time: seq<nat>, n: nat)
    requires n <= |time|
    ensures SumAt(time, seq(n, i => i)) == Sum(time[..n])
  {
    if n > 0 {
      SumAtAll(time, n - 1);
      assert seq(n, i => i)[..n - 1] == seq(n - 1, i => i);
      assert time[..n][..n - 1] == time[..n - 1];
    }
  }

  /** The time a client is given: all states with the untracked at 0, or the tracked ones. */
  function Exported(sync: bool, time: seq<nat>, idxs: seq<nat>): seq<nat> {
    if sync then Masked(time, idxs) else Filter(time, idxs)
  }

  /** What is collected from a source whose states have the given ticks. */
  function Collect(sync: bool, time: seq<nat>, idxs: seq<nat>, queueTick: nat, machTick: nat): Data {
    Data(if sync then time else Filter(time, idxs), Sum(Filter(time, idxs)), queueTick, machTick,
         Checksum(Sum(Filter(time, idxs)), queueTick, machTick), idxs)
  }

  /** The checksum covers exactly the tracked positions of the collected time. */
  lemma CollectIsCollected(sync: bool, time: seq<nat>, idxs: seq<nat>, queueTick: nat, machTick: nat)
    requires NoDup(idxs) && Inside(idxs, |time|)
    ensures Collected(sync, Collect(sync, time, idxs, queueTick, machTick))
  {
    NoDupInside(idxs, |time|);
    FilterSum(time, idxs);
    if !sync {
      var t := Filter(time, idxs);
      SumAtAll(t, |t|);
      assert t[..|t|] == t;
      assert Positions(sync, idxs) == seq(|t|, i => i);
    }
    hide SumAt, Sum, Filter;
  }

  function Below(n: nat): (r: set<int>)
    ensures |r| == n && forall i :: i in r <==> 0 <= i < n
  {
    if n == 0 then {} else Below(n - 1) + {n - 1}
  }

  lemma NoDupInside(s: seq<int>, n: nat)
    requires NoDup(s) && forall i :: 0 <= i < |s| ==> 0 <= s[i] < n
    ensures |s| <= n
  {
    NoDupCard(s);
    assert Elems(s) <= Below(n);
    assert Below(n) == Elems(s) + (Below(n) - Elems(s));
  }

  /** Only whether a state is active. */
  function ShallowTime(time: seq<nat>): seq<nat> {
    seq(|time|, i requires 0 <= i < |time| => if IsActiveTick(time[i]) then 1 else 0)
  }

  /** The collected time holds the tick or activity of every tracked state at its position. */
  lemma CollectedShape(
    sync: bool, shallow: bool, time: seq<nat>, idxs: seq<nat>, queueTick: nat, machTick: nat, d: Data)
    requires NoDup(idxs) && Inside(idxs, |time|)
    requires var ticks := if sync then time else Filter(time, idxs);
             var sum := if shallow then Sum(ShallowTime(ticks)) else Sum(Filter(time, idxs));
             d == Data(if shallow then ShallowTime(ticks) else ticks, sum, queueTick, machTick,
                       Checksum(sum, queueTick, machTick), idxs)
    ensures Shaped(sync, d) && d.timeSum == if shallow then Sum(d.mTime) else SumAt(time, idxs)
    ensures forall k :: 0 <= k < |idxs| ==>
              var p := Positions(sync, idxs)[k];
              && p < |d.mTime|
              && d.mTime[p] == if !shallow then time[idxs[k]] else if IsActiveTick(time[idxs[k]]) then 1 else 0
    ensures !shallow ==> Collected(sync, d) && d == Collect(sync, time, idxs, queueTick, machTick)
  {
    hide Sum, SumAt, Checksum;
    CollectIsCollected(sync, time, idxs, queueTick, machTick);
    NoDupInside(idxs, |time|);
    FilterSum(time, idxs);
  }

  /** What a server holds before anything was collected; queue ticks start at 1. */
  const INITIAL_DATA := Data([], 0, 1, 0, 0, [])

  class Server {
    var syncSchema: bool
    var syncMutations: bool
    var syncShallow: bool
    var tracked: seq<Name>
    var trackedIdxs: seq<nat>
    var lastPush: Data
    /** The latest collected data, until a batch is taken. */
    var dataLatest: Option<Data>
    /** Data of every mutation ever collected: taking a batch does not empty it. */
    var dataQueue: seq<Data>

    constructor ()
      ensures !syncSchema && !syncMutations && !syncShallow && tracked == [] && trackedIdxs == []
      ensures lastPush == Data([], 0, 0, 0, 0, [])
      ensures dataLatest == Some(INITIAL_DATA) && dataQueue == []
    {
      syncSchema, syncMutations, syncShallow, tracked, trackedIdxs := false, false, false, [], [];
      lastPush, dataLatest, dataQueue := Data([], 0, 0, 0, 0, []), Some(INITIAL_DATA), [];
    }

    method CalcTrackedStates(names: seq<Name>, allowed: Option<seq<Name>>, skipped: seq<Name>)
      modifies this`tracked, this`trackedIdxs
      ensures tracked == Tracked(names, allowed, skipped)
      ensures trackedIdxs == IndexesOf(names, tracked)
    {
      tracked := if allowed.Some? then Only(names, Elems(allowed.value)) else names;
      tracked := Diff(tracked, skipped);
      assert tracked == Tracked(names, allowed, skipped);
      trackedIdxs := FindIndexes(names, tracked);
    }

    /** The export part of the handshake. The machine tick of the last push is left as it
        was, and full indexes stay on once a client asked for them. */
    method RemoteHello(
      names: seq<Name>, time: seq<nat>, queueTick: nat, allowed: Option<seq<Name>>, skipped: seq<Name>,
      withSchema: bool, mutations: bool, shallow: bool)
      returns (helloNames: seq<Name>, helloTime: seq<nat>)
      requires NoDup(names) && |time| == |names|
      modifies this
      ensures tracked == Tracked(names, allowed, skipped) && trackedIdxs == IndexesOf(names, tracked)
      ensures helloNames == if withSchema then names else tracked
      ensures helloTime == Exported(withSchema, time, trackedIdxs)
      ensures syncSchema == (old(syncSchema) || withSchema) && syncMutations == mutations && syncShallow == shallow
      ensures lastPush == old(lastPush).(
                mTime := helloTime, timeSum := SumAt(time, trackedIdxs), queueTick := queueTick)
      ensures dataLatest == old(dataLatest) && dataQueue == old(dataQueue)
    {
      hide Only, Diff, Masked, Filter;
      syncMutations, syncShallow := mutations, shallow;
      CalcTrackedStates(names, allowed, skipped);
      var sum := Sum(Filter(time, trackedIdxs));
      FilterSum(time, trackedIdxs);
      helloNames, helloTime := names, time;
      if !withSchema {
        helloNames := Only(names, Elems(tracked));
        OnlyIsTracked(names, allowed, skipped);
        helloTime := Filter(time, trackedIdxs);
      } else {
        helloTime := ZeroUntracked(time, trackedIdxs);
        syncSchema := true;
      }
      lastPush := lastPush.(mTime := helloTime, timeSum := sum, queueTick := queueTick);
    }

    /** Collects data at the end of a transition of the source: the ticks of tracked states,
        or their activity with shallow clocks, at their positions, with a checksum over
        exactly these. */
    method TransitionEnd(time: seq<nat>, queueTick: nat, machTick: nat) returns (d: Data)
      requires NoDup(trackedIdxs) && Inside(trackedIdxs, |time|)
      modifies this`dataLatest, this`dataQueue
      ensures dataLatest == Some(d) && dataQueue == old(dataQueue) + if syncMutations then [d] else []
      ensures Shaped(syncSchema, d) && d.trackedIdxs == trackedIdxs
      ensures d.queueTick == queueTick && d.machTick == machTick
      ensures d.timeSum == if syncShallow then Sum(d.mTime) else SumAt(time, trackedIdxs)
      ensures d.checksum == Checksum(d.timeSum, queueTick, machTick)
      ensures forall k :: 0 <= k < |trackedIdxs| ==>
                var p := Positions(syncSchema, trackedIdxs)[k];
                && p < |d.mTime|
                && d.mTime[p] == if !syncShallow then time[trackedIdxs[k]]
                                 else if IsActiveTick(time[trackedIdxs[k]]) then 1 else 0
      ensures !syncShallow ==>
                Collected(syncSchema, d) && d == Collect(syncSchema, time, trackedIdxs, queueTick, machTick)
    {
      hide Positions, NoDup, Inside, Sum, SumAt, Filter, ShallowTime, Shaped, Collected, Checksum, Collect;
      var mTime := time;
      var sum := Sum(Filter(mTime, trackedIdxs));
      if !syncSchema {
        mTime := Filter(mTime, trackedIdxs);
      }
      if syncShallow {
        mTime := ShallowTime(mTime);
        sum := Sum(mTime);
      }
      d := Data(mTime, sum, queueTick, machTick, Checksum(sum, queueTick, machTick), trackedIdxs);
      CollectedShape(syncSchema, syncShallow, time, trackedIdxs, queueTick, machTick, d);
      dataLatest := Some(d);
      if syncMutations {
        dataQueue := dataQueue + [d];
      }
    }

    /** Hands out the whole queue and forgets only the latest data. */
    method DataQueue() returns (queue: seq<Data>)
      modifies this`dataLatest
      ensures queue == dataQueue && dataLatest == None
    {
      queue, dataLatest := dataQueue, None;
    }

    /** A push or a response can be computed without looking up a missing entry. */
    ghost predicate Ready()
      reads this
    {
      && dataLatest.Some?
      && if syncMutations then Chain(syncSchema, lastPush, dataQueue)
         else if syncShallow then Shaped(syncSchema, dataLatest.value)
         else InRange(syncSchema, dataLatest.value, lastPush)
    }

    /** What a push or a response carries: the whole queue relative to the last push, or the
        latest data. */
    ghost function Message(): seq<Update>
      reads this
      requires Ready()
    {
      if syncMutations then EncodeAll(syncSchema, lastPush, dataQueue)
      else if syncShallow then [EncodeShallow(syncSchema, dataLatest.value, lastPush)]
      else [Encode(syncSchema, dataLatest.value, lastPush)]
    }

    /** A response to a mutation. With mutations synced a client in sync with the last push
        visits the tracked clock of every queued mutation; otherwise the one update brings it
        the latest data, or the activity in it. The latest data becomes the last push. */
    method NewMsgMutation() returns (updates: seq<Update>)
      requires Ready()
      modifies this`lastPush, this`dataLatest
      ensures updates == old(Message())
      ensures Some(lastPush) == old(dataLatest) && dataLatest == if syncMutations then None else old(dataLatest)
      ensures |updates| == if syncMutations then |old(dataQueue)| else 1
      ensures forall i :: 0 <= i < |updates| ==> |updates[i].indexes| == |updates[i].ticks|
      ensures syncMutations ==>
                forall idxs :: FittingChain(syncSchema, idxs, old(lastPush), old(dataQueue)) ==>
                  Visits(updates, MirrorOf(syncSchema, idxs, old(lastPush))) == Each(syncSchema, idxs, old(dataQueue))
      ensures !syncMutations ==>
                var u, d, last := updates[0], old(dataLatest).value, old(lastPush);
                && u.queueTick == (d.queueTick as int - last.queueTick as int) % 0x1_0000
                && u.machTick == (d.machTick as int - last.machTick as int) % 0x100 && u.checksum == d.checksum
                && (syncShallow && SameStates(d, last) ==> FollowsActivity(syncSchema, d, last, u))
                && (!syncShallow && Collected(syncSchema, d) && Pair(syncSchema, d, last) ==>
                      LeadsTo(syncSchema, d, last, u))
    {
      hide Encode, EncodeShallow, InRange, Shaped, Collected, Pair, FollowsActivity, LeadsTo, SameStates;
      hide FittingChain, Visits, Each, MirrorOf;
      var d := dataLatest.value;
      if syncMutations {
        var queue := DataQueue();
        updates := CalcUpdateMutations(syncSchema, queue, lastPush);
      } else {
        var u := CalcUpdate(syncSchema, d, lastPush, syncShallow);
        updates := [u];
      }
      lastPush := d;
    }

    /** There is nothing to push: no data, or neither tracked sum nor queue tick moved. */
    predicate Unchanged()
      reads this
    {
      dataLatest.None? ||
      (lastPush.timeSum == dataLatest.value.timeSum && lastPush.queueTick == dataLatest.value.queueTick)
    }

    /** A push: nothing happens when there is no data, or neither the tracked sum nor the
        queue tick moved. Otherwise the same, except that an update without changed ticks is
        not sent, and yet remembered as the last push. */
    method PushClient() returns (sent: seq<Update>)
      requires Unchanged() || Ready()
      modifies this`lastPush, this`dataLatest
      ensures old(Unchanged()) ==> sent == [] && lastPush == old(lastPush) && dataLatest == old(dataLatest)
      ensures !old(Unchanged()) ==>
                && sent == (if !syncMutations && old(Message())[0].indexes == [] then [] else old(Message()))
                && Some(lastPush) == old(dataLatest) && dataLatest == if syncMutations then None else old(dataLatest)
      ensures var d, last := old(dataLatest), old(lastPush);
              old(Unchanged()) <==> d.None? || (last.timeSum, last.queueTick) == (d.value.timeSum, d.value.queueTick)
      ensures forall i :: 0 <= i < |sent| ==> |sent[i].indexes| == |sent[i].ticks|
      ensures !old(Unchanged()) && syncMutations ==>
                && |sent| == |old(dataQueue)|
                && forall idxs :: FittingChain(syncSchema, idxs, old(lastPush), old(dataQueue)) ==>
                     Visits(sent, MirrorOf(syncSchema, idxs, old(lastPush))) == Each(syncSchema, idxs, old(dataQueue))
      ensures !old(Unchanged()) && !syncMutations ==>
                var d, last := old(dataLatest).value, old(lastPush);
                && |sent| <= 1
                && (!syncShallow && Pair(syncSchema, d, last) ==>
                      (sent == [] <==>
                         forall p :: p in Positions(syncSchema, d.trackedIdxs) ==>
                           TickAt(d.mTime, p) == TickAt(last.mTime, p)))
                && (syncShallow && |d.mTime| == |last.mTime| < 0x1_0000 ==>
                      (sent == [] <==>
                         forall p :: p in Positions(syncSchema, d.trackedIdxs) ==>
                           (IsActiveTick(TickAt(d.mTime, p)) <==> IsActiveTick(TickAt(last.mTime, p)))))
                && (sent != [] && syncShallow && SameStates(d, last) ==> FollowsActivity(syncSchema, d, last, sent[0]))
                && (sent != [] && !syncShallow && Collected(syncSchema, d) && Pair(syncSchema, d, last) ==>
                      LeadsTo(syncSchema, d, last, sent[0]))
    {
      hide Encode, EncodeShallow, InRange, Shaped, Collected, Pair, FollowsActivity, LeadsTo, SameStates;
      hide FittingChain, Visits, Each, MirrorOf, Positions, IsActiveTick, TickAt, EncodeAll;
      if Unchanged() {
        return [];
      }
      ghost var d, last := dataLatest.value, lastPush;
      sent := NewMsgMutation();
      NothingToSend(syncSchema, syncShallow, d, last);
      if !syncMutations && sent[0].indexes == [] {
        sent := [];
      }
    }
  }

  /** What an update without changes says about the data. */
  lemma NothingToSend(sync: bool, shallow: bool, d: Data, last: Data)
    ensures !shallow && Pair(sync, d, last) ==>
              (Encode(sync, d, last).indexes == [] <==>
                 forall p :: p in Positions(sync, d.trackedIdxs) ==> TickAt(d.mTime, p) == TickAt(last.mTime, p))
    ensures shallow && Shaped(sync, d) && |d.mTime| == |last.mTime| < 0x1_0000 ==>
              (EncodeShallow(sync, d, last).indexes == [] <==>
                 forall p :: p in Positions(sync, d.trackedIdxs) ==>
                   (IsActiveTick(TickAt(d.mTime, p)) <==> IsActiveTick(TickAt(last.mTime, p))))
  {
    hide Encode, EncodeShallow, Positions, IsActiveTick, TickAt;
    if !shallow && Pair(sync, d, last) {
      EmptyUpdate(sync, d, last);
    }
    if shallow && Shaped(sync, d) && |d.mTime| == |last.mTime| < 0x1_0000 {
      EmptyShallowUpdate(sync, d, last);
    }
  }

  method ZeroUntracked(time: seq<nat>, idxs: seq<nat>) returns (r: seq<nat>)
    ensures r == Masked(time, idxs)
  {
    r := time;
    for i := 0 to |time|
      invariant |r| == |time| && r[i..] == time[i..]
      invariant forall j :: 0 <= j < i ==> r[j] == if j in idxs then time[j] else 0
    {
      if i !in idxs {
        r := r[i := 0];
      }
    }
  }

  /** The tracked states read back from the schema's names are the tracked states. */
  lemma OnlyIsTracked(names: seq<Name>, allowed: Option<seq<Name>>, skipped: seq<Name>)
    ensures Only(names, Elems(Tracked(names, allowed, skipped))) == Tracked(names, allowed, skipped)
  {
    var tracked := Tracked(names, allowed, skipped);
    var base := if allowed.Some? then Only(names, Elems(allowed.value)) else names;
    DiffIsOnly(base, skipped, Elems(tracked));
    if allowed.Some? {
      OnlyTwice(names, Elems(allowed.value), Elems(tracked), Elems(tracked));
    }
  }

  // ----- the first push after a handshake

  /** What the handshake gives a client is what a client in sync holds, once the server's
      machine tick is 0 as well. */
  lemma HelloInSync(sync: bool, time: seq<nat>, idxs: seq<nat>, last: Data)
    requires NoDup(idxs) && Inside(idxs, |time|)
    requires last.mTime == Exported(sync, time, idxs)
    ensures MirrorOf(sync, idxs, last) == Mirror(Exported(sync, time, idxs), last.queueTick, last.machTick)
  {
  }

  /** In one index space, the first update is accepted if and only if the machine tick
      pushed last is 0 modulo 256: a client starts from 0, the server keeps what it pushed
      to the client before. */
  lemma FirstAccepted(sync: bool, time: seq<nat>, idxs: seq<nat>, last: Data, d: Data)
    requires NoDup(idxs) && Inside(idxs, |time|) && |time| < 0x1_0000
    requires last.mTime == Exported(sync, time, idxs)
    requires Collected(sync, d) && d.trackedIdxs == idxs && |d.mTime| == |last.mTime|
    ensures Accepts(Encode(sync, d, last), Mirror(last.mTime, last.queueTick, 0)) <==> U8(last.machTick) == 0
  {
    hide Accepts, Encode, Positions, SumAt, Sum, U8, Total;
    FirstTotal(sync, time, idxs, last, d);
    hide Exported, Shaped, Comparable, Collected, PushedTotal, NoDup, Inside;
    var m := Mirror(last.mTime, last.queueTick, 0);
    DriftDetection(sync, d, last, m);
    CancelMod(Total(m), last.machTick);
  }

  lemma FirstTotal(sync: bool, time: seq<nat>, idxs: seq<nat>, last: Data, d: Data)
    requires NoDup(idxs) && Inside(idxs, |time|) && |time| < 0x1_0000
    requires last.mTime == Exported(sync, time, idxs)
    requires Shaped(sync, d) && d.trackedIdxs == idxs && |d.mTime| == |last.mTime|
    ensures Comparable(sync, d, last)
    ensures PushedTotal(sync, idxs, last) == Total(Mirror(last.mTime, last.queueTick, 0)) + last.machTick
  {
    NoDupInside(idxs, |time|);
    HelloInSync(sync, time, idxs, last);
    hide Exported, Masked, Positions, Shaped, Sum, SumAt, NoDup, Inside, PushedTotal;
    MirrorTotal(sync, d, last);
  }

  ghost predicate Rising(idxs: seq<nat>) {
    forall i, j :: 0 <= i < j < |idxs| ==> idxs[i] < idxs[j]
  }

  /** Tracked states are in schema order. */
  lemma {:induction false} OnlyRises(names: seq<Name>, keep: set<Name>)
    requires NoDup(names)
    ensures forall i, j :: 0 <= i < j < |Only(names, keep)| ==>
              IndexOf(names, Only(names, keep)[i]) < IndexOf(names, Only(names, keep)[j])
  {
    if names != [] {
      var init, last := names[..|names| - 1], names[|names| - 1];
      OnlyRises(init, keep);
      var r := Only(init, keep);
      forall i | 0 <= i < |r| ensures IndexOf(names, r[i]) == IndexOf(init, r[i]) < |init| {
        assert r[i] in r;
      }
      assert IndexOf(names, last) == |names| - 1;
    }
  }

  lemma TrackedRises(names: seq<Name>, allowed: Option<seq<Name>>, skipped: seq<Name>)
    requires NoDup(names)
    ensures Rising(IndexesOf(names, Tracked(names, allowed, skipped)))
  {
    var tracked := Tracked(names, allowed, skipped);
    OnlyRises(names, Elems(tracked));
    OnlyIsTracked(names, allowed, skipped);
    hide Tracked, Only, IndexOf;
  }

  function Counting(n: nat): seq<nat> {
    seq(n, i => i)
  }

  lemma {:induction false} RisingAtLeast(idxs: seq<nat>, k: nat)
    requires Rising(idxs) && k < |idxs|
    ensures idxs[k] >= k
  {
    if k > 0 {
      RisingAtLeast(idxs, k - 1);
    }
  }

  /** Rising indexes below their own number are all of them. */
  lemma RisingInside(idxs: seq<nat>)
    requires Rising(idxs)
    ensures Inside(idxs, |idxs|) <==> idxs == Counting(|idxs|)
  {
    if Inside(idxs, |idxs|) {
      forall k | 0 <= k < |idxs| ensures idxs[k] == k {
        RisingAtLeast(idxs, k);
        RisingBelow(idxs, k);
      }
    }
  }

  lemma {:induction false} RisingBelow(idxs: seq<nat>, k: nat)
    requires Rising(idxs) && Inside(idxs, |idxs|) && k < |idxs|
    ensures idxs[k] <= k
    decreases |idxs| - k
  {
    if k + 1 < |idxs| {
      RisingBelow(idxs, k + 1);
    }
  }

  /** Where tracked states are the first ones, both index spaces encode alike. */
  lemma {:induction false} SameChanges(now: seq<nat>, idxs: seq<nat>, q: nat, k: nat, prev: seq<nat>, n: nat)
    requires idxs == Counting(|idxs|) && |idxs| <= |now| && |prev| == |idxs| && n <= |idxs| < 0x1_0000
    ensures ChangesOf(true, Collect(true, now, idxs, q, k), prev, n) ==
            ChangesOf(false, Collect(false, now, idxs, q, k), prev, n)
  {
    if n > 0 {
      SameChanges(now, idxs, q, k, prev, n - 1);
      assert Positions(true, idxs)[n - 1] == n - 1 == Positions(false, idxs)[n - 1];
      assert Filter(now, idxs)[n - 1] == now[n - 1];
      hide ChangesOf, Sum, Filter, Counting;
      assert U16(n - 1) == n - 1;
    }
  }

  /** Data collected after a handshake, `was` telling whether an earlier client asked for full
      indexes. The update can be computed if and only if this client asked for them too, or nobody
      did, or the tracked states are the first ones of the schema. Then it is accepted if
      and only if the machine tick pushed last is 0 modulo 256. */
  lemma FreshAccepts(
    was: bool, withSchema: bool, time: seq<nat>, idxs: seq<nat>, last: Data, now: seq<nat>, q: nat, k: nat)
    requires Rising(idxs) && Inside(idxs, |time|) && |now| == |time| < 0x1_0000
    requires last.mTime == Exported(withSchema, time, idxs)
    ensures var sync, d := was || withSchema, Collect(was || withSchema, now, idxs, q, k);
            && (InRange(sync, d, last) <==> withSchema || !was || idxs == Counting(|idxs|))
            && (InRange(sync, d, last) ==>
                  (Accepts(Encode(sync, d, last), Mirror(last.mTime, last.queueTick, 0)) <==> U8(last.machTick) == 0))
  {
    var sync := was || withSchema;
    var d := Collect(sync, now, idxs, q, k);
    assert NoDup(idxs);
    NoDupInside(idxs, |time|);
    CollectIsCollected(sync, now, idxs, q, k);
    HelloInRange(was, withSchema, time, idxs, last, d);
    hide Accepts, Encode, InRange, Collected, Counting, U8, Rising;
    if sync == withSchema {
      FirstAccepted(sync, time, idxs, last, d);
    } else if idxs == Counting(|idxs|) {
      CollectIsCollected(false, now, idxs, q, k);
      FirstAccepted(false, time, idxs, last, Collect(false, now, idxs, q, k));
      SameEncoding(now, idxs, q, k, last);
    }
  }

  lemma SameEncoding(now: seq<nat>, idxs: seq<nat>, q: nat, k: nat, last: Data)
    requires idxs == Counting(|idxs|) && |idxs| <= |now| && |last.mTime| == |idxs| < 0x1_0000
    ensures Encode(true, Collect(true, now, idxs, q, k), last) == Encode(false, Collect(false, now, idxs, q, k), last)
  {
    hide ChangesOf, Counting, Filter;
    SameChanges(now, idxs, q, k, last.mTime, |idxs|);
  }

  lemma HelloInRange(was: bool, withSchema: bool, time: seq<nat>, idxs: seq<nat>, last: Data, d: Data)
    requires Rising(idxs) && Inside(idxs, |time|) && |time| < 0x1_0000 && |idxs| <= |time|
    requires last.mTime == Exported(withSchema, time, idxs)
    requires Shaped(was || withSchema, d) && d.trackedIdxs == idxs
    ensures InRange(was || withSchema, d, last) <==> withSchema || !was || idxs == Counting(|idxs|)
  {
    RisingInside(idxs);
    hide Rising, Counting, Shaped;
    if was && !withSchema {
      assert |last.mTime| == |idxs| && Positions(true, idxs) == idxs;
      assert InRange(true, d, last) <==> Inside(idxs, |idxs|) by {
        assert forall i :: 0 <= i < |idxs| ==> U16(idxs[i]) == idxs[i];
      }
    }
  }

  // ----- data kept across a handshake

  /** The data the first update of a message is computed from. */
  function FirstData(s: Server): Data
    reads s
    requires s.dataLatest.Some? && (s.syncMutations ==> s.dataQueue != [])
  {
    if s.syncMutations then s.dataQueue[0] else s.dataLatest.value
  }

  /** A server after a handshake, and the client it answered: whatever was collected before or
      since, the first update is accepted if and only if the exported ticks and what the
      update means to add agree with its checksum, less the machine tick pushed last. */
  lemma HelloAccepts(s: Server)
    requires s.Ready() && !s.syncShallow && (s.syncMutations ==> s.dataQueue != [])
    requires |FirstData(s).mTime| < 0x1_0000 && |s.lastPush.mTime| < 0x1_0000
    ensures var d, last := FirstData(s), s.lastPush;
            Accepts(s.Message()[0], Mirror(last.mTime, last.queueTick, 0)) <==>
            U8(Sum(last.mTime) + Steps(s.syncSchema, d, last, |last.mTime|, |d.trackedIdxs|)
               + d.queueTick + d.machTick - last.machTick) == d.checksum
  {
    hide Encode, Accepts, Shaped, Chain, InRange, Steps, U8, Sum, Server.Message;
    FirstMessage(s);
    AcceptsIff(s.syncSchema, FirstData(s), s.lastPush, Mirror(s.lastPush.mTime, s.lastPush.queueTick, 0));
  }

  lemma FirstMessage(s: Server)
    requires s.Ready() && !s.syncShallow && (s.syncMutations ==> s.dataQueue != [])
    ensures Shaped(s.syncSchema, FirstData(s)) && s.Message() != []
    ensures s.Message()[0] == Encode(s.syncSchema, FirstData(s), s.lastPush)
  {
    hide Encode;
    if s.syncMutations {
      FirstOfChain(s.syncSchema, s.lastPush, s.dataQueue);
    }
  }

  lemma FirstOfChain(sync: bool, last: Data, data: seq<Data>)
    requires data != [] && Chain(sync, last, data)
    ensures Shaped(sync, data[0]) && EncodeAll(sync, last, data)[0] == Encode(sync, data[0], last)
  {
    hide Encode;
  }

  /** Data collected in the index space that is in use: accepted if and only if the exported
      ticks it does not track, less its own ticks the client has no place for, are the
      machine tick pushed last modulo 256. */
  lemma KeptAccepts(sync: bool, d: Data, last: Data)
    requires Collected(sync, d) && |d.mTime| < 0x1_0000 && |last.mTime| < 0x1_0000
    requires sync ==> |last.mTime| == |d.mTime|
    ensures var pos := Positions(sync, d.trackedIdxs);
            var untracked := Sum(last.mTime) as int - SumAt(last.mTime, pos) as int;
            Accepts(Encode(sync, d, last), Mirror(last.mTime, last.queueTick, 0)) <==>
            U8(untracked - Beyond(sync, d, |last.mTime|, |d.trackedIdxs|)) == U8(last.machTick)
  {
    var pos, n := Positions(sync, d.trackedIdxs), |d.trackedIdxs|;
    assert pos[..n] == pos;
    hide Encode, Accepts, Shaped, Steps, U8, Beyond, Sum, SumAt, Positions;
    AcceptsIff(sync, d, last, Mirror(last.mTime, last.queueTick, 0));
    StepsBetween(sync, d, last, n);
    ShiftMod(SumAt(d.mTime, pos) + d.queueTick + d.machTick,
      Sum(last.mTime) - SumAt(last.mTime, pos) - Beyond(sync, d, |last.mTime|, n), last.machTick);
  }

  /** The initial data: its checksum is 0 although its queue tick is 1. */
  lemma InitialAccepts(sync: bool, last: Data)
    requires |last.mTime| < 0x1_0000
    ensures Encode(sync, INITIAL_DATA, last).indexes == []
    ensures Accepts(Encode(sync, INITIAL_DATA, last), Mirror(last.mTime, last.queueTick, 0)) <==>
            U8(Sum(last.mTime) + 1) == U8(last.machTick)
  {
    assert Shaped(sync, INITIAL_DATA) && Steps(sync, INITIAL_DATA, last, |last.mTime|, 0) == 0;
    assert ChangesOf(sync, INITIAL_DATA, last.mTime, 0) == Changes([], []);
    hide Accepts, Steps, Shaped, Sum, ChangesOf;
    AcceptsIff(sync, INITIAL_DATA, last, Mirror(last.mTime, last.queueTick, 0));
    ShiftMod(0, Sum(last.mTime) + 1, last.machTick);
  }

  lemma CancelMod(x: nat, k: nat)
    ensures U8(x) == U8(x + k) <==> U8(k) == 0
  {
    ShiftMod(x, k, 0);
  }
}
