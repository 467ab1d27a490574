/** Concrete messages at the edges of clock replication, with one tracked state. */
module SyncLimits {
  import opened Slices
  import opened Transitions
  import opened Schemas
  import opened ClockSync
  import opened Acceptance
  import opened Replication
  import opened Servers

  function OneState(tick: nat, queueTick: nat, machTick: nat): Data {
    Collect(false, [tick], [0], queueTick, machTick)
  }

  function OneMirror(tick: nat, queueTick: nat, machTick: nat): Mirror {
    Mirror([tick], queueTick, machTick)
  }

  lemma OneSum(tick: nat)
    ensures Sum([tick]) == tick && Filter([tick], [0]) == [tick]
  {
    assert [tick][..0] == [];
  }

  lemma OneIsShaped(tick: nat, q: nat, k: nat)
    ensures Collected(false, OneState(tick, q, k)) && OneState(tick, q, k).mTime == [tick]
    ensures OneState(tick, q, k).checksum == Checksum(tick, q, k)
    ensures OneState(tick, q, k).queueTick == q && OneState(tick, q, k).machTick == k
    ensures MirrorOf(false, [0], OneState(tick, q, k)) == OneMirror(tick, q, k)
  {
    OneSum(tick);
    CollectIsCollected(false, [tick], [0], q, k);
    hide Collected, Sum;
    assert Positions(false, [0]) == [0];
  }

  /** The update between two such states. */
  lemma OneUpdate(a: Data, tick: nat, q: nat, k: nat)
    requires |a.mTime| == 1
    ensures Encode(false, OneState(tick, q, k), a) ==
            Update(if tick == a.mTime[0] then [] else [0],
                   if tick == a.mTime[0] then [] else [Diff32(tick, a.mTime[0])],
                   U16(q as int - a.queueTick as int), U8(k as int - a.machTick as int), Checksum(tick, q, k))
  {
    OneIsShaped(tick, q, k);
    var d := OneState(tick, q, k);
    assert d.trackedIdxs == [0] && Positions(false, [0]) == [0] && U16(0) == 0;
    hide Collected, OneState, Positions, Checksum, Diff32, U8, U16;
    assert ChangesOf(false, d, a.mTime, 0) == Changes([], []);
    assert ChangesOf(false, d, a.mTime, 1) == AddChange(false, d, a.mTime, 0, Changes([], []));
  }

  lemma OneAdvanced(u: Update, time: seq<nat>, tick: nat)
    requires |time| == 1 && ((u.indexes == [] && u.ticks == [] && tick == 0) || (u.indexes == [0] && u.ticks == [tick]))
    ensures Advanced(time, u.indexes, u.ticks) == [time[0] + tick]
  {
    assert U16(1) == 1;
    if u.indexes == [0] {
      assert [0][..0] == [] && [tick][..0] == [];
      assert Delta([0], [tick], 0) == tick;
    }
  }

  /** Where the client gets to, and whether it accepts. */
  lemma OneApplied(u: Update, m: Mirror, tick: nat)
    requires |m.time| == 1
    requires (u.indexes == [] && u.ticks == [] && tick == 0) || (u.indexes == [0] && u.ticks == [tick])
    ensures Applied(u, m) == OneMirror(m.time[0] + tick, m.queueTick + u.queueTick, U32(m.machTick + u.machTick))
    ensures Accepts(u, m) <==>
            Checksum(m.time[0] + tick, m.queueTick + u.queueTick, U32(m.machTick + u.machTick)) == u.checksum
  {
    OneSum(m.time[0] + tick);
    hide Sum, Checksum, U32, Advanced;
    OneAdvanced(u, m.time, tick);
  }

  lemma SameDiff(tick: nat)
    ensures Diff32(tick, tick) == 0
  {
  }

  lemma OneDelivery(a: Data, tick: nat, q: nat, k: nat, m: Mirror)
    requires |a.mTime| == 1 && |m.time| == 1
    ensures var u := Encode(false, OneState(tick, q, k), a);
            var after := OneMirror(m.time[0] + Diff32(tick, a.mTime[0]),
                                   m.queueTick + U16(q as int - a.queueTick as int),
                                   U32(m.machTick + U8(k as int - a.machTick as int)));
            && Applied(u, m) == after
            && (Accepts(u, m) <==> Checksum(after.time[0], after.queueTick, after.machTick) == Checksum(tick, q, k))
  {
    hide Encode, OneState, Accepts, Applied, Checksum, Diff32, U8, U16, U32;
    OneUpdate(a, tick, q, k);
    SameDiff(tick);
    OneApplied(Encode(false, OneState(tick, q, k), a), m, Diff32(tick, a.mTime[0]));
  }

  /** A queue tick that advanced by 2^16 passes the checksum, and the client misses all of it. */
  lemma WideQueueDrifts()
    ensures Deliver(Encode(false, OneState(1, 0x1_0001, 0), OneState(1, 1, 0)), OneMirror(1, 1, 0)) ==
            Some(OneMirror(1, 1, 0))
  {
    hide Encode, Accepts, Applied, OneState, Collected, MirrorOf;
    OneIsShaped(1, 1, 0);
    OneDelivery(OneState(1, 1, 0), 1, 0x1_0001, 0, OneMirror(1, 1, 0));
  }

  /** Only the queue tick moved: nothing is sent, and the next update is rejected. */
  lemma SkippedPushDrifts()
    ensures Encode(false, OneState(1, 2, 0), OneState(1, 1, 0)).indexes == []
    ensures !Accepts(Encode(false, OneState(2, 3, 0), OneState(1, 2, 0)), OneMirror(1, 1, 0))
  {
    hide Encode, Accepts, Applied;
    OneIsShaped(1, 1, 0);
    OneIsShaped(1, 2, 0);
    OneUpdate(OneState(1, 1, 0), 1, 2, 0);
    OneDelivery(OneState(1, 2, 0), 2, 3, 0, OneMirror(1, 1, 0));
  }

  /** The last client saw machine tick 1, the next one starts from 0 and rejects its first update. */
  lemma HelloRejected(last: Data)
    requires last.mTime == [1] && last.queueTick == 1 && last.machTick == 1
    ensures !Accepts(Encode(false, OneState(2, 2, 1), last), OneMirror(1, 1, 0))
  {
    hide Encode, Accepts, Applied;
    OneDelivery(last, 2, 2, 1, OneMirror(1, 1, 0));
  }

  /** A client with full indexes, then one that tracks the second of two states without them:
      its first update looks up an entry that does not exist. */
  lemma StickySchema(last: Data, now: seq<nat>)
    requires |now| == 2 && last.mTime == Exported(false, [0, 0], [1])
    ensures !InRange(true, Collect(true, now, [1], 1, 0), last)
  {
    assert Positions(true, [1])[0] == 1 && U16(1) == 1;
  }

  /** Two mutations were pushed. The next push sends them again: the first difference is
      negative, wraps, passes the checksum, and the client ends up 2^32 ahead. */
  lemma ResentQueueDrifts()
    ensures var updates := EncodeAll(false, OneState(2, 2, 0), [OneState(1, 1, 0), OneState(2, 2, 0)]);
            && (forall i :: 0 <= i < |updates| ==> |updates[i].indexes| == |updates[i].ticks|)
            && Visits(updates, OneMirror(2, 2, 0)) ==
               [OneMirror(0x1_0000_0001, 0x1_0001, 0), OneMirror(0x1_0000_0002, 0x1_0002, 0)]
  {
    hide Encode, Deliver, Visits, EncodeAll, OneState;
    BackwardsWraps();
    ForwardAgain();
    TwoVisits(OneState(1, 1, 0), OneState(2, 2, 0), OneMirror(2, 2, 0),
      OneMirror(0x1_0000_0001, 0x1_0001, 0), OneMirror(0x1_0000_0002, 0x1_0002, 0));
  }

  lemma BackwardsWraps()
    ensures Deliver(Encode(false, OneState(1, 1, 0), OneState(2, 2, 0)), OneMirror(2, 2, 0)) ==
            Some(OneMirror(0x1_0000_0001, 0x1_0001, 0))
  {
    hide Encode, Accepts, Applied, OneState, MirrorOf, Collected;
    OneIsShaped(2, 2, 0);
    OneDelivery(OneState(2, 2, 0), 1, 1, 0, OneMirror(2, 2, 0));
  }

  lemma ForwardAgain()
    ensures Deliver(Encode(false, OneState(2, 2, 0), OneState(1, 1, 0)), OneMirror(0x1_0000_0001, 0x1_0001, 0)) ==
            Some(OneMirror(0x1_0000_0002, 0x1_0002, 0))
  {
    hide Encode, Accepts, Applied, OneState, MirrorOf, Collected;
    OneIsShaped(1, 1, 0);
    OneDelivery(OneState(1, 1, 0), 2, 2, 0, OneMirror(0x1_0000_0001, 0x1_0001, 0));
  }

  lemma TwoVisits(first: Data, second: Data, m: Mirror, mid: Mirror, end: Mirror)
    requires Deliver(Encode(false, first, second), m) == Some(mid)
    requires Deliver(Encode(false, second, first), mid) == Some(end)
    ensures EncodeAll(false, second, [first, second]) == [Encode(false, first, second), Encode(false, second, first)]
    ensures Visits([Encode(false, first, second), Encode(false, second, first)], m) == [mid, end]
  {
    hide Encode, Deliver;
    assert [first, second][1..] == [second] && [second][1..] == [];
    assert EncodeAll(false, first, [second]) == [Encode(false, second, first)] + EncodeAll(false, second, []);
    var updates := [Encode(false, first, second), Encode(false, second, first)];
    assert updates[1..] == [updates[1]] && [updates[1]][1..] == [];
    assert Visits([updates[1]], mid) == [end] + Visits([], end);
  }

  // ----- pushes of data kept across a handshake

  lemma TrackOnly(x: Name)
    ensures Tracked([x], None, []) == [x] && IndexesOf([x], [x]) == [0]
  {
    DiffAll([x], []);
    assert IndexOf([x], x) == 0;
  }

  lemma FromNothing()
    ensures Encode(false, OneState(2, 3, 0), INITIAL_DATA).indexes == [0]
    ensures !Accepts(Encode(false, OneState(2, 3, 0), INITIAL_DATA), OneMirror(1, 2, 0))
    ensures InRange(false, OneState(2, 3, 0), INITIAL_DATA)
  {
    hide Encode, Accepts, MirrorOf, Sum, SumAt;
    OneIsShaped(2, 3, 0);
    assert OneState(2, 3, 0).trackedIdxs == [0];
    hide OneState;
    FromNothingSteps(OneState(2, 3, 0));
    RejectedFromNothing(OneState(2, 3, 0));
  }

  lemma RejectedFromNothing(d: Data)
    requires d.mTime == [2] && d.trackedIdxs == [0] && d.queueTick == 3 && d.machTick == 0
    requires d.checksum == Checksum(2, 3, 0) && Shaped(false, d) && Steps(false, d, INITIAL_DATA, 1, 1) == 2
    ensures !Accepts(Encode(false, d, INITIAL_DATA), OneMirror(1, 2, 0))
  {
    hide Encode, Accepts, Steps, Shaped, Sum;
    OneSum(1);
    AcceptsIff(false, d, INITIAL_DATA, OneMirror(1, 2, 0));
  }

  lemma FromNothingSteps(d: Data)
    requires d.mTime == [2] && d.trackedIdxs == [0]
    ensures Encode(false, d, INITIAL_DATA).indexes == [0] && Steps(false, d, INITIAL_DATA, 1, 1) == 2
  {
    assert Positions(false, [0]) == [0] && U16(0) == 0;
    hide Positions, Diff32;
    assert ChangesOf(false, d, [], 1) == AddChange(false, d, [], 0, ChangesOf(false, d, [], 0));
  }

  /** The push of the initial data. */
  method PushInitial(x: Name) returns (s: Server, sent: seq<Update>)
    ensures fresh(s) && sent == [] && s.lastPush == INITIAL_DATA && s.trackedIdxs == [0]
    ensures !s.syncSchema && !s.syncMutations && !s.syncShallow
  {
    TrackOnly(x);
    OneSum(1);
    hide Encode, Tracked, IndexesOf, Sum;
    s := new Server();
    var _, time := s.RemoteHello([x], [1], 2, None, [], false, false, false);
    assert time == [1] && s.lastPush.timeSum == 1;
    InitialAccepts(false, s.lastPush);
    hide Filter;
    sent := s.PushClient();
  }

  /** A handshake, then a push before any transition: the initial data is not sent but becomes
      the last push, and the first real update is rejected, in one index space and with
      machine tick 0 throughout. */
  method PushBeforeTransition(x: Name) returns (sent: seq<Update>, later: seq<Update>)
    ensures sent == [] && |later| == 1 && |later[0].indexes| == |later[0].ticks|
    ensures !Accepts(later[0], OneMirror(1, 2, 0))
  {
    var s;
    s, sent := PushInitial(x);
    FromNothing();
    OneIsShaped(2, 3, 0);
    hide Encode, Accepts, Collected, InRange, MirrorOf;
    var d := s.TransitionEnd([2], 3, 0);
    assert d == OneState(2, 3, 0) && d.timeSum == 2 by {
      OneSum(2);
    }
    hide OneState, Shaped, Positions;
    later := s.PushClient();
  }

  lemma TrackEither(x: Name, y: Name)
    requires x != y
    ensures Tracked([x, y], Some([x]), []) == [x] && IndexesOf([x, y], [x]) == [0]
    ensures Tracked([x, y], Some([y]), []) == [y] && IndexesOf([x, y], [y]) == [1]
  {
    assert [x, y] == [x] + [y];
    OnlyAppend([x], [y], Elems([x]));
    OnlyAppend([x], [y], Elems([y]));
    OnlyAll([x], Elems([x]));
    OnlyAll([y], Elems([y]));
    OnlyNone([y], Elems([x]));
    OnlyNone([x], Elems([y]));
    DiffAll([x], []);
    DiffAll([y], []);
    hide Only, Diff;
    assert IndexOf([x, y], x) == 0 && IndexOf([x, y], y) == 1;
  }

  /** What was collected for a client that tracks the first of two states. */
  function ForFirst(): Data {
    Collect(true, [2, 1], [0], 2, 0)
  }

  lemma ForFirstFacts()
    ensures var d := ForFirst();
            && Collected(true, d) && d.mTime == [2, 1] && d.trackedIdxs == [0] && d.timeSum == 2
            && d.queueTick == 2 && d.machTick == 0
  {
    CollectIsCollected(true, [2, 1], [0], 2, 0);
    OneSum(2);
    assert Filter([2, 1], [0]) == [2];
    hide Collected, Sum;
  }

  lemma ForFirstUpdate(d: Data, last: Data)
    requires d.mTime == [2, 1] && d.trackedIdxs == [0] && last.mTime == [0, 1]
    ensures Encode(true, d, last).indexes == [0] && InRange(true, d, last)
  {
    assert U16(0) == 0 && Positions(true, [0]) == [0];
    assert ChangesOf(true, d, last.mTime, 1) == AddChange(true, d, last.mTime, 0, ChangesOf(true, d, last.mTime, 0));
    hide Diff32;
  }

  lemma ForFirstSums(d: Data)
    requires d.mTime == [2, 1] && d.trackedIdxs == [0]
    ensures Sum([0, 1]) == 1 && SumAt([0, 1], [0]) == 0 && Beyond(true, d, 2, 1) == 0
  {
    OneSum(0);
    assert [0, 1][..1] == [0] && [0][..0] == [];
  }

  lemma OtherTracked(last: Data)
    requires last.mTime == [0, 1] && last.queueTick == 2 && last.machTick == 0
    ensures ForFirst().timeSum == 2 && InRange(true, ForFirst(), last)
    ensures Encode(true, ForFirst(), last).indexes == [0]
    ensures !Accepts(Encode(true, ForFirst(), last), Mirror([0, 1], 2, 0))
  {
    hide Encode, Accepts, Collected, Beyond, ForFirst, Sum, SumAt, InRange;
    ForFirstFacts();
    ForFirstUpdate(ForFirst(), last);
    ForFirstSums(ForFirst());
    assert Positions(true, [0]) == [0];
    KeptAccepts(true, ForFirst(), last);
  }

  /** Two handshakes, for a client that tracks the first state and one that tracks the
      second, with a transition in between. */
  method HelloTwice(x: Name, y: Name) returns (s: Server)
    requires x != y
    ensures fresh(s) && s.syncSchema && !s.syncMutations && !s.syncShallow && s.dataLatest == Some(ForFirst())
    ensures s.lastPush.mTime == [0, 1] && s.lastPush.timeSum == 1
    ensures s.lastPush.queueTick == 2 && s.lastPush.machTick == 0
  {
    hide Tracked, IndexesOf, Collected, Shaped, Sum;
    TrackEither(x, y);
    s := new Server();
    var _, _ := s.RemoteHello([x, y], [0, 0], 1, Some([x]), [], true, false, false);
    var _ := s.TransitionEnd([2, 1], 2, 0);
    hide Positions;
    var _, time := s.RemoteHello([x, y], [2, 1], 2, Some([y]), [], true, false, false);
    OneSum(1);
    assert Filter([2, 1], [1]) == [1];
    assert time == [0, 1];
  }

  /** Data collected for one client is pushed to the next, which tracks another state: the
      update is rejected, with full indexes and machine tick 0 throughout. */
  method PushOfKeptData(x: Name, y: Name) returns (sent: seq<Update>)
    requires x != y
    ensures |sent| == 1 && |sent[0].indexes| == |sent[0].ticks| && !Accepts(sent[0], Mirror([0, 1], 2, 0))
  {
    hide Encode, Accepts, ForFirst, InRange;
    var s := HelloTwice(x, y);
    OtherTracked(s.lastPush);
    sent := s.PushClient();
  }
}
