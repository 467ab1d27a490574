/** Clock replication: the server encodes tick differences in narrow integers, the client
    adds them to its own clock and checks an 8-bit checksum. */
module ClockSync {
  import opened Slices
  import opened Transitions

  // ----- integer widths

  function U8(x: int): nat { x % 0x100 }
  function U16(x: int): nat { x % 0x1_0000 }
  function U32(x: int): nat { x % 0x1_0000_0000 }

  // ----- messages

  /** What the server collects after a transition. With `sync` the time covers all states
      of the schema, otherwise only the tracked ones, in their order. */
  datatype Data = Data(
    mTime: seq<nat>, timeSum: nat, queueTick: nat, machTick: nat, checksum: nat, trackedIdxs: seq<nat>)

  datatype Update = Update(indexes: seq<nat>, ticks: seq<nat>, queueTick: nat, machTick: nat, checksum: nat)

  function Checksum(timeSum: nat, qTick: nat, machTick: nat): nat {
    U8(timeSum + qTick + machTick)
  }

  /** Where the ticks of tracked states are found in the time of a message. */
  function Positions(sync: bool, idxs: seq<nat>): (r: seq<nat>)
    ensures |r| == |idxs|
  {
    if sync then idxs else seq(|idxs|, i => i)
  }

  function TickAt(time: seq<nat>, p: nat): nat {
    if p < |time| then time[p] else 0
  }

  function SumAt(time: seq<nat>, pos: seq<nat>): nat {
    if pos == [] then 0 else SumAt(time, pos[..|pos| - 1]) + TickAt(time, pos[|pos| - 1])
  }

  /** Tracked positions are distinct and inside the time. */
  ghost predicate Shaped(sync: bool, d: Data) {
    && NoDup(d.trackedIdxs)
    && (sync ==> |d.trackedIdxs| <= |d.mTime| && forall i :: 0 <= i < |d.trackedIdxs| ==> d.trackedIdxs[i] < |d.mTime|)
    && (!sync ==> |d.trackedIdxs| == |d.mTime|)
  }

  ghost predicate Collected(sync: bool, d: Data) {
    && Shaped(sync, d)
    && d.checksum == Checksum(SumAt(d.mTime, Positions(sync, d.trackedIdxs)), d.queueTick, d.machTick)
  }

  // ----- server

  function Diff32(now: int, prev: int): nat {
    U32(now - prev)
  }

  /** Indexes and tick differences of an update. */
  datatype Changes = Changes(indexes: seq<nat>, ticks: seq<nat>)

  function Add(c: Changes, index: nat, tick: nat): Changes {
    Changes(c.indexes + [index], c.ticks + [tick])
  }

  /** Adds the k-th tracked state, if it changed. The first push compares with nothing. */
  function AddChange(sync: bool, d: Data, prev: seq<nat>, k: nat, c: Changes): Changes
    requires k < |d.trackedIdxs|
  {
    var p := U16(Positions(sync, d.trackedIdxs)[k]);
    if k >= |prev| then
      if TickAt(d.mTime, k) == 0 then c else Add(c, p, Diff32(TickAt(d.mTime, p), 0))
    else if TickAt(prev, p) != TickAt(d.mTime, p) then Add(c, p, Diff32(TickAt(d.mTime, p), TickAt(prev, p)))
    else c
  }

  /** Changes among the first `n` tracked states. */
  function ChangesOf(sync: bool, d: Data, prev: seq<nat>, n: nat): (r: Changes)
    requires n <= |d.trackedIdxs|
    ensures |r.indexes| == |r.ticks|
  {
    if n == 0 then Changes([], []) else AddChange(sync, d, prev, n - 1, ChangesOf(sync, d, prev, n - 1))
  }

  /** Every entry that is looked up in the last push exists; Go panics otherwise. */
  ghost predicate InRange(sync: bool, d: Data, last: Data) {
    Shaped(sync, d) &&
    forall k :: 0 <= k < |d.trackedIdxs| && k < |last.mTime| ==> U16(Positions(sync, d.trackedIdxs)[k]) < |last.mTime|
  }

  method GenDeepUpdate(sync: bool, d: Data, last: Data) returns (indexes: seq<nat>, ticks: seq<nat>)
    requires InRange(sync, d, last)
    ensures Changes(indexes, ticks) == ChangesOf(sync, d, last.mTime, |d.trackedIdxs|)
  {
    indexes, ticks := [], [];
    var now, prev := d.mTime, last.mTime;
    for k := 0 to |d.trackedIdxs|
      invariant Changes(indexes, ticks) == ChangesOf(sync, d, prev, k)
    {
      var p := U16(if sync then d.trackedIdxs[k] else k);
      assert p == U16(Positions(sync, d.trackedIdxs)[k]) && p < |now|;
      if prev == [] || k >= |prev| {
        if now[k] != 0 {
          indexes, ticks := indexes + [p], ticks + [Diff32(now[p], 0)];
        }
      } else if prev[p] != now[p] {
        indexes, ticks := indexes + [p], ticks + [Diff32(now[p], prev[p])];
      }
    }
  }

  /** The same for shallow clocks, which only follow whether a state is active. */
  function AddShallow(sync: bool, d: Data, prev: seq<nat>, k: nat, c: Changes): Changes
    requires k < |d.trackedIdxs|
  {
    var p := U16(Positions(sync, d.trackedIdxs)[k]);
    var now := TickAt(d.mTime, p);
    if p >= |prev| then
      if now == 0 then c else Add(c, p, if IsActiveTick(now) then 1 else 0)
    else if prev[p] % 2 != now % 2 then Add(c, p, 1)
    else c
  }

  function ShallowChangesOf(sync: bool, d: Data, prev: seq<nat>, n: nat): (r: Changes)
    requires n <= |d.trackedIdxs|
    ensures |r.indexes| == |r.ticks|
  {
    if n == 0 then Changes([], []) else AddShallow(sync, d, prev, n - 1, ShallowChangesOf(sync, d, prev, n - 1))
  }

  method GenShallowUpdate(sync: bool, d: Data, last: Data) returns (indexes: seq<nat>, ticks: seq<nat>)
    requires Shaped(sync, d)
    ensures Changes(indexes, ticks) == ShallowChangesOf(sync, d, last.mTime, |d.trackedIdxs|)
  {
    indexes, ticks := [], [];
    var now, prev := d.mTime, last.mTime;
    for k := 0 to |d.trackedIdxs|
      invariant Changes(indexes, ticks) == ShallowChangesOf(sync, d, prev, k)
    {
      var p := U16(if sync then d.trackedIdxs[k] else k);
      assert p < |now|;
      if prev == [] || p >= |prev| {
        if now[p] != 0 {
          indexes, ticks := indexes + [p], ticks + [if IsActiveTick(now[p]) then 1 else 0];
        }
      } else if prev[p] % 2 != now[p] % 2 {
        indexes, ticks := indexes + [p], ticks + [1];
      }
    }
  }

  function Encode(sync: bool, d: Data, last: Data): (u: Update)
    ensures |u.indexes| == |u.ticks|
  {
    var c := ChangesOf(sync, d, last.mTime, |d.trackedIdxs|);
    Update(c.indexes, c.ticks, U16(d.queueTick as int - last.queueTick as int),
           U8(d.machTick as int - last.machTick as int), d.checksum)
  }

  function EncodeShallow(sync: bool, d: Data, last: Data): (u: Update)
    ensures |u.indexes| == |u.ticks|
  {
    var c := ShallowChangesOf(sync, d, last.mTime, |d.trackedIdxs|);
    Update(c.indexes, c.ticks, U16(d.queueTick as int - last.queueTick as int),
           U8(d.machTick as int - last.machTick as int), d.checksum)
  }

  /** Each collected state follows the one before it. */
  ghost predicate Chain(sync: bool, last: Data, data: seq<Data>)
    decreases data
  {
    data == [] || (InRange(sync, data[0], last) && Chain(sync, data[0], data[1..]))
  }

  function EncodeAll(sync: bool, last: Data, data: seq<Data>): seq<Update>
    decreases data
  {
    if data == [] then [] else [Encode(sync, data[0], last)] + EncodeAll(sync, data[0], data[1..])
  }

  // ----- client

  /** The clock a client keeps of the source. */
  datatype Mirror = Mirror(time: seq<nat>, queueTick: nat, machTick: nat)

  /** What an update adds to the tick at an index. */
  function Delta(indexes: seq<nat>, ticks: seq<nat>, p: nat): nat
    requires |indexes| == |ticks|
  {
    if indexes == [] then 0
    else
      Delta(indexes[..|indexes| - 1], ticks[..|ticks| - 1], p) +
      if indexes[|indexes| - 1] == p then ticks[|ticks| - 1] else 0
  }

  /** Indexes at or past the 16-bit length are skipped. */
  function Advanced(time: seq<nat>, indexes: seq<nat>, ticks: seq<nat>): (r: seq<nat>)
    requires |indexes| == |ticks|
    ensures |r| == |time|
  {
    seq(|time|, i requires 0 <= i < |time| => time[i] + if i < U16(|time|) then Delta(indexes, ticks, i) else 0)
  }

  function Applied(u: Update, m: Mirror): (r: Mirror)
    requires |u.indexes| == |u.ticks|
    ensures |r.time| == |m.time|
  {
    Mirror(Advanced(m.time, u.indexes, u.ticks), m.queueTick + u.queueTick, U32(m.machTick + u.machTick))
  }

  method ClockFromUpdate(u: Update, m: Mirror) returns (r: Mirror)
    requires |u.indexes| == |u.ticks|
    ensures r == Applied(u, m)
  {
    var time := m.time;
    var l := U16(|time|);
    for k := 0 to |u.indexes|
      invariant time == Advanced(m.time, u.indexes[..k], u.ticks[..k])
    {
      var idx := u.indexes[k];
      assert u.indexes[..k + 1][..k] == u.indexes[..k] && u.ticks[..k + 1][..k] == u.ticks[..k];
      if idx < l {
        time := time[idx := time[idx] + u.ticks[k]];
      }
    }
    assert u.indexes[..|u.indexes|] == u.indexes && u.ticks[..|u.ticks|] == u.ticks;
    r := Mirror(time, m.queueTick + u.queueTick, U32(m.machTick + u.machTick));
  }

  predicate Accepts(u: Update, m: Mirror)
    requires |u.indexes| == |u.ticks|
  {
    var after := Applied(u, m);
    Checksum(Sum(after.time), after.queueTick, after.machTick) == u.checksum
  }

  /** An accepted update advances the mirror, a rejected one leaves it alone. */
  function Deliver(u: Update, m: Mirror): Option<Mirror>
    requires |u.indexes| == |u.ticks|
  {
    if Accepts(u, m) then Some(Applied(u, m)) else None
  }
}
