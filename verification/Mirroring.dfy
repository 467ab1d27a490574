/** The two halves together: a client in sync shows a sound picture of the source, over
    whole runs of the source machine. */
module Mirroring {
  import opened Slices
  import opened Schemas
  import opened Resolvers
  import opened Transitions
  import opened TransitionFacts
  import opened Recovery
  import opened ClockSync
  import opened ClockSyncFacts
  import opened Replication
  import opened NetMachine
  import opened Servers

  /** What a client asked for: full state names or only tracked ones, with their indexes. */
  datatype Feed = Feed(sync: bool, names: seq<Name>, tracked: seq<Name>) {
    ghost predicate Valid() {
      NoDup(names) && NoDup(tracked) && |names| < 0x1_0000 && forall n :: n in tracked ==> n in names
    }

    function Idxs(): seq<nat>
      requires forall n :: n in tracked ==> n in names
    {
      IndexesOf(names, tracked)
    }

    function ClientNames(): seq<Name> {
      if sync then names else tracked
    }
  }

  datatype Reading = Reading(core: Core, queueTick: nat, machTick: nat)

  function DataOf(f: Feed, r: Reading): Data
    requires forall n :: n in f.tracked ==> n in f.names
  {
    Collect(f.sync, TimeOf(f.names, r.core.clock), f.Idxs(), r.queueTick, r.machTick)
  }

  function MirrorFor(f: Feed, r: Reading): Mirror
    requires forall n :: n in f.tracked ==> n in f.names
  {
    MirrorOf(f.sync, f.Idxs(), DataOf(f, r))
  }

  // ----- one clock

  lemma IdxsFacts(f: Feed)
    requires f.Valid()
    ensures NoDup(f.Idxs()) && Inside(f.Idxs(), |f.names|) && |f.Idxs()| == |f.tracked|
    ensures forall i :: 0 <= i < |f.tracked| ==> f.names[f.Idxs()[i]] == f.tracked[i]
    ensures forall i :: 0 <= i < |f.names| ==> (i in f.Idxs() <==> f.names[i] in f.tracked)
  {
    var idxs := f.Idxs();
    forall i | 0 <= i < |f.names| && f.names[i] in f.tracked ensures i in idxs {
      var k :| 0 <= k < |f.tracked| && f.tracked[k] == f.names[i];
      assert idxs[k] == i;
    }
  }

  /** The ticks of a client in sync, by name. */
  lemma ClientTicks(f: Feed, r: Reading)
    requires f.Valid()
    ensures |MirrorFor(f, r).time| == |f.ClientNames()|
    ensures forall i :: 0 <= i < |f.ClientNames()| ==>
              MirrorFor(f, r).time[i] ==
              if f.ClientNames()[i] in f.tracked then Tick(r.core.clock, f.ClientNames()[i]) else 0
  {
    IdxsFacts(f);
    hide NoDup;
    if !f.sync {
      var pos := Positions(false, f.Idxs());
      forall i | 0 <= i < |f.tracked| ensures MirrorFor(f, r).time[i] == Tick(r.core.clock, f.tracked[i]) {
        assert pos[i] == i;
      }
    }
  }

  lemma ClientActive(f: Feed, r: Reading, n: Name)
    requires f.Valid() && Parity(r.core) && |MirrorFor(f, r).time| == |f.ClientNames()|
    ensures n in ActiveOf(f.ClientNames(), MirrorFor(f, r).time) <==> n in f.tracked && n in r.core.active
  {
    hide ActiveOf, MirrorFor, IndexOf;
    var names, time := f.ClientNames(), MirrorFor(f, r).time;
    ClientTicks(f, r);
    ActiveOfMembers(names, time);
    hide NoDup;
    if n in names {
      var i := IndexOf(names, n);
      assert names[i] == n && time[i] == if n in f.tracked then Tick(r.core.clock, n) else 0;
      assert IsActiveTick(time[i]) <==> n in f.tracked && n in r.core.active;
    }
  }

  /** Nothing is shown active that is inactive at the source, and tracked states are exact. */
  ghost predicate Faithful(f: Feed, core: Core, shown: seq<Name>) {
    && (forall n :: n in shown ==> n in core.active)
    && (forall n :: n in f.tracked && n in core.active ==> n in shown)
  }

  /** Requirements faked by a client in sync are active at the source, because the source
      keeps its active set closed. */
  lemma MirrorIsFaithful(f: Feed, schema: Schema, r: Reading, known: Option<Schema>, shown: seq<Name>)
    requires f.Valid() && Parity(r.core) && Closed(schema, Elems(r.core.active))
    requires known == None || known == Some(schema)
    requires |MirrorFor(f, r).time| == |f.ClientNames()|
    requires Shows(known, f.ClientNames(), MirrorFor(f, r).time, shown)
    ensures Faithful(f, r.core, shown)
  {
    var odd := ActiveOf(f.ClientNames(), MirrorFor(f, r).time);
    forall n ensures n in odd <==> n in f.tracked && n in r.core.active {
      ClientActive(f, r, n);
    }
    hide MirrorFor, ActiveOf, Closed;
    if known.Some? {
      assert Elems(odd) <= Elems(r.core.active);
      assert Elems(odd) <= Elems(shown) <= Elems(r.core.active);
      assert forall n :: n in shown ==> n in Elems(shown);
      assert forall n :: n in odd ==> n in Elems(odd);
    }
  }

  /** A client in sync that tracks all states shows exactly the active states. */
  lemma FullMirror(f: Feed, schema: Schema, r: Reading, known: Option<Schema>, shown: seq<Name>)
    requires f.Valid() && Parity(r.core) && Known(schema, r.core) && Closed(schema, Elems(r.core.active))
    requires known == None || known == Some(schema)
    requires |MirrorFor(f, r).time| == |f.ClientNames()|
    requires Shows(known, f.ClientNames(), MirrorFor(f, r).time, shown)
    requires forall n :: n in schema ==> n in f.tracked
    ensures Elems(shown) == Elems(r.core.active)
  {
    hide Shows, MirrorFor, Closed, Parity;
    MirrorIsFaithful(f, schema, r, known, shown);
  }

  // ----- whole runs

  /** Between two readings every counter grew by less than its width. */
  ghost predicate Slow(a: Reading, b: Reading) {
    && (forall n :: Tick(b.core.clock, n) < Tick(a.core.clock, n) + 0x1_0000_0000)
    && a.queueTick <= b.queueTick < a.queueTick + 0x1_0000
    && a.machTick <= b.machTick < a.machTick + 0x100
    && b.machTick < 0x1_0000_0000
  }

  /** Ticks in the collected data are ticks of the source. */
  lemma DataTick(f: Feed, a: Reading, b: Reading, p: nat)
    requires f.Valid() && p < |DataOf(f, a).mTime|
    ensures |DataOf(f, b).mTime| == |DataOf(f, a).mTime| == |f.ClientNames()|
    ensures DataOf(f, a).mTime[p] == Tick(a.core.clock, f.ClientNames()[p])
    ensures DataOf(f, b).mTime[p] == Tick(b.core.clock, f.ClientNames()[p])
  {
    IdxsFacts(f);
    hide NoDup, Inside, IndexOf;
  }

  lemma DataPair(f: Feed, a: Reading, b: Reading)
    requires f.Valid() && a.machTick <= b.machTick < 0x1_0000_0000
    ensures Collected(f.sync, DataOf(f, b)) && Pair(f.sync, DataOf(f, b), DataOf(f, a))
  {
    IdxsFacts(f);
    hide NoDup, Sum, Checksum, SumAt;
    NoDupInside(f.Idxs(), |f.names|);
    CollectIsCollected(f.sync, TimeOf(f.names, b.core.clock), f.Idxs(), b.queueTick, b.machTick);
  }

  lemma SlowFits(f: Feed, a: Reading, b: Reading)
    requires f.Valid() && Slow(a, b) && NotBefore(a.core, b.core)
    ensures Collected(f.sync, DataOf(f, b)) && Pair(f.sync, DataOf(f, b), DataOf(f, a))
    ensures Fits(f.sync, DataOf(f, b), DataOf(f, a))
  {
    hide Collected, Positions, NotBefore, IndexesOf, Shaped, Filter, Checksum, TimeOf;
    DataPair(f, a, b);
    var now, last := DataOf(f, b).mTime, DataOf(f, a).mTime;
    forall p | 0 <= p < |now| ensures last[p] <= now[p] < last[p] + 0x1_0000_0000 {
      DataTick(f, a, b, p);
      GrewAt(a.core, b.core, f.ClientNames()[p]);
    }
    MachGrew(a.machTick, b.machTick);
  }

  lemma MachGrew(a: nat, b: nat)
    requires a <= b < a + 0x100
    ensures U32(b as int - a as int) < 0x100
  {
  }

  lemma GrewAt(a: Core, b: Core, n: Name)
    requires NotBefore(a, b)
    ensures Tick(a.clock, n) <= Tick(b.clock, n)
  {
  }

  /** Readings of a running source, each some events after the one before. */
  ghost predicate Observed(res: Resolver, last: Reading, segments: seq<seq<Event>>, readings: seq<Reading>)
    decreases |readings|
  {
    |segments| == |readings| && (
      readings == [] || (
        && EventsKnown(res.schema, segments[0]) && FailsSafely(res, last.core, segments[0])
        && readings[0].core == Run(res, last.core, segments[0])
        && Slow(last, readings[0])
        && Observed(res, readings[0], segments[1..], readings[1..])))
  }

  function DataOfAll(f: Feed, readings: seq<Reading>): seq<Data>
    requires forall n :: n in f.tracked ==> n in f.names
  {
    seq(|readings|, i requires 0 <= i < |readings| => DataOf(f, readings[i]))
  }

  ghost predicate Consistent(schema: Schema, core: Core) {
    Parity(core) && Known(schema, core) && Closed(schema, Elems(core.active))
  }

  lemma RunConsistent(res: Resolver, core: Core, events: seq<Event>)
    requires Sound(res) && EventsKnown(res.schema, events) && FailsSafely(res, core, events)
    requires Consistent(res.schema, core)
    ensures Consistent(res.schema, Run(res, core, events)) && NotBefore(core, Run(res, core, events))
  {
    hide Run, Sound, Parity, Known, Closed, NotBefore, EventsKnown, FailsSafely;
    RunKeeps(res, core, events);
    RunKeepsClosed(res, core, events);
  }

  lemma {:induction false} ReadingsFit(
    res: Resolver, f: Feed, last: Reading, segments: seq<seq<Event>>, readings: seq<Reading>)
    requires Sound(res) && f.Valid() && Consistent(res.schema, last.core)
    requires Observed(res, last, segments, readings)
    ensures FittingChain(f.sync, f.Idxs(), DataOf(f, last), DataOfAll(f, readings))
    ensures forall i :: 0 <= i < |readings| ==> Consistent(res.schema, readings[i].core)
    decreases |readings|
  {
    hide Run, Sound, Consistent, Slow, NotBefore, EventsKnown, FailsSafely, Collected, Pair, Fits;
    if readings != [] {
      var rest := readings[1..];
      RunConsistent(res, last.core, segments[0]);
      SlowFits(f, last, readings[0]);
      ReadingsFit(res, f, readings[0], segments[1..], rest);
      assert DataOfAll(f, readings)[1..] == DataOfAll(f, rest);
    }
  }

  /** One batch of updates, each relative to the reading before it. Whatever the source did
      meanwhile, a client that was in sync with the last push visits the tracked clock of
      every reading, and what it shows at each of them is faithful to the source at that
      moment, or exact if it tracks all states. */
  lemma RunIsMirrored(
    res: Resolver, f: Feed, last: Reading, segments: seq<seq<Event>>, readings: seq<Reading>,
    known: Option<Schema>, i: nat, shown: seq<Name>)
    requires Sound(res) && f.Valid() && Consistent(res.schema, last.core)
    requires Observed(res, last, segments, readings)
    requires known == None || known == Some(res.schema)
    requires i < |readings|
    ensures var updates := EncodeAll(f.sync, DataOf(f, last), DataOfAll(f, readings));
            && (forall k :: 0 <= k < |updates| ==> |updates[k].indexes| == |updates[k].ticks|)
            && var visits := Visits(updates, MirrorFor(f, last));
               && |visits| == |readings|
               && visits[i] == MirrorFor(f, readings[i])
               && |visits[i].time| == |f.ClientNames()|
               && (Shows(known, f.ClientNames(), visits[i].time, shown) ==>
                     && Faithful(f, readings[i].core, shown)
                     && ((forall n :: n in res.schema ==> n in f.tracked) ==>
                           Elems(shown) == Elems(readings[i].core.active)))
  {
    hide Sound, DataOf, Visits, Shows, Faithful, Observed;
    ReadingsFit(res, f, last, segments, readings);
    BatchVisitsAll(f.sync, f.Idxs(), DataOf(f, last), DataOfAll(f, readings));
    ClientTicks(f, readings[i]);
    if Shows(known, f.ClientNames(), MirrorFor(f, readings[i]).time, shown) {
      MirrorIsFaithful(f, res.schema, readings[i], known, shown);
      if forall n :: n in res.schema ==> n in f.tracked {
        FullMirror(f, res.schema, readings[i], known, shown);
      }
    }
  }
}
