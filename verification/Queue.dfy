/** Queue ticks: appended mutations carry the tick they will be processed at. */
module Queue {
  import opened Transitions

  /** The queue ticks found in a queue, front to back; prepended items have none. */
  function Ticks(q: seq<Mutation>): seq<nat> {
    if q == [] then []
    else (if q[0].queueTick > 0 then [q[0].queueTick] else []) + Ticks(q[1..])
  }

  /** The i-th ticked item carries `tick` + i, and `pending` counts the ticked items. */
  ghost predicate Aligned(q: seq<Mutation>, tick: nat, pending: nat) {
    && tick >= 1
    && |Ticks(q)| == pending
    && forall i :: 0 <= i < pending ==> Ticks(q)[i] == tick + 1 + i
  }

  lemma {:induction false} TicksAppend(q: seq<Mutation>, mut: Mutation)
    ensures Ticks(q + [mut]) == Ticks(q) + if mut.queueTick > 0 then [mut.queueTick] else []
  {
    if q != [] {
      TicksAppend(q[1..], mut);
      assert (q + [mut])[1..] == q[1..] + [mut];
    } else {
      assert (q + [mut])[1..] == [];
    }
  }

  lemma AppendAligned(q: seq<Mutation>, tick: nat, pending: nat, mut: Mutation)
    requires Aligned(q, tick, pending) && mut.queueTick == pending + 1 + tick
    ensures Aligned(q + [mut], tick, pending + 1)
  {
    TicksAppend(q, mut);
  }

  /** Prepending keeps the ticks aligned if and only if the mutation carries none. */
  lemma PrependAligned(q: seq<Mutation>, tick: nat, pending: nat, mut: Mutation)
    requires Aligned(q, tick, pending)
    ensures Aligned([mut] + q, tick, pending) <==> mut.queueTick == 0
  {
    assert ([mut] + q)[1..] == q;
  }

  /** Taking a ticked item advances the clock of the queue to exactly its tick. */
  lemma ShiftAligned(q: seq<Mutation>, tick: nat, pending: nat)
    requires Aligned(q, tick, pending) && q != []
    ensures q[0].queueTick > 0 ==> q[0].queueTick == tick + 1 && Aligned(q[1..], tick + 1, pending - 1)
    ensures q[0].queueTick == 0 ==> Aligned(q[1..], tick, pending)
  {
    var rest := Ticks(q[1..]);
    if q[0].queueTick > 0 {
      assert Ticks(q) == [q[0].queueTick] + rest;
      assert Ticks(q)[0] == tick + 1;
      forall i | 0 <= i < pending - 1 ensures rest[i] == tick + 2 + i {
        assert Ticks(q)[i + 1] == rest[i];
      }
    } else {
      assert Ticks(q) == rest;
    }
  }

  /** An upper bound on the transitions a queue can cause: each mutation that is not
      auto may be followed by one auto mutation. */
  function Weight(q: seq<Mutation>): nat {
    if q == [] then 0 else (if q[0].isAuto then 1 else 2) + Weight(q[1..])
  }

  lemma {:induction false} WeightBound(q: seq<Mutation>)
    ensures Weight(q) <= 2 * |q|
  {
    if q != [] {
      WeightBound(q[1..]);
    }
  }

  lemma WeightPrepend(mut: Mutation, q: seq<Mutation>)
    ensures Weight([mut] + q) == (if mut.isAuto then 1 else 2) + Weight(q)
  {
  }

  // ----- every interleaving of queue operations

  datatype QueueOp = Append(mut: Mutation) | Prepend(mut: Mutation) | Shift

  datatype QueueState = QueueState(items: seq<Mutation>, tick: nat, pending: nat)

  function Apply(q: QueueState, op: QueueOp): QueueState {
    match op
    case Append(mut) =>
      QueueState(q.items + [mut.(queueTick := q.pending + 1 + q.tick)], q.tick, q.pending + 1)
    case Prepend(mut) => q.(items := [mut.(queueTick := 0)] + q.items)
    case Shift =>
      if q.items == [] then q
      else if q.items[0].queueTick > 0 && q.pending > 0 then
        QueueState(q.items[1..], q.tick + 1, q.pending - 1)
      else q.(items := q.items[1..])
  }

  function ApplyAll(q: QueueState, ops: seq<QueueOp>): QueueState {
    if ops == [] then q else Apply(ApplyAll(q, ops[..|ops| - 1]), ops[|ops| - 1])
  }

  lemma ApplyAligned(q: QueueState, op: QueueOp)
    requires Aligned(q.items, q.tick, q.pending)
    ensures var r := Apply(q, op); Aligned(r.items, r.tick, r.pending)
  {
    match op
    case Append(mut) => AppendAligned(q.items, q.tick, q.pending, mut.(queueTick := q.pending + 1 + q.tick));
    case Prepend(mut) => PrependAligned(q.items, q.tick, q.pending, mut.(queueTick := 0));
    case Shift => if q.items != [] { ShiftAligned(q.items, q.tick, q.pending); }
  }

  lemma {:induction false} AllAligned(ops: seq<QueueOp>)
    ensures var q := ApplyAll(QueueState([], 1, 0), ops); Aligned(q.items, q.tick, q.pending)
  {
    if ops != [] {
      AllAligned(ops[..|ops| - 1]);
      ApplyAligned(ApplyAll(QueueState([], 1, 0), ops[..|ops| - 1]), ops[|ops| - 1]);
    }
  }

  /** From a fresh queue, every interleaving of appends, prepends and shifts keeps the
      ticks aligned; a shifted item was due exactly then, and an appended one gets a
      tick of at least 2, which is neither Executed (0) nor Canceled (1). */
  lemma QueueTicksAlign(ops: seq<QueueOp>, mut: Mutation)
    ensures var q := ApplyAll(QueueState([], 1, 0), ops);
            var appended := Apply(q, Append(mut)).items;
            && Aligned(q.items, q.tick, q.pending)
            && appended[|appended| - 1].queueTick >= 2
            && (q.items != [] && q.items[0].queueTick > 0 ==> Apply(q, Shift).tick == q.items[0].queueTick)
  {
    AllAligned(ops);
    var q := ApplyAll(QueueState([], 1, 0), ops);
    if q.items != [] {
      ShiftAligned(q.items, q.tick, q.pending);
    }
  }
}
