/**
 * The cycle-bit rings through which driver and xHCI controller pass transfer request blocks,
 * sections 4.9.3 and 4.9.4 of the xHCI specification. Producer and consumer share the slots and nothing else.
 */
module Xhci {
  import opened Storage

  const RING_SIZE: nat := 16

  datatype Trb = Trb(parameter: nat, status: nat, control: nat)

  const ZERO: Trb := Trb(0, 0, 0)

  /** Bit 0 of the control word. */
  predicate CycleOf(t: Trb) { t.control % 2 == 1 }

  /** The block with bit 0 of its control word set or cleared. */
  function Stamped(t: Trb, cycle: bool): Trb {
    t.(control := t.control / 2 * 2 + if cycle then 1 else 0)
  }

  /** Equal apart from bit 0 of the control word. */
  predicate Same(a: Trb, b: Trb) {
    a.parameter == b.parameter && a.status == b.status && a.control / 2 == b.control / 2
  }

  lemma StampIsCycle(t: Trb, cycle: bool)
    ensures CycleOf(Stamped(t, cycle)) == cycle && Same(Stamped(t, cycle), t)
  {
  }

  // ----- one side each

  /** Where one side of the ring stands. */
  datatype Cursor = Cursor(index: nat, cycle: bool)

  function Advance(c: Cursor): Cursor {
    if c.index + 1 >= RING_SIZE then Cursor(0, !c.cycle) else Cursor(c.index + 1, c.cycle)
  }

  /** The producer: it stamps the block with its cycle and writes it into the next slot. */
  class CommandRing {
    const trbs: array<Trb>
    var enqueueIndex: nat
    var cycleBit: bool

    ghost predicate Valid()
      reads this
    {
      trbs.Length == RING_SIZE && enqueueIndex < RING_SIZE
    }

    ghost function At(): Cursor
      reads this
    {
      Cursor(enqueueIndex, cycleBit)
    }

    constructor (trbs: array<Trb>)
      requires trbs.Length == RING_SIZE
      ensures Valid() && this.trbs == trbs && At() == START
    {
      this.trbs, enqueueIndex, cycleBit := trbs, 0, true;
    }

    method Push(trb: Trb) returns (index: nat)
      requires Valid()
      modifies this, trbs
      ensures Valid() && index == old(enqueueIndex)
      ensures trbs[..] == old(trbs[..])[old(enqueueIndex) := Stamped(trb, old(cycleBit))]
      ensures trbs[index].parameter == trb.parameter && trbs[index].status == trb.status
      ensures trbs[index].control / 2 == trb.control / 2
      ensures trbs[index].control % 2 == if old(cycleBit) then 1 else 0
      ensures At() == Advance(old(At()))
      ensures forall at :: Ring(trbs[..], At(), at) == Next(Ring(old(trbs[..]), old(At()), at), Step.Push(trb))
    {
      index := enqueueIndex;
      var control := if cycleBit then trb.control / 2 * 2 + 1 else trb.control / 2 * 2;
      trbs[index] := trb.(control := control);
      enqueueIndex := enqueueIndex + 1;
      if enqueueIndex >= RING_SIZE {
        enqueueIndex := 0;
        cycleBit := !cycleBit;
      }
    }
  }

  /** The consumer: a slot is fresh when its cycle bit is the one expected on this lap. */
  class EventRing {
    const trbs: array<Trb>
    var dequeueIndex: nat
    var cycleBit: bool

    ghost predicate Valid()
      reads this
    {
      trbs.Length == RING_SIZE && dequeueIndex < RING_SIZE
    }

    ghost function At(): Cursor
      reads this
    {
      Cursor(dequeueIndex, cycleBit)
    }

    constructor (trbs: array<Trb>)
      requires trbs.Length == RING_SIZE
      ensures Valid() && this.trbs == trbs && At() == START
    {
      this.trbs, dequeueIndex, cycleBit := trbs, 0, true;
    }

    predicate HasEvent()
      requires Valid()
      reads this, trbs
    {
      (trbs[dequeueIndex].control % 2 != 0) == cycleBit
    }

    method Pop() returns (r: Option<Trb>)
      requires Valid()
      modifies this
      ensures Valid()
      ensures r == Output(trbs[..], old(At()))
      ensures At() == if r.Some? then Advance(old(At())) else old(At())
      ensures forall at :: Ring(trbs[..], at, At()) == Next(Ring(trbs[..], at, old(At())), Step.Pop)
    {
      if !HasEvent() {
        return None;
      }
      var trb := trbs[dequeueIndex];
      dequeueIndex := dequeueIndex + 1;
      if dequeueIndex >= RING_SIZE {
        dequeueIndex := 0;
        cycleBit := !cycleBit;
      }
      r := Some(trb);
    }

    method Clear()
      requires Valid()
      modifies trbs
      ensures forall i :: 0 <= i < RING_SIZE ==> trbs[i] == ZERO
    {
      forall i | 0 <= i < trbs.Length {
        trbs[i] := ZERO;
      }
    }
  }

  // ----- both sides

  const START: Cursor := Cursor(0, true)

  /** The shared slots, and where each side stands. */
  datatype Ring = Ring(slots: seq<Trb>, producer: Cursor, consumer: Cursor)

  const FRESH: Ring := Ring(seq(RING_SIZE, _ => ZERO), START, START)

  predicate IsFresh(slots: seq<Trb>, at: Cursor) { at.index < |slots| && CycleOf(slots[at.index]) == at.cycle }

  function Output(slots: seq<Trb>, at: Cursor): Option<Trb> {
    if IsFresh(slots, at) then Some(slots[at.index]) else None
  }

  datatype Step = Push(trb: Trb) | Pop

  function Next(r: Ring, s: Step): Ring {
    match s
    case Push(t) =>
      if r.producer.index < |r.slots| then
        Ring(r.slots[r.producer.index := Stamped(t, r.producer.cycle)], Advance(r.producer), r.consumer)
      else r
    case Pop => if IsFresh(r.slots, r.consumer) then r.(consumer := Advance(r.consumer)) else r
  }

  /** What the pops of an interleaving return. */
  function Outputs(r: Ring, steps: seq<Step>): seq<Option<Trb>>
    decreases steps
  {
    if steps == [] then []
    else (if steps[0].Pop? then [Output(r.slots, r.consumer)] else []) + Outputs(Next(r, steps[0]), steps[1..])
  }

  function Final(r: Ring, steps: seq<Step>): Ring
    decreases steps
  {
    if steps == [] then r else Final(Next(r, steps[0]), steps[1..])
  }

  /** The same interleaving on an unbounded queue. */
  function QueueOutputs(q: seq<Trb>, steps: seq<Step>): seq<Option<Trb>>
    decreases steps
  {
    if steps == [] then []
    else
      match steps[0]
      case Push(t) => QueueOutputs(q + [t], steps[1..])
      case Pop => if q == [] then [None] + QueueOutputs(q, steps[1..])
          else [Some(q[0])] + QueueOutputs(q[1..], steps[1..])
  }

  function QueueAfter(q: seq<Trb>, steps: seq<Step>): seq<Trb>
    decreases steps
  {
    if steps == [] then q
    else
      match steps[0]
      case Push(t) => QueueAfter(q + [t], steps[1..])
      case Pop => QueueAfter(if q == [] then q else q[1..], steps[1..])
  }

  /** Never more than a ring full of blocks is outstanding. */
  ghost predicate Paced(outstanding: nat, steps: seq<Step>)
    decreases steps
  {
    steps == [] ||
    match steps[0]
    case Push(_) => outstanding < RING_SIZE && Paced(outstanding + 1, steps[1..])
    case Pop => Paced(if outstanding > 0 then outstanding - 1 else 0, steps[1..])
  }

  /** The place of block number `k`, over all laps. */
  function Place(k: nat): Cursor { Cursor(k % RING_SIZE, k / RING_SIZE % 2 == 0) }

  lemma AdvancePlace(k: nat)
    ensures Advance(Place(k)) == Place(k + 1) && Place(k).index < RING_SIZE
  {
  }

  /** A slot is met again one lap later, with the other cycle, and not before. */
  lemma PlaceAgain(k: nat, n: nat)
    requires k <= n <= k + RING_SIZE
    ensures Place(n).index == Place(k).index <==> n == k || n == k + RING_SIZE
    ensures Place(k + RING_SIZE) == Cursor(Place(k).index, !Place(k).cycle)
  {
  }

  /**
   * After `popped` pops the blocks `queue` are outstanding: they stand in the next slots with
   * their cycle, and every other slot holds a block of the lap before, or zero on the first lap.
   */
  ghost predicate Holds(r: Ring, popped: nat, queue: seq<Trb>) {
    && |r.slots| == RING_SIZE && |queue| <= RING_SIZE
    && r.consumer == Place(popped) && r.producer == Place(popped + |queue|)
    && (forall k: nat :: Place(k).index < RING_SIZE)
    && (forall k: nat :: popped <= k < popped + |queue| ==>
        r.slots[Place(k).index] == Stamped(queue[k - popped], Place(k).cycle))
    && (forall k: nat :: popped + |queue| <= k < popped + RING_SIZE ==>
        CycleOf(r.slots[Place(k).index]) != Place(k).cycle)
  }

  lemma FreshHolds()
    ensures Holds(FRESH, 0, [])
  {
    assert forall k: nat :: k < RING_SIZE ==> Place(k) == Cursor(k, true);
  }

  /** The consumer sees a block exactly when one is outstanding, and it is the oldest. */
  lemma SeesOldest(r: Ring, popped: nat, queue: seq<Trb>)
    requires Holds(r, popped, queue)
    ensures IsFresh(r.slots, r.consumer) <==> queue != []
    ensures queue != [] ==> Output(r.slots, r.consumer) == Some(Stamped(queue[0], r.consumer.cycle))
  {
    hide Place, CycleOf, Stamped, Same;
    assert r.consumer == Place(popped);
    if queue != [] {
      StampIsCycle(queue[0], r.consumer.cycle);
    }
  }

  lemma PushHolds(r: Ring, popped: nat, queue: seq<Trb>, t: Trb)
    requires Holds(r, popped, queue) && |queue| < RING_SIZE
    ensures Holds(Next(r, Push(t)), popped, queue + [t])
  {
    hide Place, CycleOf, Stamped, Advance;
    var at := popped + |queue|;
    AdvancePlace(at);
    forall k: nat | popped <= k < popped + RING_SIZE && k != at
      ensures Place(k).index != Place(at).index
    {
      PlaceAgain(if k < at then k else at, if k < at then at else k);
    }
  }

  lemma PopHolds(r: Ring, popped: nat, queue: seq<Trb>)
    requires Holds(r, popped, queue)
    ensures queue == [] ==> Next(r, Pop) == r
    ensures queue != [] ==> Holds(Next(r, Pop), popped + 1, queue[1..])
  {
    SeesOldest(r, popped, queue);
    hide Place, CycleOf, Stamped, Advance, IsFresh;
    if queue != [] {
      AdvancePlace(popped);
      PlaceAgain(popped, popped);
      StampIsCycle(queue[0], Place(popped).cycle);
      assert r.slots[Place(popped).index] == Stamped(queue[0], Place(popped).cycle);
    }
  }

  ghost predicate SameOutputs(a: seq<Option<Trb>>, b: seq<Option<Trb>>) {
    |a| == |b| && forall i :: 0 <= i < |a| ==>
        (a[i].Some? <==> b[i].Some?) && (a[i].Some? ==> Same(a[i].value, b[i].value))
  }

  lemma SameOutputsCons(x: Option<Trb>, y: Option<Trb>, a: seq<Option<Trb>>, b: seq<Option<Trb>>)
    requires SameOutputs(a, b) && (x.Some? <==> y.Some?) && (x.Some? ==> Same(x.value, y.value))
    ensures SameOutputs([x] + a, [y] + b)
  {
    hide Same;
  }

  lemma Unfolded(r: Ring, q: seq<Trb>, steps: seq<Step>)
    ensures steps == [] ==>
              Outputs(r, steps) == [] && QueueOutputs(q, steps) == [] && Final(r, steps) == r && QueueAfter(q, steps)
                  == q
    ensures steps != [] ==>
              var s, rest := steps[0], steps[1..];
              var left := if q == [] then q else q[1..];
              && Outputs(r, steps)
                 == (if s.Pop? then [Output(r.slots, r.consumer)] + Outputs(Next(r, s), rest)
                     else Outputs(Next(r, s), rest))
              && Final(r, steps) == Final(Next(r, s), rest)
              && QueueAfter(q, steps) == QueueAfter(if s.Push? then q + [s.trb] else left, rest)
              && QueueOutputs(q, steps)
                 == if s.Push? then QueueOutputs(q + [s.trb], rest)
                    else [if q == [] then None else Some(q[0])] + QueueOutputs(left, rest)
    ensures steps != [] && Paced(|q|, steps) ==>
              if steps[0].Push? then |q| < RING_SIZE && Paced(|q| + 1, steps[1..])
              else Paced(if |q| > 0 then |q| - 1 else 0, steps[1..])
  {
    hide Output, Next;
  }

  /**
   * Over any number of laps and any interleaving with at most a ring full outstanding, the ring
   * is a first-in-first-out queue: every pop returns what the queue would, apart from the cycle bit.
   */
  lemma {:induction false} RingIsQueue(r: Ring, popped: nat, queue: seq<Trb>, steps: seq<Step>)
    requires Holds(r, popped, queue) && Paced(|queue|, steps)
    ensures SameOutputs(Outputs(r, steps), QueueOutputs(queue, steps))
    ensures IsFresh(Final(r, steps).slots, Final(r, steps).consumer) <==> QueueAfter(queue, steps) != []
    decreases steps
  {
    hide *;
    SeesOldest(r, popped, queue);
    Unfolded(r, queue, steps);
    if steps == [] {
      NoOutputs();
    } else if steps[0].Push? {
      PushHolds(r, popped, queue, steps[0].trb);
      RingIsQueue(Next(r, steps[0]), popped, queue + [steps[0].trb], steps[1..]);
    } else {
      PopHolds(r, popped, queue);
      OutputIs(r.slots, r.consumer);
      if queue == [] {
        RingIsQueue(r, popped, queue, steps[1..]);
        SameOutputsCons(None, None, Outputs(r, steps[1..]), QueueOutputs(queue, steps[1..]));
      } else {
        var left := Next(r, Pop);
        StampIsCycle(queue[0], r.consumer.cycle);
        RingIsQueue(left, popped + 1, queue[1..], steps[1..]);
        SameOutputsCons(Output(r.slots, r.consumer), Some(queue[0]), Outputs(left, steps[1..]),
                        QueueOutputs(queue[1..], steps[1..]));
      }
    }
  }

  lemma NoOutputs()
    ensures SameOutputs([], [])
  {
  }

  lemma OutputIs(slots: seq<Trb>, at: Cursor)
    ensures Output(slots, at).Some? <==> IsFresh(slots, at)
  {
  }

  /** The blocks pushed in an interleaving, in order. */
  function PushedIn(steps: seq<Step>): seq<Trb> {
    if steps == [] then []
    else if steps[0].Push? then [steps[0].trb] + PushedIn(steps[1..]) else PushedIn(steps[1..])
  }

  function Delivered(outputs: seq<Option<Trb>>): seq<Trb> {
    if outputs == [] then []
    else if outputs[0].Some? then [outputs[0].value] + Delivered(outputs[1..]) else Delivered(outputs[1..])
  }

  /** What a queue delivers, and what is left in it, is what was put in. */
  lemma {:induction false} QueueKeepsAll(q: seq<Trb>, steps: seq<Step>)
    ensures Delivered(QueueOutputs(q, steps)) + QueueAfter(q, steps) == q + PushedIn(steps)
    decreases steps
  {
    hide *;
    Unfolded(FRESH, q, steps);
    if steps == [] {
      DeliveredIs([]);
      NothingPushed();
    } else {
      var rest := steps[1..];
      PushedFirst(steps);
      if steps[0].Push? {
        QueueKeepsAll(q + [steps[0].trb], rest);
        assert q + [steps[0].trb] + PushedIn(rest) == q + PushedIn(steps);
      } else {
        DeliveredIs(QueueOutputs(q, steps));
        var left := if q == [] then q else q[1..];
        var later, after := Delivered(QueueOutputs(left, rest)), QueueAfter(left, rest);
        QueueKeepsAll(left, rest);
        assert QueueOutputs(q, steps)[1..] == QueueOutputs(left, rest);
        if q != [] {
          Regroup(q[0], later, after, left, PushedIn(rest));
          assert [q[0]] + left == q;
        }
      }
    }
  }

  lemma DeliveredIs(outputs: seq<Option<Trb>>)
    ensures outputs == [] ==> Delivered(outputs) == []
    ensures outputs != [] ==>
              Delivered(outputs) == (if outputs[0].Some? then [outputs[0].value] else []) + Delivered(outputs[1..])
  {
  }

  lemma Regroup(x: Trb, a: seq<Trb>, b: seq<Trb>, c: seq<Trb>, d: seq<Trb>)
    requires a + b == c + d
    ensures ([x] + a) + b == ([x] + c) + d
  {
    assert ([x] + a) + b == [x] + (a + b);
    assert ([x] + c) + d == [x] + (c + d);
  }

  lemma NothingPushed()
    ensures PushedIn([]) == []
  {
  }

  lemma PushedFirst(steps: seq<Step>)
    requires steps != []
    ensures PushedIn(steps) == (if steps[0].Push? then [steps[0].trb] else []) + PushedIn(steps[1..])
  {
  }

  lemma {:induction false} SameDelivered(a: seq<Option<Trb>>, b: seq<Option<Trb>>)
    requires SameOutputs(a, b)
    ensures |Delivered(a)| == |Delivered(b)|
    ensures forall i :: 0 <= i < |Delivered(a)| ==> Same(Delivered(a)[i], Delivered(b)[i])
    decreases a
  {
    if a != [] {
      hide Same;
      assert forall i :: 0 <= i < |a| - 1 ==> a[1..][i] == a[i + 1] && b[1..][i] == b[i + 1];
      SameDelivered(a[1..], b[1..]);
    }
  }

  /** The popped blocks are, in order, the first of the pushed ones; no block is lost, repeated or overtaken. */
  lemma PoppedIsPrefix(steps: seq<Step>)
    requires Paced(0, steps)
    ensures |Delivered(Outputs(FRESH, steps))| <= |PushedIn(steps)|
    ensures forall i :: 0 <= i < |Delivered(Outputs(FRESH, steps))| ==>
              var (popped, pushed) := (Delivered(Outputs(FRESH, steps))[i], PushedIn(steps)[i]);
              && popped.parameter == pushed.parameter && popped.status == pushed.status
              && popped.control / 2 == pushed.control / 2
    ensures IsFresh(Final(FRESH, steps).slots, Final(FRESH, steps).consumer)
       <==> |Delivered(Outputs(FRESH, steps))| < |PushedIn(steps)|
  {
    hide Holds, IsFresh, Delivered, Outputs, Final, PushedIn, Paced;
    FreshHolds();
    RingIsQueue(FRESH, 0, [], steps);
    SameDelivered(Outputs(FRESH, steps), QueueOutputs([], steps));
    QueueKeepsAll([], steps);
    assert [] + PushedIn(steps) == PushedIn(steps);
  }

  /**
   * The bound is exact: one push too many overwrites the oldest block with the other cycle bit,
   * and the consumer sees nothing at all.
   */
  lemma OverrunHidesAll(r: Ring, popped: nat, queue: seq<Trb>, t: Trb)
    requires Holds(r, popped, queue)
    ensures var later := Next(r, Push(t)); IsFresh(later.slots, later.consumer) <==> |queue| < RING_SIZE
  {
    if |queue| < RING_SIZE {
      PushHolds(r, popped, queue, t);
      SeesOldest(Next(r, Push(t)), popped, queue + [t]);
    } else {
      StampIsCycle(t, r.producer.cycle);
      PlaceAgain(popped, popped);
    }
  }
}
