/**
 The keyboard ring between the interrupt handler that produces key events and the task that
 consumes them, step by step: every load and store of either side is a step of its own, and a
 load of the other side's index may return any value it has had since the last look.
 */
module KeyRing {
  const RING_LEN: nat := 256

  /** Where each side stands in its function, with what it holds in registers. */
  datatype Producer = Idle | Loaded(value: nat, head: nat) | Writing(value: nat, head: nat) | Publishing(value: nat, head: nat)
  datatype Consumer = Resting | Looking(tail: nat) | Reading(tail: nat) | Advancing(tail: nat, got: nat)

  /**
   The shared slots and indices, the two sides, and what the history of the run adds up to:
   the values accepted and popped so far, and how much of the other side each one has seen.
   */
  datatype Ring = Ring(slots: seq<nat>, head: nat, tail: nat, producer: Producer, consumer: Consumer,
                       accepted: seq<nat>, popped: seq<nat>, seenTail: nat, seenHead: nat)

  datatype Step =
    | LoadHead(value: nat)
    | LoadTail(count: nat)
    | StoreSlot
    | StoreHead
    | LoadOwnTail
    | LoadTheirHead(count: nat)
    | LoadSlot
    | StoreTail

  /** A load may be stale, but never goes back behind an earlier one. */
  predicate Enabled(r: Ring, step: Step) {
    match step
    case LoadHead(_) => r.producer.Idle?
    case LoadTail(n) => r.producer.Loaded? && r.seenTail <= n <= |r.popped|
    case StoreSlot => r.producer.Writing?
    case StoreHead => r.producer.Publishing?
    case LoadOwnTail => r.consumer.Resting?
    case LoadTheirHead(n) => r.consumer.Looking? && r.seenHead <= n <= |r.accepted|
    case LoadSlot => r.consumer.Reading?
    case StoreTail => r.consumer.Advancing?
  }

  function Next(r: Ring, step: Step): Ring
    requires Enabled(r, step) && Shape(r)
  {
    match step
    case LoadHead(v) => r.(producer := Loaded(v, r.head))
    case LoadTail(n) =>
      var p := r.producer;
      if (p.head + 1) % RING_LEN != n % RING_LEN
      then r.(producer := Writing(p.value, p.head), seenTail := n)
      else r.(producer := Idle, seenTail := n)
    case StoreSlot =>
      var p := r.producer;
      r.(slots := r.slots[p.head := p.value], producer := Publishing(p.value, p.head))
    case StoreHead =>
      var p := r.producer;
      r.(head := (p.head + 1) % RING_LEN, accepted := r.accepted + [p.value], producer := Idle)
    case LoadOwnTail => r.(consumer := Looking(r.tail))
    case LoadTheirHead(n) =>
      if r.consumer.tail == n % RING_LEN
      then r.(consumer := Resting, seenHead := n)
      else r.(consumer := Reading(r.consumer.tail), seenHead := n)
    case LoadSlot => r.(consumer := Advancing(r.consumer.tail, r.slots[r.consumer.tail]))
    case StoreTail =>
      var c := r.consumer;
      r.(tail := (c.tail + 1) % RING_LEN, popped := r.popped + [c.got], consumer := Resting)
  }

  predicate Shape(r: Ring) {
    && |r.slots| == RING_LEN
    && (r.producer.Idle? || r.producer.head < RING_LEN)
    && (r.consumer.Resting? || r.consumer.tail < RING_LEN)
  }

  /** The indices are the counts of accepted and popped values, and neither side overtakes the other. */
  predicate Counted(r: Ring) {
    && |r.popped| <= r.seenHead <= |r.accepted|
    && r.seenTail <= |r.popped| && |r.accepted| - r.seenTail < RING_LEN
    && r.head == |r.accepted| % RING_LEN && r.tail == |r.popped| % RING_LEN
    && (r.producer.Idle? || r.producer.head == r.head)
    && (r.consumer.Resting? || r.consumer.tail == r.tail)
    && (r.producer.Writing? || r.producer.Publishing? ==> |r.accepted| + 1 - r.seenTail < RING_LEN)
    && (r.consumer.Reading? || r.consumer.Advancing? ==> |r.popped| < r.seenHead)
  }

  /** Every value between the two ends sits in its slot, and what was popped is what was accepted. */
  predicate Kept(r: Ring)
    requires Shape(r)
  {
    && (forall k :: |r.popped| <= k < |r.accepted| ==> r.slots[k % RING_LEN] == r.accepted[k])
    && r.popped <= r.accepted
    && (r.producer.Publishing? ==> r.slots[r.producer.head] == r.producer.value)
    && (r.consumer.Advancing? && |r.popped| < |r.accepted| ==> r.consumer.got == r.accepted[|r.popped|])
  }

  predicate Inv(r: Ring) {
    Shape(r) && Counted(r) && Kept(r)
  }

  function Start(): Ring {
    Ring(seq(RING_LEN, i => 0), 0, 0, Idle, Resting, [], [], 0, 0)
  }

  lemma StartInv()
    ensures Inv(Start())
  {
  }

  lemma ModNext(x: nat)
    ensures (x % RING_LEN + 1) % RING_LEN == (x + 1) % RING_LEN
  {
  }

  lemma ModFull(h: nat, n: nat)
    requires n <= h < n + RING_LEN
    ensures (h % RING_LEN + 1) % RING_LEN == n % RING_LEN <==> h - n == RING_LEN - 1
  {
    ModNext(h);
    if h - n < RING_LEN - 1 { SlotsApart(n, n, h + 1); }
  }

  lemma ModSame(t: nat, n: nat)
    requires t <= n < t + RING_LEN
    ensures t % RING_LEN == n % RING_LEN <==> n == t
  {
    if t < n { SlotsApart(t, t, n); }
  }

  lemma StepCounted(r: Ring, step: Step)
    requires Inv(r) && Enabled(r, step)
    ensures Shape(Next(r, step)) && Counted(Next(r, step))
  {
    hide Kept;
    match step
    case LoadTail(n) => ModFull(|r.accepted|, n);
    case LoadTheirHead(n) => ModSame(|r.popped|, n);
    case StoreHead => ModNext(|r.accepted|);
    case StoreTail => ModNext(|r.popped|);
    case _ =>
  }

  lemma SlotsApart(lo: nat, k: nat, hi: nat)
    requires lo <= k < hi < lo + RING_LEN
    ensures k % RING_LEN != hi % RING_LEN
  {
  }

  lemma StepKept(r: Ring, step: Step)
    requires Inv(r) && Enabled(r, step)
    ensures Shape(Next(r, step)) && Kept(Next(r, step))
  {
    if step.StoreSlot? {
      forall k | |r.popped| <= k < |r.accepted| ensures k % RING_LEN != r.producer.head {
        SlotsApart(|r.popped|, k, |r.accepted|);
      }
    }
  }

  lemma StepKeeps(r: Ring, step: Step)
    requires Inv(r) && Enabled(r, step)
    ensures Inv(Next(r, step))
  {
    StepCounted(r, step);
    StepKept(r, step);
  }

  predicate Allowed(r: Ring, steps: seq<Step>)
    requires Inv(r)
    decreases |steps|
  {
    steps == [] || (Enabled(r, steps[0]) && (StepKeeps(r, steps[0]); Allowed(Next(r, steps[0]), steps[1..])))
  }

  function Run(r: Ring, steps: seq<Step>): (q: Ring)
    requires Inv(r) && Allowed(r, steps)
    ensures Inv(q)
    decreases |steps|
  {
    if steps == [] then r else StepKeeps(r, steps[0]); Run(Next(r, steps[0]), steps[1..])
  }

  /** What a lock-free queue promises: order, nothing lost or invented, and no slot shared by both sides. */
  predicate QueueSafe(r: Ring) {
    && r.popped <= r.accepted
    && |r.accepted| - |r.popped| < RING_LEN
    && (r.producer.Writing? && (r.consumer.Reading? || r.consumer.Advancing?) ==> r.producer.head != r.consumer.tail)
    && (r.consumer.Advancing? ==> |r.popped| < |r.accepted| && r.consumer.got == r.accepted[|r.popped|])
  }

  lemma InvSafe(r: Ring)
    requires Inv(r)
    ensures QueueSafe(r)
  {
    if r.producer.Writing? && (r.consumer.Reading? || r.consumer.Advancing?) {
      SlotsApart(|r.popped|, |r.popped|, |r.accepted|);
    }
  }

  /** In every interleaving of loads and stores, stale or not. */
  lemma EveryRunSafe(steps: seq<Step>)
    ensures Inv(Start()) && (Allowed(Start(), steps) ==> QueueSafe(Run(Start(), steps)))
  {
    StartInv();
    if Allowed(Start(), steps) {
      InvSafe(Run(Start(), steps));
    }
  }

  /** A key is dropped exactly when the ring is full as far as the producer can see. */
  lemma DropsWhenFull(r: Ring, n: nat)
    requires Inv(r) && Enabled(r, LoadTail(n))
    ensures Next(r, LoadTail(n)).producer.Idle? <==> |r.accepted| - n == RING_LEN - 1
  {
    ModFull(|r.accepted|, n);
  }

  /** A poll finds nothing exactly when everything the consumer can see is popped. */
  lemma EmptyWhenSeen(r: Ring, n: nat)
    requires Inv(r) && Enabled(r, LoadTheirHead(n))
    ensures Next(r, LoadTheirHead(n)).consumer.Resting? <==> n == |r.popped|
  {
    ModSame(|r.popped|, n);
  }
}
