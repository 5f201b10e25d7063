/**
 * The lock-free single-reader single-writer queue as a transition system. Every load, slot access and store is a
 * step of its own, so the producer and the consumer interleave in every possible way; an acquire load of the other
 * side's offset may be stale and return any value not older than the last one seen.
 */
module SrswQueue {
  import opened BitTricks

  /** The producer inside `queue_push`, and the consumer inside `queue_pop`. */
  datatype Producer<T> =
    | PIdle
    | PLoaded(item: T, push: nat)
    | PReady(item: T, push: nat)
    | PWritten(item: T, push: nat)
    | PStored

  datatype Consumer<T> = CIdle | CLoaded(pop: nat) | CReady(pop: nat) | CRead(pop: nat, item: T)

  /**
   * Shared memory, the two program counters, and the history: values published and values taken so far, and how
   * many pops the producer and how many pushes the consumer has seen.
   */
  datatype State<T> = State(bits: nat, ring: seq<T>, pushOffset: nat, popOffset: nat, events: nat,
                            producer: Producer<T>, consumer: Consumer<T>,
                            pushed: seq<T>, popped: seq<T>, seenPops: nat, seenPushes: nat)

  /** One step of either thread; `k` is which of the other side's stores a load returns. */
  datatype Action<T> = LoadPush(item: T) | LoadPop(k: nat) | WriteSlot | StorePush | Notify
                     | LoadPopOwn | LoadPushOther(k: nat) | ReadSlot | StorePop

  /** What a step means to the caller. */
  datatype Event<T> = Internal | Pushed(item: T) | PushFailed | Popped(item: T) | PopNull

  function Size<T>(s: State<T>): nat { Pow2(s.bits) }

  function Next<T>(s: State<T>, offset: nat): nat { BitAnd(offset + 1, Ones(s.bits)) }

  /** The slot of the n-th value: n modulo the ring size. */
  function Slot(n: nat, size: nat): (r: nat)
    requires size > 0
    ensures r < size
  {
    if n < size then n else Slot(n - size, size)
  }

  ghost predicate Init<T>(s: State<T>) {
    && |s.ring| == Size(s) && s.pushOffset == s.popOffset == s.events == 0
    && s.producer == PIdle && s.consumer == CIdle
    && s.pushed == s.popped == [] && s.seenPops == s.seenPushes == 0
  }

  predicate Enabled<T>(s: State<T>, a: Action<T>) {
    match a
    case LoadPush(_) => s.producer.PIdle?
    case LoadPop(k) => s.producer.PLoaded? && s.seenPops <= k <= |s.popped|
    case WriteSlot => s.producer.PReady?
    case StorePush => s.producer.PWritten?
    case Notify => s.producer.PStored?
    case LoadPopOwn => s.consumer.CIdle?
    case LoadPushOther(k) => s.consumer.CLoaded? && s.seenPushes <= k <= |s.pushed|
    case ReadSlot => s.consumer.CReady?
    case StorePop => s.consumer.CRead?
  }

  /** The slot accesses of the next step stay inside the ring. */
  predicate SlotsInRing<T>(s: State<T>) {
    && (s.producer.PReady? ==> s.producer.push < |s.ring|)
    && (s.consumer.CReady? ==> s.consumer.pop < |s.ring|)
  }

  function Step<T>(s: State<T>, a: Action<T>): (State<T>, Event<T>)
    requires Enabled(s, a) && SlotsInRing(s)
  {
    match a
    case LoadPush(item) => (s.(producer := PLoaded(item, s.pushOffset)), Internal)
    case LoadPop(k) =>
      var p := s.producer;
      if Next(s, p.push) == Slot(k, Size(s)) then (s.(producer := PIdle, seenPops := k), PushFailed)
      else (s.(producer := PReady(p.item, p.push), seenPops := k), Internal)
    case WriteSlot =>
      var p := s.producer;
      (s.(ring := s.ring[p.push := p.item], producer := PWritten(p.item, p.push)), Internal)
    case StorePush =>
      var p := s.producer;
      (s.(pushOffset := Next(s, p.push), producer := PStored, pushed := s.pushed + [p.item]), Pushed(p.item))
    case Notify => (s.(events := s.events + 1, producer := PIdle), Internal)
    case LoadPopOwn => (s.(consumer := CLoaded(s.popOffset)), Internal)
    case LoadPushOther(k) =>
      var c := s.consumer;
      if c.pop == Slot(k, Size(s)) then (s.(consumer := CIdle, seenPushes := k), PopNull)
      else (s.(consumer := CReady(c.pop), seenPushes := k), Internal)
    case ReadSlot =>
      var c := s.consumer;
      (s.(consumer := CRead(c.pop, s.ring[c.pop])), Internal)
    case StorePop =>
      var c := s.consumer;
      (s.(popOffset := Next(s, c.pop), consumer := CIdle, popped := s.popped + [c.item]), Popped(c.item))
  }

  /** `queue_init`: the ring gets the rounded size, and the mask is all of its low bits. */
  method QueueInit<T>(size: nat, filler: T) returns (maxSize: nat, mask: nat, ring: seq<T>, ghost s: State<T>)
    requires 1 <= size <= Pow2(63) && NoGap(size - 1)
    ensures LeastPowerAtLeast(maxSize, size) && |ring| == maxSize
    ensures Init(s) && Size(s) == maxSize && mask == Ones(s.bits) && s.ring == ring
  {
    Pow2Words();
    maxSize := PowerOfTwoSize(size);
    mask := maxSize - 1;
    ring := seq(maxSize, _ => filler);
    ghost var bits: nat :| maxSize == Pow2(bits);
    s := State(bits, ring, 0, 0, 0, PIdle, CIdle, [], [], 0, 0);
  }

  // ---------------------------------------------------------------- arithmetic of the ring

  lemma {:induction false} SlotNext(n: nat, size: nat)
    requires size > 0
    ensures Slot(n + 1, size) == if Slot(n, size) + 1 == size then 0 else Slot(n, size) + 1
    decreases n
  {
    if n >= size {
      SlotNext(n - size, size);
    }
  }

  /** Fewer than `size` apart, different numbers have different slots. */
  lemma {:induction false} SlotInjective(a: nat, b: nat, size: nat)
    requires size > 0 && a <= b < a + size
    ensures Slot(a, size) == Slot(b, size) <==> a == b
    decreases a
  {
    if a >= size {
      SlotInjective(a - size, b - size, size);
    }
  }

  /** The full test: the successor of the push slot meets a pop slot exactly one ring size behind. */
  lemma {:induction false} FullTest(k: nat, n: nat, size: nat)
    requires size > 0 && k <= n < k + size
    ensures Slot(n + 1, size) == Slot(k, size) <==> n - k == size - 1
  {
    if n - k < size - 1 {
      SlotInjective(k, n + 1, size);
    } else {
      assert n + 1 - size == k;
    }
  }

  lemma {:induction false} NextIsSlot<T>(s: State<T>, n: nat)
    ensures Next(s, Slot(n, Size(s))) == Slot(n + 1, Size(s))
  {
    SlotNext(n, Size(s));
    MaskWraps(Slot(n, Size(s)), s.bits);
  }

  // ---------------------------------------------------------------- the invariant

  /** Values published and not yet known by the producer to be taken still stand in their slots. */
  ghost predicate SlotsHold<T>(s: State<T>)
    requires |s.ring| == Size(s)
  {
    forall j {:trigger s.pushed[j]} :: s.seenPops <= j < |s.pushed| ==> s.ring[Slot(j, Size(s))] == s.pushed[j]
  }

  ghost predicate ProducerOk<T>(s: State<T>)
    requires |s.ring| == Size(s)
  {
    match s.producer
    case PLoaded(_, push) => push == s.pushOffset
    case PReady(_, push) => push == s.pushOffset && |s.pushed| - s.seenPops < Size(s) - 1
    case PWritten(item, push) =>
      push == s.pushOffset && |s.pushed| - s.seenPops < Size(s) - 1 && s.ring[Slot(|s.pushed|, Size(s))] == item
    case _ => true
  }

  ghost predicate ConsumerOk<T>(s: State<T>) {
    match s.consumer
    case CIdle => true
    case CLoaded(pop) => pop == s.popOffset
    case CReady(pop) => pop == s.popOffset && |s.popped| < s.seenPushes
    case CRead(pop, item) =>
      pop == s.popOffset && |s.popped| < s.seenPushes <= |s.pushed| && item == s.pushed[|s.popped|]
  }

  ghost predicate Inv<T>(s: State<T>) {
    && |s.ring| == Size(s)
    && s.pushOffset == Slot(|s.pushed|, Size(s)) && s.popOffset == Slot(|s.popped|, Size(s))
    && s.seenPops <= |s.popped| <= s.seenPushes <= |s.pushed|
    && |s.pushed| - s.seenPops <= Size(s) - 1
    && s.popped == s.pushed[..|s.popped|]
    && SlotsHold(s) && ProducerOk(s) && ConsumerOk(s)
    && s.events + (if s.producer.PStored? then 1 else 0) == |s.pushed|
  }

  // ---------------------------------------------------------------- the queue it implements

  /** What is in the queue: published and not yet taken. */
  function Contents<T>(s: State<T>): seq<T>
    requires |s.popped| <= |s.pushed|
  {
    s.pushed[|s.popped|..]
  }

  /** A bounded FIFO. A failed push or an empty pop may happen at any time but changes nothing. */
  ghost predicate FifoStep<T>(q: seq<T>, q': seq<T>, e: Event<T>, capacity: nat) {
    match e
    case Pushed(item) => |q| < capacity && q' == q + [item]
    case Popped(item) => q != [] && item == q[0] && q' == q[1..]
    case _ => q' == q
  }

  lemma {:induction false} InitInv<T>(s: State<T>)
    requires Init(s)
    ensures Inv(s)
  {
  }

  lemma {:induction false} InvInRing<T>(s: State<T>)
    requires Inv(s)
    ensures SlotsInRing(s)
  {
  }

  lemma {:induction false} ProducerKeepsInv<T>(s: State<T>, a: Action<T>)
    requires Inv(s) && Enabled(s, a) && SlotsInRing(s)
    requires a.LoadPush? || a.LoadPop? || a.WriteSlot? || a.StorePush? || a.Notify?
    ensures Inv(Step(s, a).0)
  {
    hide Next, Pow2, Slot;
    var s', n := Step(s, a).0, |s.pushed|;
    match a
    case LoadPush(_) =>
    case Notify =>
    case LoadPop(k) =>
      NextIsSlot(s, n);
      FullTest(k, n, Size(s));
    case WriteSlot =>
      forall j | s.seenPops <= j < n
        ensures s'.ring[Slot(j, Size(s))] == s.pushed[j]
      {
        SlotInjective(j, n, Size(s));
      }
    case StorePush =>
      NextIsSlot(s, n);
  }

  lemma {:induction false} ConsumerKeepsInv<T>(s: State<T>, a: Action<T>)
    requires Inv(s) && Enabled(s, a) && SlotsInRing(s)
    requires a.LoadPopOwn? || a.LoadPushOther? || a.ReadSlot? || a.StorePop?
    ensures Inv(Step(s, a).0)
  {
    hide Next, Pow2, Slot;
    var n := |s.popped|;
    match a
    case LoadPopOwn =>
    case LoadPushOther(k) =>
      SlotInjective(n, k, Size(s));
    case ReadSlot =>
      assert s.ring[Slot(n, Size(s))] == s.pushed[n];
    case StorePop =>
      NextIsSlot(s, n);
      assert s.pushed[..n + 1] == s.pushed[..n] + [s.pushed[n]];
  }

  /** Every step keeps the invariant, stays inside the ring, and is a step of a FIFO of one less than the ring. */
  lemma {:induction false} StepRefinesFifo<T>(s: State<T>, a: Action<T>)
    requires Inv(s) && Enabled(s, a)
    ensures SlotsInRing(s) && Inv(Step(s, a).0)
    ensures FifoStep(Contents(s), Contents(Step(s, a).0), Step(s, a).1, Size(s) - 1)
  {
    hide Step;
    InvInRing(s);
    if a.LoadPush? || a.LoadPop? || a.WriteSlot? || a.StorePush? || a.Notify? {
      ProducerKeepsInv(s, a);
    } else {
      ConsumerKeepsInv(s, a);
    }
    StepIsFifo(s, a);
  }

  lemma {:induction false} StepIsFifo<T>(s: State<T>, a: Action<T>)
    requires Inv(s) && Enabled(s, a) && SlotsInRing(s) && Inv(Step(s, a).0)
    ensures FifoStep(Contents(s), Contents(Step(s, a).0), Step(s, a).1, Size(s) - 1)
  {
    hide Next, Pow2, Slot, SlotsHold;
    match a
    case StorePush => assert Contents(Step(s, a).0) == Contents(s) + [s.producer.item];
    case StorePop => assert s.pushed[|s.popped| + 1..] == Contents(s)[1..];
    case _ =>
  }

  // ---------------------------------------------------------------- failures are conservative, and exact when fresh

  /** A push fails exactly when the queue is full counting only the pops the load shows. */
  lemma {:induction false} PushFailsWhenSeenFull<T>(s: State<T>, k: nat)
    requires Inv(s) && Enabled(s, LoadPop(k))
    ensures SlotsInRing(s)
    ensures Step(s, LoadPop(k)).1 == PushFailed <==> |s.pushed| - k == Size(s) - 1
    ensures k == |s.popped| ==> (Step(s, LoadPop(k)).1 == PushFailed <==> |Contents(s)| == Size(s) - 1)
    ensures |Contents(s)| == Size(s) - 1 ==> Step(s, LoadPop(k)).1 == PushFailed
  {
    hide Next, Pow2, Slot, SlotsHold;
    NextIsSlot(s, |s.pushed|);
    FullTest(k, |s.pushed|, Size(s));
  }

  /** A pop returns NULL exactly when every push the load shows has been taken. */
  lemma {:induction false} PopNullWhenSeenEmpty<T>(s: State<T>, k: nat)
    requires Inv(s) && Enabled(s, LoadPushOther(k))
    ensures SlotsInRing(s)
    ensures Step(s, LoadPushOther(k)).1 == PopNull <==> k == |s.popped|
    ensures k == |s.pushed| ==> (Step(s, LoadPushOther(k)).1 == PopNull <==> Contents(s) == [])
    ensures Contents(s) == [] ==> Step(s, LoadPushOther(k)).1 == PopNull
  {
    hide Next, Pow2, Slot, SlotsHold;
    SlotInjective(|s.popped|, k, Size(s));
  }

  /** The two threads never stand before the same slot, one about to write it and the other about to read it. */
  lemma {:induction false} NoSlotRace<T>(s: State<T>)
    requires Inv(s)
    ensures s.producer.PReady? && s.consumer.CReady? ==> s.producer.push != s.consumer.pop
    ensures s.producer.PReady? ==> forall j :: |s.popped| <= j < |s.pushed| ==> s.producer.push != Slot(j, Size(s))
  {
    hide Next, Pow2, Slot, SlotsHold;
    if s.producer.PReady? {
      forall j | |s.popped| <= j < |s.pushed|
        ensures s.producer.push != Slot(j, Size(s))
      {
        SlotInjective(j, |s.pushed|, Size(s));
      }
    }
  }

  // ---------------------------------------------------------------- whole runs

  /** An access outside the ring would leave the state undefined: nothing is assumed about what follows it. */
  ghost predicate IsRun<T>(ss: seq<State<T>>, acts: seq<Action<T>>) {
    && |ss| == |acts| + 1 && Init(ss[0])
    && forall i :: 0 <= i < |acts| ==>
         Enabled(ss[i], acts[i]) && (SlotsInRing(ss[i]) ==> ss[i + 1] == Step(ss[i], acts[i]).0)
  }

  ghost function EventOf<T>(s: State<T>, a: Action<T>): Event<T>
    requires Enabled(s, a)
  {
    if SlotsInRing(s) then Step(s, a).1 else Internal
  }

  /** The values of the successful pushes, and of the successful pops, in the order they took effect. */
  ghost function Pushes<T>(ss: seq<State<T>>, acts: seq<Action<T>>, n: nat): seq<T>
    requires IsRun(ss, acts) && n <= |acts|
  {
    if n == 0 then []
    else Pushes(ss, acts, n - 1) + match EventOf(ss[n - 1], acts[n - 1]) case Pushed(item) => [item] case _ => []
  }

  ghost function Pops<T>(ss: seq<State<T>>, acts: seq<Action<T>>, n: nat): seq<T>
    requires IsRun(ss, acts) && n <= |acts|
  {
    if n == 0 then []
    else Pops(ss, acts, n - 1) + match EventOf(ss[n - 1], acts[n - 1]) case Popped(item) => [item] case _ => []
  }

  lemma {:induction false} RunInv<T>(ss: seq<State<T>>, acts: seq<Action<T>>, n: nat)
    requires IsRun(ss, acts) && n <= |acts|
    ensures Inv(ss[n]) && ss[n].bits == ss[0].bits
    ensures ss[n].pushed == Pushes(ss, acts, n) && ss[n].popped == Pops(ss, acts, n)
    decreases n
  {
    hide Inv, Init, Step;
    if n == 0 {
      InitInv(ss[0]);
      InitEmpty(ss[0]);
    } else {
      RunInv(ss, acts, n - 1);
      StepRefinesFifo(ss[n - 1], acts[n - 1]);
      StepHistory(ss[n - 1], acts[n - 1]);
      assert ss[n] == Step(ss[n - 1], acts[n - 1]).0;
    }
  }

  lemma {:induction false} StepHistory<T>(s: State<T>, a: Action<T>)
    requires Enabled(s, a) && SlotsInRing(s)
    ensures var (s', e) := Step(s, a);
      && s'.bits == s.bits
      && s'.pushed == s.pushed + (match e case Pushed(item) => [item] case _ => [])
      && s'.popped == s.popped + (match e case Popped(item) => [item] case _ => [])
  {
  }

  lemma InitEmpty<T>(s: State<T>)
    requires Init(s)
    ensures s.pushed == s.popped == []
  {
  }

  /**
   * Under every interleaving and with every choice of stale loads: at each moment the values popped are a prefix of
   * the values pushed, at most one less than the ring size are in between, no slot is raced for, the next slot access
   * is in range, and there has been one notification for each push but perhaps the last.
   */
  lemma {:induction false} LinearisesToBoundedFifo<T>(ss: seq<State<T>>, acts: seq<Action<T>>, n: nat)
    requires IsRun(ss, acts) && n <= |acts|
    ensures Pops(ss, acts, n) <= Pushes(ss, acts, n)
    ensures |Pushes(ss, acts, n)| - |Pops(ss, acts, n)| <= Pow2(ss[0].bits) - 1
    ensures SlotsInRing(ss[n])
    ensures ss[n].producer.PReady? && ss[n].consumer.CReady? ==> ss[n].producer.push != ss[n].consumer.pop
    ensures |Pushes(ss, acts, n)| - 1 <= ss[n].events <= |Pushes(ss, acts, n)|
  {
    RunInv(ss, acts, n);
    InvInRing(ss[n]);
    NoSlotRace(ss[n]);
  }

  /**
   * Every slot access is ordered behind the other thread's last access of that slot by an acquire load that saw the
   * release store behind it: the producer writes the slot of value `n` only after it has seen the pop of value
   * `n - size`, and the consumer reads the slot of value `n` only after it has seen its push. So the plain accesses of
   * the slots do not race, and may be taken as sequentially consistent.
   */
  lemma {:induction false} SlotsAreHandedOver<T>(ss: seq<State<T>>, acts: seq<Action<T>>, n: nat)
    requires IsRun(ss, acts) && n <= |acts|
    ensures var s, size := ss[n], Pow2(ss[0].bits);
      && (s.producer.PReady? ==> s.producer.push == Slot(|s.pushed|, size) && |s.pushed| - size < s.seenPops)
      && (s.consumer.CReady? ==> s.consumer.pop == Slot(|s.popped|, size) && |s.popped| < s.seenPushes)
      && s.seenPops <= |s.popped| && s.seenPushes <= |s.pushed|
  {
    hide Slot;
    RunInv(ss, acts, n);
  }

  // ---------------------------------------------------------------- the size

  /** `queue_size` from the two loads it makes. */
  function QueueSize(push: nat, pop: nat, maxSize: nat): (r: nat)
    requires push < maxSize && pop < maxSize
    ensures r < maxSize
  {
    if push >= pop then push - pop else maxSize - pop + push
  }

  lemma {:induction false} SlotDistance(a: nat, b: nat, size: nat)
    requires size > 0 && a <= b < a + size
    ensures QueueSize(Slot(b, size), Slot(a, size), size) == b - a
    decreases a
  {
    if a >= size {
      SlotDistance(a - size, b - size, size);
    }
  }

  /** On a consistent snapshot it is the number of values in the queue; on any two loads it is below the ring size. */
  lemma {:induction false} QueueSizeExact<T>(s: State<T>)
    requires Inv(s)
    ensures s.pushOffset < Size(s) && s.popOffset < Size(s)
    ensures QueueSize(s.pushOffset, s.popOffset, Size(s)) == |Contents(s)|
  {
    SlotDistance(|s.popped|, |s.pushed|, Size(s));
  }

  /** `queue_size` loads its two offsets at different moments: whichever they are, the result is below the ring size. */
  lemma {:induction false} QueueSizeBounded<T>(ss: seq<State<T>>, acts: seq<Action<T>>, i: nat, j: nat)
    requires IsRun(ss, acts) && i <= |acts| && j <= |acts|
    ensures var size := Pow2(ss[0].bits);
      && ss[i].pushOffset < size && ss[j].popOffset < size
      && QueueSize(ss[i].pushOffset, ss[j].popOffset, size) < size
      && (i == j ==> QueueSize(ss[i].pushOffset, ss[i].popOffset, size) == |Pushes(ss, acts, i)| - |Pops(ss, acts, i)|)
  {
    RunInv(ss, acts, i);
    RunInv(ss, acts, j);
    QueueSizeExact(ss[i]);
    QueueSizeExact(ss[j]);
  }
}
