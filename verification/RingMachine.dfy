/**
 The ring buffer under concurrency (ring_buffer.hpp), as a machine of small steps. Producer and
 consumer each have a program counter; a load may return any value that was published and
 is no older than the last one its thread saw. Clocks record which slot accesses happen before
 which, so a data race is an access that does not know of the last conflicting one.
 */
module RingMachine {
  import opened Bits
  import opened Arithmetic

  /** How many slot writes of the producer and slot reads of the consumer happened before. */
  datatype Clock = Clock(producer: nat, consumer: nat) {
    function Join(c: Clock): Clock {
      Clock(if producer < c.producer then c.producer else producer, if consumer < c.consumer then c.consumer else consumer)
    }
  }

  /** A value stored into an atomic counter, with what its thread knew (release). */
  datatype Published = Published(word: nat, clock: Clock)

  datatype ProducerPc = PushIdle | PushRefresh | PushWrite | PushPublish
  datatype ConsumerPc = PopIdle | PopRefresh | PopRead | PopPublish

  /** Counters are words modulo 2^64; `tails` and `heads` are their histories, oldest value first. */
  datatype State<T> = State(
    tails: seq<Published>, heads: seq<Published>, slots: seq<T>, writeTimes: seq<nat>, readTimes: seq<nat>,
    ppc: ProducerPc, tail: nat, headCached: nat, headSeen: nat, pClock: Clock, item: T,
    cpc: ConsumerPc, head: nat, tailCached: nat, tailSeen: nat, cClock: Clock, out: T,
    written: seq<T>, read: seq<T>)

  datatype Step<T> =
    | BeginPush(item: T) | RefreshHead(i: nat) | WriteSlot | PublishTail
    | BeginPop | RefreshTail(i: nat) | ReadSlot | PublishHead

  /** The static assertion on the capacity, which is a size_t. */
  predicate CapacityOk(cap: nat) {
    0 < cap < WORD && And(cap, cap - 1) == 0
  }

  function WordSub(a: nat, b: nat): nat {
    (a + WORD - b % WORD) % WORD
  }

  function Last<X>(s: seq<X>): X
    requires s != []
  {
    s[|s| - 1]
  }

  ghost predicate Start<T>(cap: nat, s: State<T>) {
    && s.tails == [Published(0, Clock(0, 0))] && s.heads == [Published(0, Clock(0, 0))]
    && |s.slots| == |s.writeTimes| == |s.readTimes| == cap
    && (forall j :: 0 <= j < cap ==> s.writeTimes[j] == 0 && s.readTimes[j] == 0)
    && s.ppc == PushIdle && s.headCached == s.headSeen == 0 && s.pClock == Clock(0, 0)
    && s.cpc == PopIdle && s.tailCached == s.tailSeen == 0 && s.cClock == Clock(0, 0)
    && s.written == [] && s.read == []
  }

  /** The parts of a state that have the sizes the steps rely on. */
  predicate Shaped<T>(cap: nat, s: State<T>) {
    s.tails != [] && s.heads != [] && |s.slots| == |s.writeTimes| == |s.readTimes| == cap
  }

  /** `buffer_[i & kMask]` for a counter word i. */
  function SlotOf(word: nat, cap: nat): nat
    requires cap > 0
  {
    And(word, cap - 1)
  }

  predicate Enabled<T>(cap: nat, s: State<T>, step: Step<T>)
    requires cap > 0 && Shaped(cap, s)
  {
    match step
    case BeginPush(_) => s.ppc == PushIdle
    case RefreshHead(i) => s.ppc == PushRefresh && s.headSeen <= i < |s.heads|
    case WriteSlot => s.ppc == PushWrite && SlotOf(s.tail, cap) < cap
    case PublishTail => s.ppc == PushPublish
    case BeginPop => s.cpc == PopIdle
    case RefreshTail(i) => s.cpc == PopRefresh && s.tailSeen <= i < |s.tails|
    case ReadSlot => s.cpc == PopRead && SlotOf(s.head, cap) < cap
    case PublishHead => s.cpc == PopPublish
  }

  /**
   Which of the four accesses to a counter that the other thread uses carry an ordering: a relaxed
   store publishes no knowledge, and a relaxed load takes none over.
   */
  datatype Orderings = Orderings(releaseTail: bool, acquireTail: bool, releaseHead: bool, acquireHead: bool)

  /** The orderings of the ring buffer. */
  const ACQUIRE_RELEASE := Orderings(true, true, true, true)

  /** One step of either thread. */
  function Apply<T>(cap: nat, o: Orderings, s: State<T>, step: Step<T>): (s': State<T>)
    requires cap > 0 && Shaped(cap, s) && Enabled(cap, s, step)
    ensures Shaped(cap, s')
  {
    match step
    case BeginPush(x) =>
      var tail := Last(s.tails).word;
      s.(item := x, tail := tail, ppc := if WordSub(tail, s.headCached) == cap then PushRefresh else PushWrite)
    case RefreshHead(i) =>
      var h := s.heads[i];
      s.(headCached := h.word, headSeen := i, pClock := if o.acquireHead then s.pClock.Join(h.clock) else s.pClock,
         ppc := if WordSub(s.tail, h.word) == cap then PushIdle else PushWrite)
    case WriteSlot =>
      var j, time := SlotOf(s.tail, cap), s.pClock.producer + 1;
      s.(slots := s.slots[j := s.item], writeTimes := s.writeTimes[j := time], pClock := s.pClock.(producer := time),
         written := s.written + [s.item], ppc := PushPublish)
    case PublishTail =>
      s.(tails := s.tails + [Published((s.tail + 1) % WORD, if o.releaseTail then s.pClock else Clock(0, 0))], ppc := PushIdle)
    case BeginPop =>
      var head := Last(s.heads).word;
      s.(head := head, cpc := if head == s.tailCached then PopRefresh else PopRead)
    case RefreshTail(i) =>
      var t := s.tails[i];
      s.(tailCached := t.word, tailSeen := i, cClock := if o.acquireTail then s.cClock.Join(t.clock) else s.cClock,
         cpc := if s.head == t.word then PopIdle else PopRead)
    case ReadSlot =>
      var j, time := SlotOf(s.head, cap), s.cClock.consumer + 1;
      s.(out := s.slots[j], readTimes := s.readTimes[j := time], cClock := s.cClock.(consumer := time),
         read := s.read + [s.slots[j]], cpc := PopPublish)
    case PublishHead =>
      s.(heads := s.heads + [Published((s.head + 1) % WORD, if o.releaseHead then s.cClock else Clock(0, 0))], cpc := PopIdle)
  }

  /** A slot access races if the last conflicting access of the other thread did not happen before it. */
  predicate Races<T>(cap: nat, s: State<T>, step: Step<T>)
    requires cap > 0 && Shaped(cap, s) && Enabled(cap, s, step)
  {
    match step
    case WriteSlot => s.readTimes[SlotOf(s.tail, cap)] > s.pClock.consumer
    case ReadSlot => s.writeTimes[SlotOf(s.head, cap)] > s.cClock.producer
    case _ => false
  }

  ghost predicate IsRun<T>(cap: nat, o: Orderings, s: State<T>, steps: seq<Step<T>>)
    requires cap > 0
    decreases |steps|
  {
    Shaped(cap, s) &&
    (steps != [] ==> Enabled(cap, s, steps[0]) && IsRun(cap, o, Apply(cap, o, s, steps[0]), steps[1..]))
  }

  ghost function After<T>(cap: nat, o: Orderings, s: State<T>, steps: seq<Step<T>>): (e: State<T>)
    requires cap > 0 && IsRun(cap, o, s, steps)
    ensures Shaped(cap, e)
    decreases |steps|
  {
    if steps == [] then s else After(cap, o, Apply(cap, o, s, steps[0]), steps[1..])
  }

  // Slots of unbounded counters.

  /** The slot of the item of number `k`, counted without wrapping. */
  function Slot(k: nat, cap: nat): (j: nat)
    requires cap > 0
    ensures j < cap
  {
    if k < cap then k else Slot(k - cap, cap)
  }

  lemma {:induction false} SlotIsRemainder(k: nat, cap: nat)
    requires cap > 0
    ensures Slot(k, cap) == k % cap
    decreases k
  {
    if k < cap {
      DivisionIs(k, cap, 0, k);
    } else {
      SlotIsRemainder(k - cap, cap);
      var q, r := (k - cap) / cap, (k - cap) % cap;
      assert k == cap * (q + 1) + r by {
        assert k - cap == cap * q + r;
      }
      DivisionIs(k, cap, q + 1, r);
    }
  }

  /** Two items in the same slot are at least a whole buffer apart. */
  lemma {:induction false} SameSlot(k: nat, l: nat, cap: nat)
    requires cap > 0 && k < l && Slot(k, cap) == Slot(l, cap)
    ensures k + cap <= l
    decreases k
  {
    if k >= cap {
      SameSlot(k - cap, l - cap, cap);
    }
  }

  /** Masking a wrapped counter finds the slot of the true one, because the capacity divides 2^64. */
  lemma MaskedSlot(k: nat, cap: nat)
    requires CapacityOk(cap)
    ensures SlotOf(k % WORD, cap) == Slot(k, cap)
  {
    PowerOfTwoTest(cap);
    var e: nat :| Pow2(e) == cap;
    WordIsPow2();
    if e >= 64 {
      if e > 64 { Pow2Grows(64, e); }
    }
    Pow2Sum(64 - e, e);
    MaskIsRemainder(k % WORD, e);
    SlotIsRemainder(k, cap);
    RemainderOfRemainder(k, Pow2(64 - e), cap);
  }

  lemma RemainderOfRemainder(k: nat, n: nat, m: nat)
    requires n > 0 && m > 0 && n * m > 0
    ensures (k % (n * m)) % m == k % m
  {
    var q, r := k / (n * m), k % (n * m);
    var a, b := r / m, r % m;
    assert k == (n * m) * q + r && r == m * a + b;
    assert (n * m) * q == m * (n * q);
    assert k == m * (n * q + a) + b;
    DivisionIs(k, m, n * q + a, b);
  }

  /** The full test on wrapped counters is the full test on the true ones. */
  lemma WrappedDifference(tail: nat, head: nat, cap: nat)
    requires cap < WORD && head <= tail <= head + cap
    ensures WordSub(tail % WORD, head % WORD) == tail - head
  {
    var d := tail - head;
    assert (head % WORD) % WORD == head % WORD;
    assert (tail % WORD + WORD - head % WORD) % WORD == d % WORD by {
      var qt, qh := tail / WORD, head / WORD;
      assert tail % WORD + WORD - head % WORD == d + WORD * (qh - qt + 1);
      DivisionIs(d % WORD + WORD * (d / WORD + qh - qt + 1), WORD, d / WORD + qh - qt + 1, d % WORD);
    }
  }

  /** So is the empty test. */
  lemma WrappedEqual(tail: nat, head: nat, cap: nat)
    requires cap < WORD && head <= tail <= head + cap
    ensures head % WORD == tail % WORD <==> head == tail
  {
    WrappedDifference(tail, head, cap);
    if head % WORD == tail % WORD {
      assert WordSub(head % WORD, head % WORD) == 0;
    }
  }

  lemma NextWord(k: nat)
    ensures (k % WORD + 1) % WORD == (k + 1) % WORD
  {
  }
}
