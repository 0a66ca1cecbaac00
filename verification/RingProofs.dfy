/** The ring buffer is free of data races and behaves as a bounded queue, over every interleaving. */
module RingProofs {
  import opened Bits
  import opened RingMachine
  import opened Types

  // The true counters: how many items were published, how many popped, written and read.

  function Tail<T>(s: State<T>): int {
    |s.tails| - 1
  }

  function Head<T>(s: State<T>): int {
    |s.heads| - 1
  }

  /** The stored words are the true counters modulo 2^64. */
  ghost predicate Wrapped(ps: seq<Published>) {
    forall i :: 0 <= i < |ps| ==> ps[i].word == i % WORD
  }

  /** Who sees the tail at i knows of i writes. */
  ghost predicate TailsKnow(tails: seq<Published>) {
    forall i :: 0 <= i < |tails| ==> tails[i].clock.producer >= i
  }

  /** Who sees the head at i knows of i reads. */
  ghost predicate HeadsKnow(heads: seq<Published>) {
    forall i :: 0 <= i < |heads| ==> heads[i].clock.consumer >= i
  }

  /** Nobody knows of accesses that did not happen. */
  ghost predicate Within(ps: seq<Published>, writesDone: nat, readsDone: nat) {
    forall i :: 0 <= i < |ps| ==> ps[i].clock.producer <= writesDone && ps[i].clock.consumer <= readsDone
  }

  ghost predicate HistoryOk<T>(s: State<T>) {
    && Wrapped(s.tails) && Wrapped(s.heads) && TailsKnow(s.tails) && HeadsKnow(s.heads)
    && Within(s.tails, |s.written|, |s.read|) && Within(s.heads, |s.written|, |s.read|)
    && s.pClock.consumer <= |s.read| && s.cClock.producer <= |s.written|
  }

  /** What the producer knows: it never runs more than a buffer ahead of the head it has seen. */
  ghost predicate ProducerOk<T>(cap: nat, s: State<T>)
    requires Shaped(cap, s)
  {
    && |s.written| == Tail(s) + (if s.ppc.PushPublish? then 1 else 0) == s.pClock.producer
    && s.headSeen <= Head(s) && s.headCached == s.headSeen % WORD && s.headSeen <= s.pClock.consumer
    && Tail(s) <= s.headSeen + cap && s.headSeen <= Tail(s)
    && (!s.ppc.PushIdle? ==> s.tail == Tail(s) % WORD)
    && (s.ppc.PushWrite? || s.ppc.PushPublish? ==> Tail(s) < s.headSeen + cap)
    && (s.ppc.PushPublish? ==> Last(s.written) == s.item)
  }

  /** What the consumer knows: it never runs past the tail it has seen. */
  ghost predicate ConsumerOk<T>(cap: nat, s: State<T>)
    requires Shaped(cap, s)
  {
    && |s.read| == Head(s) + (if s.cpc.PopPublish? then 1 else 0) == s.cClock.consumer
    && s.tailSeen <= Tail(s) && s.tailCached == s.tailSeen % WORD && s.tailSeen <= s.cClock.producer
    && Head(s) <= s.tailSeen && s.tailSeen <= Head(s) + cap
    && (!s.cpc.PopIdle? ==> s.head == Head(s) % WORD)
    && (s.cpc.PopRead? || s.cpc.PopPublish? ==> Head(s) < s.tailSeen)
    && (s.cpc.PopPublish? ==> Last(s.read) == s.out)
  }

  /** The last access to slot j was to an item that belongs in slot j. */
  ghost predicate TimesOk(times: seq<nat>, cap: nat, bound: nat)
    requires cap > 0
  {
    forall j :: 0 <= j < |times| ==> times[j] <= bound && (times[j] > 0 ==> Slot(times[j] - 1, cap) == j)
  }

  /** The slots hold the items not popped yet, and the items read so far are the first ones written. */
  ghost predicate ContentsOk<T>(cap: nat, s: State<T>)
    requires cap > 0 && Shaped(cap, s)
  {
    && |s.read| <= |s.written| && s.read == s.written[..|s.read|]
    && (forall k {:trigger s.written[k]} :: Head(s) <= k < |s.written| ==> s.slots[Slot(k, cap)] == s.written[k])
  }

  ghost predicate Inv<T>(cap: nat, s: State<T>) {
    && CapacityOk(cap) && Shaped(cap, s) && HistoryOk(s) && ProducerOk(cap, s) && ConsumerOk(cap, s)
    && TimesOk(s.writeTimes, cap, |s.written|) && TimesOk(s.readTimes, cap, |s.read|) && ContentsOk(cap, s)
  }

  lemma StartIsInv<T>(cap: nat, s: State<T>)
    requires CapacityOk(cap) && Start(cap, s)
    ensures Inv(cap, s)
  {
  }

  lemma BeginPushKeepsInv<T>(cap: nat, s: State<T>, item: T)
    requires Inv(cap, s) && Enabled(cap, s, BeginPush(item))
    ensures Inv(cap, Apply(cap, ACQUIRE_RELEASE, s, BeginPush(item)))
  {
    WrappedDifference(Tail(s), s.headSeen, cap);
  }

  lemma RefreshHeadKeepsInv<T>(cap: nat, s: State<T>, i: nat)
    requires Inv(cap, s) && Enabled(cap, s, RefreshHead(i))
    ensures Inv(cap, Apply(cap, ACQUIRE_RELEASE, s, RefreshHead(i)))
  {
    WrappedDifference(Tail(s), i, cap);
    assert s.heads[i].word == i % WORD && s.heads[i].clock.consumer >= i;
  }

  lemma WriteSlotKeepsContents<T>(cap: nat, s: State<T>)
    requires Inv(cap, s) && Enabled(cap, s, WriteSlot)
    ensures ContentsOk(cap, Apply(cap, ACQUIRE_RELEASE, s, WriteSlot))
  {
    hide TimesOk, Wrapped, TailsKnow, HeadsKnow, Within;
    var s' := Apply(cap, ACQUIRE_RELEASE, s, WriteSlot);
    MaskedSlot(Tail(s), cap);
    forall k {:trigger s'.written[k]} | Head(s') <= k < |s'.written| ensures s'.slots[Slot(k, cap)] == s'.written[k] {
      if k < Tail(s) && Slot(k, cap) == Slot(Tail(s), cap) {
        SameSlot(k, Tail(s), cap);
      }
    }
  }

  lemma WriteSlotKeepsTimes<T>(cap: nat, s: State<T>)
    requires Inv(cap, s) && Enabled(cap, s, WriteSlot)
    ensures var s' := Apply(cap, ACQUIRE_RELEASE, s, WriteSlot); TimesOk(s'.writeTimes, cap, |s'.written|)
  {
    hide ContentsOk, HistoryOk, ConsumerOk;
    MaskedSlot(Tail(s), cap);
  }

  lemma WriteSlotKeepsRest<T>(cap: nat, s: State<T>)
    requires Inv(cap, s) && Enabled(cap, s, WriteSlot)
    ensures var s' := Apply(cap, ACQUIRE_RELEASE, s, WriteSlot);
            && Shaped(cap, s') && HistoryOk(s') && ProducerOk(cap, s') && ConsumerOk(cap, s')
  {
    hide ContentsOk, TimesOk, CapacityOk;
  }

  lemma WriteSlotKeepsInv<T>(cap: nat, s: State<T>)
    requires Inv(cap, s) && Enabled(cap, s, WriteSlot)
    ensures Inv(cap, Apply(cap, ACQUIRE_RELEASE, s, WriteSlot))
  {
    hide HistoryOk, ProducerOk, ConsumerOk, ContentsOk, TimesOk, CapacityOk;
    WriteSlotKeepsContents(cap, s);
    WriteSlotKeepsTimes(cap, s);
    WriteSlotKeepsRest(cap, s);
  }

  lemma PublishTailKeepsInv<T>(cap: nat, s: State<T>)
    requires Inv(cap, s) && Enabled(cap, s, PublishTail)
    ensures Inv(cap, Apply(cap, ACQUIRE_RELEASE, s, PublishTail))
  {
    NextWord(Tail(s));
  }

  lemma BeginPopKeepsInv<T>(cap: nat, s: State<T>)
    requires Inv(cap, s) && Enabled(cap, s, BeginPop)
    ensures Inv(cap, Apply(cap, ACQUIRE_RELEASE, s, BeginPop))
  {
    WrappedEqual(s.tailSeen, Head(s), cap);
  }

  lemma RefreshTailKeepsInv<T>(cap: nat, s: State<T>, i: nat)
    requires Inv(cap, s) && Enabled(cap, s, RefreshTail(i))
    ensures Inv(cap, Apply(cap, ACQUIRE_RELEASE, s, RefreshTail(i)))
  {
    WrappedEqual(i, Head(s), cap);
    assert s.tails[i].word == i % WORD && s.tails[i].clock.producer >= i;
  }

  lemma ReadSlotKeepsContents<T>(cap: nat, s: State<T>)
    requires Inv(cap, s) && Enabled(cap, s, ReadSlot)
    ensures ContentsOk(cap, Apply(cap, ACQUIRE_RELEASE, s, ReadSlot))
  {
    hide TimesOk, Wrapped, TailsKnow, HeadsKnow, Within;
    MaskedSlot(Head(s), cap);
    assert s.written[Head(s)] == s.slots[Slot(Head(s), cap)];
  }

  lemma ReadSlotKeepsTimes<T>(cap: nat, s: State<T>)
    requires Inv(cap, s) && Enabled(cap, s, ReadSlot)
    ensures var s' := Apply(cap, ACQUIRE_RELEASE, s, ReadSlot); TimesOk(s'.readTimes, cap, |s'.read|)
  {
    hide ContentsOk, HistoryOk, ProducerOk;
    MaskedSlot(Head(s), cap);
  }

  lemma ReadSlotKeepsRest<T>(cap: nat, s: State<T>)
    requires Inv(cap, s) && Enabled(cap, s, ReadSlot)
    ensures var s' := Apply(cap, ACQUIRE_RELEASE, s, ReadSlot);
            && Shaped(cap, s') && HistoryOk(s') && ProducerOk(cap, s') && ConsumerOk(cap, s')
  {
    hide ContentsOk, TimesOk, CapacityOk;
  }

  lemma ReadSlotKeepsInv<T>(cap: nat, s: State<T>)
    requires Inv(cap, s) && Enabled(cap, s, ReadSlot)
    ensures Inv(cap, Apply(cap, ACQUIRE_RELEASE, s, ReadSlot))
  {
    hide HistoryOk, ProducerOk, ConsumerOk, ContentsOk, TimesOk, CapacityOk;
    ReadSlotKeepsContents(cap, s);
    ReadSlotKeepsTimes(cap, s);
    ReadSlotKeepsRest(cap, s);
  }

  lemma PublishHeadKeepsInv<T>(cap: nat, s: State<T>)
    requires Inv(cap, s) && Enabled(cap, s, PublishHead)
    ensures Inv(cap, Apply(cap, ACQUIRE_RELEASE, s, PublishHead))
  {
    NextWord(Head(s));
  }

  lemma StepKeepsInv<T>(cap: nat, s: State<T>, step: Step<T>)
    requires Inv(cap, s) && Enabled(cap, s, step)
    ensures Inv(cap, Apply(cap, ACQUIRE_RELEASE, s, step))
  {
    match step
    case BeginPush(item) => BeginPushKeepsInv(cap, s, item);
    case RefreshHead(i) => RefreshHeadKeepsInv(cap, s, i);
    case WriteSlot => WriteSlotKeepsInv(cap, s);
    case PublishTail => PublishTailKeepsInv(cap, s);
    case BeginPop => BeginPopKeepsInv(cap, s);
    case RefreshTail(i) => RefreshTailKeepsInv(cap, s, i);
    case ReadSlot => ReadSlotKeepsInv(cap, s);
    case PublishHead => PublishHeadKeepsInv(cap, s);
  }

  // Race freedom.

  /** No slot access races: the matching write, or the previous read, happened before it. */
  lemma StepDoesNotRace<T>(cap: nat, s: State<T>, step: Step<T>)
    requires Inv(cap, s) && Enabled(cap, s, step)
    ensures !Races(cap, s, step)
  {
    match step
    case WriteSlot =>
      MaskedSlot(Tail(s), cap);
      var j := Slot(Tail(s), cap);
      if s.readTimes[j] > 0 {
        SameSlot(s.readTimes[j] - 1, Tail(s), cap);
      }
    case ReadSlot =>
      MaskedSlot(Head(s), cap);
      var j := Slot(Head(s), cap);
      if s.writeTimes[j] - 1 > Head(s) {
        SameSlot(Head(s), s.writeTimes[j] - 1, cap);
      }
    case _ =>
  }

  /** While both threads are about to touch a slot, they are about to touch different ones. */
  lemma NeverTheSameSlot<T>(cap: nat, s: State<T>)
    requires Inv(cap, s) && s.ppc.PushWrite? && s.cpc.PopRead?
    ensures SlotOf(s.tail, cap) != SlotOf(s.head, cap)
  {
    MaskedSlot(Tail(s), cap);
    MaskedSlot(Head(s), cap);
    if Slot(Head(s), cap) == Slot(Tail(s), cap) {
      SameSlot(Head(s), Tail(s), cap);
    }
  }

  /** Every access finds its slot: a mask never leads outside the buffer. */
  lemma MaskStaysInside<T>(cap: nat, s: State<T>)
    requires Inv(cap, s)
    ensures s.ppc.PushWrite? ==> Enabled(cap, s, WriteSlot)
    ensures s.cpc.PopRead? ==> Enabled(cap, s, ReadSlot)
  {
    MaskedSlot(Tail(s), cap);
    MaskedSlot(Head(s), cap);
  }

  lemma {:induction false} RunKeepsInv<T>(cap: nat, s: State<T>, steps: seq<Step<T>>)
    requires Inv(cap, s) && IsRun(cap, ACQUIRE_RELEASE, s, steps)
    ensures Inv(cap, After(cap, ACQUIRE_RELEASE, s, steps))
    decreases |steps|
  {
    if steps != [] {
      StepKeepsInv(cap, s, steps[0]);
      RunKeepsInv(cap, Apply(cap, ACQUIRE_RELEASE, s, steps[0]), steps[1..]);
    }
  }

  // A bounded queue.

  /** The items published and not yet popped. */
  ghost function Queue<T>(cap: nat, s: State<T>): seq<T>
    requires Inv(cap, s)
  {
    s.written[Head(s)..Tail(s)]
  }

  /** One step of a bounded queue: a push adds at the back if there is room, a pop takes the front. */
  ghost predicate QueueStep<T>(cap: nat, q: seq<T>, q': seq<T>, step: Step<T>, item: T, out: T) {
    match step
    case PublishTail => |q| < cap && q' == q + [item]
    case PublishHead => q != [] && out == q[0] && q' == q[1..]
    case _ => q' == q
  }

  lemma Counters<T>(cap: nat, s: State<T>)
    requires Inv(cap, s)
    ensures Head(s) <= Tail(s) <= |s.written| && Tail(s) - Head(s) <= cap
    ensures s.ppc.PushPublish? ==> Tail(s) + 1 == |s.written| && s.written[Tail(s)] == s.item && Tail(s) - Head(s) < cap
  {
  }

  lemma SliceGrows<T>(w: seq<T>, h: nat, t: nat)
    requires h <= t < |w|
    ensures w[h..t + 1] == w[h..t] + [w[t]]
  {
  }

  lemma PublishTailPushes<T>(cap: nat, s: State<T>)
    requires Inv(cap, s) && Enabled(cap, s, PublishTail) && Inv(cap, Apply(cap, ACQUIRE_RELEASE, s, PublishTail))
    ensures QueueStep(cap, Queue(cap, s), Queue(cap, Apply(cap, ACQUIRE_RELEASE, s, PublishTail)), PublishTail, s.item, s.out)
  {
    Counters(cap, s);
    hide Inv;
    SliceGrows(s.written, Head(s), Tail(s));
  }

  lemma PublishHeadPops<T>(cap: nat, s: State<T>)
    requires Inv(cap, s) && Enabled(cap, s, PublishHead) && Inv(cap, Apply(cap, ACQUIRE_RELEASE, s, PublishHead))
    ensures QueueStep(cap, Queue(cap, s), Queue(cap, Apply(cap, ACQUIRE_RELEASE, s, PublishHead)), PublishHead, s.item, s.out)
  {
    assert s.read[Head(s)] == s.written[Head(s)];
  }

  lemma OtherStepsStutter<T>(cap: nat, s: State<T>, step: Step<T>)
    requires Inv(cap, s) && Enabled(cap, s, step) && Inv(cap, Apply(cap, ACQUIRE_RELEASE, s, step))
    requires !step.PublishTail? && !step.PublishHead?
    ensures Queue(cap, Apply(cap, ACQUIRE_RELEASE, s, step)) == Queue(cap, s)
  {
    hide CapacityOk, Wrapped, TailsKnow, HeadsKnow, Within, TimesOk, ContentsOk;
    if step.WriteSlot? {
      assert (s.written + [s.item])[Head(s)..Tail(s)] == s.written[Head(s)..Tail(s)];
    }
  }

  /** Each step is a step of the queue; the two publishing stores are where push and pop take effect. */
  lemma StepRefinesQueue<T>(cap: nat, s: State<T>, step: Step<T>)
    requires Inv(cap, s) && Enabled(cap, s, step)
    ensures Inv(cap, Apply(cap, ACQUIRE_RELEASE, s, step))
    ensures QueueStep(cap, Queue(cap, s), Queue(cap, Apply(cap, ACQUIRE_RELEASE, s, step)), step, s.item, s.out)
  {
    hide Inv, Queue, Apply, Enabled;
    StepKeepsInv(cap, s, step);
    match step
    case PublishTail => PublishTailPushes(cap, s);
    case PublishHead => PublishHeadPops(cap, s);
    case _ => OtherStepsStutter(cap, s, step);
  }

  datatype Effect<T> = Pushed(item: T) | Popped(item: T)

  /** What a run does to the queue: the pushes and pops in the order they were published. */
  ghost function Effects<T>(cap: nat, s: State<T>, steps: seq<Step<T>>): seq<Effect<T>>
    requires cap > 0 && IsRun(cap, ACQUIRE_RELEASE, s, steps)
    decreases |steps|
  {
    if steps == [] then []
    else
      (match steps[0]
       case PublishTail => [Pushed(s.item)]
       case PublishHead => [Popped(s.out)]
       case _ => []) + Effects(cap, Apply(cap, ACQUIRE_RELEASE, s, steps[0]), steps[1..])
  }

  /** Plays effects on a bounded queue; false if one is not possible or pops another item. */
  ghost predicate Plays<T>(cap: nat, q: seq<T>, effects: seq<Effect<T>>, end: seq<T>)
    decreases |effects|
  {
    if effects == [] then end == q
    else
      match effects[0]
      case Pushed(x) => |q| < cap && Plays(cap, q + [x], effects[1..], end)
      case Popped(x) => q != [] && q[0] == x && Plays(cap, q[1..], effects[1..], end)
  }

  /** Every interleaving is a history of one bounded first-in-first-out queue. */
  lemma {:induction false} RunIsQueueHistory<T>(cap: nat, s: State<T>, steps: seq<Step<T>>)
    requires Inv(cap, s) && IsRun(cap, ACQUIRE_RELEASE, s, steps)
    ensures Inv(cap, After(cap, ACQUIRE_RELEASE, s, steps))
    ensures Plays(cap, Queue(cap, s), Effects(cap, s, steps), Queue(cap, After(cap, ACQUIRE_RELEASE, s, steps)))
    decreases |steps|
  {
    hide Queue, Apply, Enabled;
    if steps != [] {
      StepRefinesQueue(cap, s, steps[0]);
      RunIsQueueHistory(cap, Apply(cap, ACQUIRE_RELEASE, s, steps[0]), steps[1..]);
      var rest := Effects(cap, Apply(cap, ACQUIRE_RELEASE, s, steps[0]), steps[1..]);
      match steps[0]
      case PublishTail => assert ([Pushed(s.item)] + rest)[1..] == rest;
      case PublishHead => assert ([Popped(s.out)] + rest)[1..] == rest;
      case _ => assert [] + rest == rest;
    }
  }

  /** What was pushed is what was popped followed by the slots from head to tail, in order. */
  lemma PushedIsPoppedThenSlots<T>(cap: nat, s: State<T>, steps: seq<Step<T>>, k: nat)
    requires CapacityOk(cap) && Start(cap, s) && IsRun(cap, ACQUIRE_RELEASE, s, steps)
    requires k < |After(cap, ACQUIRE_RELEASE, s, steps).tails| - 1
    ensures var e := After(cap, ACQUIRE_RELEASE, s, steps);
            && Shaped(cap, e) && Tail(e) <= |e.written| && Head(e) <= |e.read| && Tail(e) - Head(e) <= cap
            && e.written[k] == if k < Head(e) then e.read[k] else e.slots[Slot(k, cap)]
  {
    StartIsInv(cap, s);
    RunKeepsInv(cap, s, steps);
    var e := After(cap, ACQUIRE_RELEASE, s, steps);
    assert k < |e.read| ==> e.read[k] == e.written[k];
  }

  // What the caller of a push passes is what enters the queue.

  /**
   The arguments of the pushes that went through, told from the steps alone: each publishing store
   belongs to the last attempt that began before it.
   */
  function PushedItems<T>(pending: Option<T>, steps: seq<Step<T>>): seq<T>
    decreases |steps|
  {
    if steps == [] then []
    else
      match steps[0]
      case BeginPush(x) => PushedItems(Some(x), steps[1..])
      case PublishTail => (if pending.Some? then [pending.value] else []) + PushedItems(None, steps[1..])
      case _ => PushedItems(pending, steps[1..])
  }

  function PushesOf<T>(effects: seq<Effect<T>>): seq<T> {
    if effects == [] then []
    else (if effects[0].Pushed? then [effects[0].item] else []) + PushesOf(effects[1..])
  }

  function PopsOf<T>(effects: seq<Effect<T>>): seq<T> {
    if effects == [] then []
    else (if effects[0].Popped? then [effects[0].item] else []) + PopsOf(effects[1..])
  }

  /** An attempt in progress holds the argument it began with. */
  predicate Pending<T(==)>(s: State<T>, pending: Option<T>) {
    s.ppc != PushIdle ==> pending == Some(s.item)
  }

  function PendingAfter<T>(pending: Option<T>, step: Step<T>): Option<T> {
    match step
    case BeginPush(x) => Some(x)
    case PublishTail => None
    case _ => pending
  }

  lemma NoStepsPush<T>(pending: Option<T>)
    ensures PushedItems(pending, []) == []
  {
  }

  lemma PushedUnfold<T>(pending: Option<T>, steps: seq<Step<T>>)
    requires steps != []
    ensures PushedItems(pending, steps)
         == (if steps[0].PublishTail? && pending.Some? then [pending.value] else [])
            + PushedItems(PendingAfter(pending, steps[0]), steps[1..])
  {
  }

  lemma StepKeepsPending<T>(cap: nat, s: State<T>, pending: Option<T>, step: Step<T>)
    requires cap > 0 && Shaped(cap, s) && Enabled(cap, s, step) && Pending(s, pending)
    ensures Pending(Apply(cap, ACQUIRE_RELEASE, s, step), PendingAfter(pending, step))
    ensures step.PublishTail? ==> pending == Some(s.item)
  {
  }

  /** What a run publishes is what its pushes were called with, in order. */
  lemma {:induction false} EffectsPushArguments<T>(cap: nat, s: State<T>, steps: seq<Step<T>>, pending: Option<T>)
    requires cap > 0 && IsRun(cap, ACQUIRE_RELEASE, s, steps) && Pending(s, pending)
    ensures PushesOf(Effects(cap, s, steps)) == PushedItems(pending, steps)
    decreases |steps|
  {
    hide Pending, Apply, Enabled;
    if steps != [] {
      StepKeepsPending(cap, s, pending, steps[0]);
      EffectsPushArguments(cap, Apply(cap, ACQUIRE_RELEASE, s, steps[0]), steps[1..], PendingAfter(pending, steps[0]));
      EffectsUnfold(cap, s, steps);
    }
  }

  /** The items written and published. */
  function PublishedItems<T>(s: State<T>): seq<T> {
    if 0 <= Tail(s) <= |s.written| then s.written[..Tail(s)] else []
  }

  lemma AppendTwice<T>(a: seq<T>, b: seq<T>, c: seq<T>)
    ensures (a + b) + c == a + (b + c)
  {
  }

  lemma RunUnfold<T>(cap: nat, s: State<T>, steps: seq<Step<T>>)
    requires cap > 0 && IsRun(cap, ACQUIRE_RELEASE, s, steps) && steps != []
    ensures Shaped(cap, s) && Enabled(cap, s, steps[0])
    ensures IsRun(cap, ACQUIRE_RELEASE, Apply(cap, ACQUIRE_RELEASE, s, steps[0]), steps[1..])
    ensures After(cap, ACQUIRE_RELEASE, s, steps) ==
            After(cap, ACQUIRE_RELEASE, Apply(cap, ACQUIRE_RELEASE, s, steps[0]), steps[1..])
  {
  }

  /** The published items are the ones the pushes were called with, behind those from before the run. */
  lemma {:induction false} WrittenAreArguments<T>(cap: nat, s: State<T>, steps: seq<Step<T>>, pending: Option<T>)
    requires Inv(cap, s) && IsRun(cap, ACQUIRE_RELEASE, s, steps) && Pending(s, pending)
    ensures PublishedItems(After(cap, ACQUIRE_RELEASE, s, steps)) == PublishedItems(s) + PushedItems(pending, steps)
    decreases |steps|
  {
    if steps == [] {
      NoStepsPush(pending);
    } else {
      RunUnfold(cap, s, steps);
      hide Pending, Inv, Apply, Enabled, PushedItems, PublishedItems, IsRun, After;
      var next, rest := Apply(cap, ACQUIRE_RELEASE, s, steps[0]), PendingAfter(pending, steps[0]);
      StepKeepsPending(cap, s, pending, steps[0]);
      StepKeepsInv(cap, s, steps[0]);
      StepPublishes(cap, s, steps[0]);
      WrittenAreArguments(cap, next, steps[1..], rest);
      PushedUnfold(pending, steps);
      AppendTwice(PublishedItems(s), if steps[0].PublishTail? then [s.item] else [], PushedItems(rest, steps[1..]));
    }
  }

  lemma StepPublishes<T>(cap: nat, s: State<T>, step: Step<T>)
    requires Inv(cap, s) && Enabled(cap, s, step)
    ensures PublishedItems(Apply(cap, ACQUIRE_RELEASE, s, step)) == PublishedItems(s) + if step.PublishTail? then [s.item] else []
  {
    Counters(cap, s);
    hide Inv;
    if step.PublishTail? {
      SliceGrows(s.written, 0, Tail(s));
    }
  }

  lemma EffectsUnfold<T>(cap: nat, s: State<T>, steps: seq<Step<T>>)
    requires cap > 0 && IsRun(cap, ACQUIRE_RELEASE, s, steps) && steps != []
    ensures var effects, rest := Effects(cap, s, steps), Effects(cap, Apply(cap, ACQUIRE_RELEASE, s, steps[0]), steps[1..]);
            && PushesOf(effects) == (if steps[0].PublishTail? then [s.item] else []) + PushesOf(rest)
            && PopsOf(effects) == (if steps[0].PublishHead? then [s.out] else []) + PopsOf(rest)
  {
    hide Apply;
    var rest := Effects(cap, Apply(cap, ACQUIRE_RELEASE, s, steps[0]), steps[1..]);
    match steps[0]
    case PublishTail => assert ([Pushed(s.item)] + rest)[1..] == rest;
    case PublishHead => assert ([Popped(s.out)] + rest)[1..] == rest;
    case _ => assert [] + rest == rest;
  }

  /** On a bounded queue, what was there and was pushed is what was popped and is still there. */
  lemma {:induction false} PlaysIsFirstInFirstOut<T>(cap: nat, q: seq<T>, effects: seq<Effect<T>>, end: seq<T>)
    requires Plays(cap, q, effects, end)
    ensures q + PushesOf(effects) == PopsOf(effects) + end
    decreases |effects|
  {
    if effects != [] {
      var pushes, pops := PushesOf(effects[1..]), PopsOf(effects[1..]);
      match effects[0]
      case Pushed(x) =>
        PlaysIsFirstInFirstOut(cap, q + [x], effects[1..], end);
        assert PushesOf(effects) == [x] + pushes && PopsOf(effects) == pops;
        hide PushesOf, PopsOf, Plays;
        assert q + ([x] + pushes) == (q + [x]) + pushes;
      case Popped(x) =>
        PlaysIsFirstInFirstOut(cap, q[1..], effects[1..], end);
        assert PushesOf(effects) == pushes && PopsOf(effects) == [x] + pops && x == q[0];
        hide PushesOf, PopsOf, Plays;
        assert q + pushes == [x] + (q[1..] + pushes);
        assert ([x] + pops) + end == [x] + (pops + end);
    }
  }

  /**
   Over every run from a start state, the arguments of the pushes that went through are, in order,
   the items popped and then the items in the slots from head to tail.
   */
  lemma ArgumentsArePoppedThenSlots<T>(cap: nat, s: State<T>, steps: seq<Step<T>>)
    requires CapacityOk(cap) && Start(cap, s) && IsRun(cap, ACQUIRE_RELEASE, s, steps)
    ensures var e := After(cap, ACQUIRE_RELEASE, s, steps);
            var pushed, popped := PushedItems(None, steps), PopsOf(Effects(cap, s, steps));
            && Shaped(cap, e) && |pushed| == Tail(e) <= |e.written| && |popped| == Head(e) <= Tail(e) && Tail(e) - Head(e) <= cap
            && popped == pushed[..Head(e)] && pushed == PublishedItems(e)
            && forall k :: Head(e) <= k < Tail(e) ==> e.slots[Slot(k, cap)] == pushed[k]
  {
    StartIsInv(cap, s);
    StartIsEmpty(cap, s);
    hide CapacityOk, Start, Inv, Queue, Effects, PushedItems, PushesOf, PopsOf, Plays, PublishedItems, Pending, IsRun, After;
    var e, effects := After(cap, ACQUIRE_RELEASE, s, steps), Effects(cap, s, steps);
    RunIsQueueHistory(cap, s, steps);
    EffectsPushArguments(cap, s, steps, None);
    PlaysIsFirstInFirstOut(cap, Queue(cap, s), effects, Queue(cap, e));
    EffectsCountPops(cap, s, steps);
    WrittenAreArguments(cap, s, steps, None);
    Counters(cap, e);
    QueueIsSlots(cap, e);
    var pushed, popped := PushedItems(None, steps), PopsOf(effects);
    assert [] + pushed == pushed;
    assert pushed == popped + Queue(cap, e);
    forall k | Head(e) <= k < Tail(e) ensures e.slots[Slot(k, cap)] == pushed[k] {
      assert pushed[k] == Queue(cap, e)[k - Head(e)];
    }
  }

  lemma StartIsEmpty<T>(cap: nat, s: State<T>)
    requires Start(cap, s) && Inv(cap, s)
    ensures cap > 0 && Queue(cap, s) == [] && PublishedItems(s) == [] && |s.heads| == 1 && Pending(s, None)
  {
  }

  lemma QueueIsSlots<T>(cap: nat, s: State<T>)
    requires Inv(cap, s)
    ensures |Queue(cap, s)| == Tail(s) - Head(s)
    ensures forall k :: 0 <= k < |Queue(cap, s)| ==> Queue(cap, s)[k] == s.slots[Slot(Head(s) + k, cap)]
  {
    forall k | 0 <= k < |Queue(cap, s)| ensures Queue(cap, s)[k] == s.slots[Slot(Head(s) + k, cap)] {
      assert s.written[Head(s) + k] == s.slots[Slot(Head(s) + k, cap)];
    }
  }

  /** Each published pop moves the head by one. */
  lemma {:induction false} EffectsCountPops<T>(cap: nat, s: State<T>, steps: seq<Step<T>>)
    requires cap > 0 && IsRun(cap, ACQUIRE_RELEASE, s, steps)
    ensures |After(cap, ACQUIRE_RELEASE, s, steps).heads| == |s.heads| + |PopsOf(Effects(cap, s, steps))|
    decreases |steps|
  {
    hide Enabled;
    if steps != [] {
      EffectsCountPops(cap, Apply(cap, ACQUIRE_RELEASE, s, steps[0]), steps[1..]);
      EffectsUnfold(cap, s, steps);
    }
  }

  /** A push loads the head, and a pop the tail, exactly if the one it saw last says full, or empty. */
  lemma LoadsOnlyWhenNeeded<T>(cap: nat, s: State<T>, item: T)
    requires Inv(cap, s)
    ensures s.ppc.PushIdle? ==>
              (Apply(cap, ACQUIRE_RELEASE, s, BeginPush(item)).ppc == if Tail(s) == s.headSeen + cap then PushRefresh else PushWrite)
    ensures s.cpc.PopIdle? ==>
              (Apply(cap, ACQUIRE_RELEASE, s, BeginPop).cpc == if Head(s) == s.tailSeen then PopRefresh else PopRead)
  {
    WrappedDifference(Tail(s), s.headSeen, cap);
    WrappedEqual(s.tailSeen, Head(s), cap);
  }

  /** A push gives up exactly if the head it loads is a whole buffer behind the tail. */
  lemma PushFailsIff<T>(cap: nat, s: State<T>, i: nat)
    requires Inv(cap, s) && Enabled(cap, s, RefreshHead(i))
    ensures var failed := Apply(cap, ACQUIRE_RELEASE, s, RefreshHead(i)).ppc.PushIdle?;
            && (failed <==> |Queue(cap, s)| == cap - (Head(s) - i))
            && (failed && i == Head(s) ==> |Queue(cap, s)| == cap)
            && (|Queue(cap, s)| == cap ==> failed && i == Head(s))
  {
    WrappedDifference(Tail(s), i, cap);
    assert s.heads[i].word == i % WORD;
  }

  /** A pop gives up exactly if the tail it loads is at the head; with the newest tail, if the queue is empty. */
  lemma PopFailsIff<T>(cap: nat, s: State<T>, i: nat)
    requires Inv(cap, s) && Enabled(cap, s, RefreshTail(i))
    ensures var failed := Apply(cap, ACQUIRE_RELEASE, s, RefreshTail(i)).cpc.PopIdle?;
            && (failed <==> |Queue(cap, s)| == Tail(s) - i)
            && (failed && i == Tail(s) ==> Queue(cap, s) == [])
            && (Queue(cap, s) == [] ==> failed)
  {
    WrappedEqual(i, Head(s), cap);
    assert s.tails[i].word == i % WORD;
  }

  // All four orderings are needed.

  ghost predicate RaceFree<T(!new)>(cap: nat, o: Orderings, s: State<T>)
    requires cap > 0
  {
    forall steps, step ::
      IsRun(cap, o, s, steps) && Enabled(cap, After(cap, o, s, steps), step) ==> !Races(cap, After(cap, o, s, steps), step)
  }

  lemma RunOfNone<T>(cap: nat, o: Orderings, s: State<T>)
    requires cap > 0 && Shaped(cap, s)
    ensures IsRun(cap, o, s, []) && After(cap, o, s, []) == s
  {
  }

  lemma RunOfOne<T>(cap: nat, o: Orderings, s: State<T>, step: Step<T>, rest: seq<Step<T>>)
    requires cap > 0 && Shaped(cap, s) && Enabled(cap, s, step) && IsRun(cap, o, Apply(cap, o, s, step), rest)
    ensures IsRun(cap, o, s, [step] + rest)
    ensures After(cap, o, s, [step] + rest) == After(cap, o, Apply(cap, o, s, step), rest)
  {
    assert ([step] + rest)[1..] == rest;
  }

  /** A run that can go on for one more step. */
  lemma {:induction false} RunAndStep<T>(cap: nat, o: Orderings, s: State<T>, steps: seq<Step<T>>, step: Step<T>)
    requires cap > 0 && IsRun(cap, o, s, steps) && Enabled(cap, After(cap, o, s, steps), step)
    ensures IsRun(cap, o, s, steps + [step])
    ensures After(cap, o, s, steps + [step]) == Apply(cap, o, After(cap, o, s, steps), step)
    decreases |steps|
  {
    hide Enabled, Apply;
    if steps == [] {
      RunOfNone(cap, o, Apply(cap, o, s, step));
      RunOfOne(cap, o, s, step, []);
      assert [] + [step] == [step] + [];
    } else {
      RunAndStep(cap, o, Apply(cap, o, s, steps[0]), steps[1..], step);
      assert (steps + [step])[1..] == steps[1..] + [step];
    }
  }

  /** Three steps at a time: one push, or the start of one pop. */
  lemma RunAndThree<T>(cap: nat, o: Orderings, s: State<T>, steps: seq<Step<T>>, x: Step<T>, y: Step<T>, z: Step<T>)
    requires cap > 0 && IsRun(cap, o, s, steps)
    requires var s0 := After(cap, o, s, steps);
             && Enabled(cap, s0, x)
             && var s1 := Apply(cap, o, s0, x);
             && Enabled(cap, s1, y)
             && var s2 := Apply(cap, o, s1, y);
             && Enabled(cap, s2, z)
    ensures IsRun(cap, o, s, steps + [x, y, z])
    ensures After(cap, o, s, steps + [x, y, z]) == Apply(cap, o, Apply(cap, o, Apply(cap, o, After(cap, o, s, steps), x), y), z)
  {
    hide Enabled, Apply, IsRun, After, Shaped;
    RunAndStep(cap, o, s, steps, x);
    RunAndStep(cap, o, s, steps + [x], y);
    RunAndStep(cap, o, s, steps + [x] + [y], z);
    assert steps + [x] + [y] + [z] == steps + [x, y, z];
  }

  /** After `k` pushes that nobody popped yet. */
  ghost predicate Filled<T>(cap: nat, o: Orderings, s: State<T>, k: nat) {
    && cap > 0 && Shaped(cap, s) && |s.tails| == k + 1 && (forall i :: 0 <= i <= k ==> s.tails[i].word == i) && |s.heads| == 1
    && s.heads[0].word == 0 && s.ppc == PushIdle && s.headCached == s.headSeen == 0 && s.pClock == Clock(k, 0)
    && s.cpc == PopIdle && s.tailCached == s.tailSeen == 0 && s.cClock == Clock(0, 0) && |s.written| == k
    && (k > 0 ==> s.writeTimes[0] > 0)
    && (!o.releaseTail ==> forall i :: 0 <= i <= k ==> s.tails[i].clock == Clock(0, 0))
  }

  lemma SmallWord(k: nat)
    requires k < WORD
    ensures k % WORD == k
  {
  }

  /** Counters that did not wrap yet. */
  lemma SmallCounter(k: nat, cap: nat)
    requires CapacityOk(cap) && k < cap
    ensures WordSub(k, 0) == k && (k + 1) % WORD == k + 1 && SlotOf(k, cap) == k
  {
    assert cap < WORD && Slot(k, cap) == k;
    hide And, WordSub, SlotOf, Slot;
    WrappedDifference(k, 0, cap);
    MaskedSlot(k, cap);
    SmallWord(0);
    SmallWord(k);
    SmallWord(k + 1);
  }

  lemma PushOnce<T>(cap: nat, o: Orderings, s: State<T>, item: T, k: nat)
    requires CapacityOk(cap) && Filled(cap, o, s, k) && k < cap
    ensures Enabled(cap, s, BeginPush(item))
    ensures var s1 := Apply(cap, o, s, BeginPush(item));
            && Enabled(cap, s1, WriteSlot)
            && var s2 := Apply(cap, o, s1, WriteSlot);
            && Enabled(cap, s2, PublishTail) && Filled(cap, o, Apply(cap, o, s2, PublishTail), k + 1)
  {
    SmallCounter(k, cap);
    hide CapacityOk, WordSub, SlotOf, Slot, And;
    var s1 := Apply(cap, o, s, BeginPush(item));
    assert s1 == s.(item := item, tail := k, ppc := PushWrite);
  }

  /** The buffer can be filled, whatever the orderings. */
  lemma {:induction false} Fill<T>(cap: nat, o: Orderings, s: State<T>, item: T, k: nat) returns (steps: seq<Step<T>>)
    requires CapacityOk(cap) && Start(cap, s) && k <= cap
    ensures IsRun(cap, o, s, steps) && Filled(cap, o, After(cap, o, s, steps), k)
  {
    if k == 0 {
      steps := [];
      RunOfNone(cap, o, s);
    } else {
      steps := Fill(cap, o, s, item, k - 1);
      hide CapacityOk, Enabled, Apply, IsRun, After;
      PushOnce(cap, o, After(cap, o, s, steps), item, k - 1);
      RunAndThree(cap, o, s, steps, BeginPush(item), WriteSlot, PublishTail);
      steps := steps + [BeginPush(item), WriteSlot, PublishTail];
    }
  }

  /** Starting to pop the first item, having seen its tail. */
  lemma PopFirst<T>(cap: nat, o: Orderings, s: State<T>, k: nat)
    requires CapacityOk(cap) && Filled(cap, o, s, k) && k > 0
    ensures Enabled(cap, s, BeginPop)
    ensures var s1 := Apply(cap, o, s, BeginPop);
            && Enabled(cap, s1, RefreshTail(1))
            && var s2 := Apply(cap, o, s1, RefreshTail(1));
            && Enabled(cap, s2, ReadSlot) && s2.head == 0 && s2.cpc == PopRead
            && s2 == s.(head := 0, cpc := PopRead, tailCached := 1, tailSeen := 1, cClock := s2.cClock)
            && s2.cClock == if o.acquireTail then s.cClock.Join(s.tails[1].clock) else s.cClock
  {
    MaskedSlot(0, cap);
  }

  /** Unless the tail is released and acquired, the consumer sees it without the write of the slot. */
  lemma TailOrderingNeeded<T>(cap: nat, o: Orderings, s: State<T>, item: T) returns (steps: seq<Step<T>>)
    requires CapacityOk(cap) && Start(cap, s) && !(o.releaseTail && o.acquireTail)
    ensures IsRun(cap, o, s, steps)
    ensures var e := After(cap, o, s, steps); Enabled(cap, e, ReadSlot) && Races(cap, e, ReadSlot)
  {
    steps := Fill(cap, o, s, item, 1);
    hide IsRun, After;
    var f := After(cap, o, s, steps);
    PopFirst(cap, o, f, 1);
    MaskedSlot(0, cap);
    RunAndStep(cap, o, s, steps, BeginPop);
    RunAndStep(cap, o, s, steps + [BeginPop], RefreshTail(1));
    steps := steps + [BeginPop] + [RefreshTail(1)];
  }

  /** A full buffer whose first item was just popped. */
  ghost predicate PoppedOnce<T>(cap: nat, o: Orderings, s: State<T>) {
    && cap > 0 && Shaped(cap, s) && |s.tails| == cap + 1 && Last(s.tails).word == cap && |s.heads| == 1
    && s.ppc == PushIdle && s.headCached == s.headSeen == 0 && s.pClock.consumer == 0
    && s.cpc == PopPublish && s.head == 0 && s.readTimes[0] > 0
  }

  lemma PopOnce<T>(cap: nat, o: Orderings, s: State<T>)
    requires CapacityOk(cap) && Filled(cap, o, s, cap)
    ensures Enabled(cap, s, BeginPop)
    ensures var s1 := Apply(cap, o, s, BeginPop);
            && Enabled(cap, s1, RefreshTail(1))
            && var s2 := Apply(cap, o, s1, RefreshTail(1));
            && Enabled(cap, s2, ReadSlot) && PoppedOnce(cap, o, Apply(cap, o, s2, ReadSlot))
  {
    PopFirst(cap, o, s, cap);
    MaskedSlot(0, cap);
  }

  lemma PushAgain<T>(cap: nat, o: Orderings, s: State<T>, item: T)
    requires CapacityOk(cap) && PoppedOnce(cap, o, s)
    ensures Enabled(cap, s, PublishHead)
    ensures var s1 := Apply(cap, o, s, PublishHead);
            && Enabled(cap, s1, BeginPush(item))
            && var s2 := Apply(cap, o, s1, BeginPush(item));
            && Enabled(cap, s2, RefreshHead(1))
            && var e := Apply(cap, o, s2, RefreshHead(1));
            && Enabled(cap, e, WriteSlot) && (!(o.releaseHead && o.acquireHead) ==> Races(cap, e, WriteSlot))
  {
    WrappedDifference(cap, 0, cap);
    WrappedDifference(cap, 1, cap);
    MaskedSlot(cap, cap);
  }

  /** Unless the head is released and acquired, the producer sees a free slot without the read that freed it. */
  lemma HeadOrderingNeeded<T>(cap: nat, o: Orderings, s: State<T>, item: T) returns (steps: seq<Step<T>>)
    requires CapacityOk(cap) && Start(cap, s) && !(o.releaseHead && o.acquireHead)
    ensures IsRun(cap, o, s, steps)
    ensures var e := After(cap, o, s, steps); Enabled(cap, e, WriteSlot) && Races(cap, e, WriteSlot)
  {
    assert cap > 0;
    hide CapacityOk, Enabled, Apply, IsRun, After, Start, Races, Filled;
    steps := Fill(cap, o, s, item, cap);
    PopOnce(cap, o, After(cap, o, s, steps));
    RunAndThree(cap, o, s, steps, BeginPop, RefreshTail(1), ReadSlot);
    steps := steps + [BeginPop, RefreshTail(1), ReadSlot];
    PushAgain(cap, o, After(cap, o, s, steps), item);
    RunAndThree(cap, o, s, steps, PublishHead, BeginPush(item), RefreshHead(1));
    steps := steps + [PublishHead, BeginPush(item), RefreshHead(1)];
  }

  /** The buffer is free of data races over every run exactly if all four accesses are ordered. */
  lemma RaceFreeIffOrdered<T(!new)>(cap: nat, o: Orderings, s: State<T>, item: T)
    requires CapacityOk(cap) && Start(cap, s)
    ensures RaceFree(cap, o, s) <==> o == ACQUIRE_RELEASE
  {
    if o == ACQUIRE_RELEASE {
      StartIsInv(cap, s);
      forall steps, step | IsRun(cap, o, s, steps) && Enabled(cap, After(cap, o, s, steps), step)
        ensures !Races(cap, After(cap, o, s, steps), step)
      {
        RunKeepsInv(cap, s, steps);
        StepDoesNotRace(cap, After(cap, o, s, steps), step);
      }
    } else if !(o.releaseTail && o.acquireTail) {
      var steps := TailOrderingNeeded(cap, o, s, item);
    } else {
      var steps := HeadOrderingNeeded(cap, o, s, item);
    }
  }
}
