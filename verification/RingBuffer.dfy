/** The ring buffer in place (ring_buffer.hpp), with one thread calling both ends in turn. */
module RingBuffer {
  import opened Bits
  import opened RingMachine

  /** From the slot of item number `first` on, the slots hold these items. */
  ghost predicate Holds<T>(slots: seq<T>, cap: nat, first: nat, items: seq<T>)
    requires cap > 0
  {
    |slots| == cap && forall k {:trigger items[k]} :: 0 <= k < |items| ==> slots[Slot(first + k, cap)] == items[k]
  }

  lemma HoldsAfterPush<T>(slots: seq<T>, cap: nat, first: nat, items: seq<T>, item: T)
    requires cap > 0 && Holds(slots, cap, first, items) && |items| < cap
    ensures Holds(slots[Slot(first + |items|, cap) := item], cap, first, items + [item])
  {
    var j, items' := Slot(first + |items|, cap), items + [item];
    forall k {:trigger items'[k]} | 0 <= k < |items'| ensures slots[j := item][Slot(first + k, cap)] == items'[k] {
      if k < |items| {
        assert items'[k] == items[k];
        if Slot(first + k, cap) == j {
          SameSlot(first + k, first + |items|, cap);
        }
      }
    }
  }

  lemma HoldsAfterPop<T>(slots: seq<T>, cap: nat, first: nat, items: seq<T>)
    requires cap > 0 && Holds(slots, cap, first, items) && items != []
    ensures slots[Slot(first, cap)] == items[0] && Holds(slots, cap, first + 1, items[1..])
  {
    assert items[0] == slots[Slot(first + 0, cap)];
    forall k {:trigger items[1..][k]} | 0 <= k < |items[1..]| ensures slots[Slot(first + 1 + k, cap)] == items[1..][k] {
      assert items[k + 1] == slots[Slot(first + (k + 1), cap)];
    }
  }

  class SpscRingBuffer<T(0)> {
    const capacity: nat
    const buffer: array<T>
    var tail: nat
    var headCached: nat
    var head: nat
    var tailCached: nat
    /** The true counters, and the items in the buffer, oldest first. */
    ghost var pushed: nat
    ghost var popped: nat
    ghost var headSeen: nat
    ghost var tailSeen: nat
    ghost var contents: seq<T>

    ghost predicate Valid()
      reads this, buffer
    {
      && CapacityOk(capacity) && buffer.Length == capacity
      && tail == pushed % WORD && head == popped % WORD && headCached == headSeen % WORD && tailCached == tailSeen % WORD
      && headSeen <= popped <= tailSeen <= pushed <= headSeen + capacity
      && |contents| == pushed - popped
      && Holds(buffer[..], capacity, popped, contents)
    }

    constructor (cap: nat)
      requires CapacityOk(cap)
      ensures Valid() && capacity == cap && contents == [] && fresh(buffer)
    {
      capacity := cap;
      buffer := new T[cap];
      tail, headCached, head, tailCached := 0, 0, 0, 0;
      pushed, popped, headSeen, tailSeen, contents := 0, 0, 0, 0, [];
    }

    /** Pushes unless the buffer is full; the cached head is refreshed only when it says full. */
    method TryPush(item: T) returns (ok: bool)
      requires Valid()
      modifies this`tail, this`headCached, this`pushed, this`headSeen, this`contents, buffer
      ensures Valid()
      ensures ok <==> |old(contents)| < capacity
      ensures contents == if ok then old(contents) + [item] else old(contents)
      ensures headCached == if WordSub(old(tail), old(headCached)) == capacity then old(head) else old(headCached)
    {
      hide Holds, SlotOf, WordSub, Slot, And;
      WrappedDifference(pushed, headSeen, capacity);
      WrappedDifference(pushed, popped, capacity);
      NextWord(pushed);
      var t := tail;
      if WordSub(t, headCached) == capacity {
        headCached, headSeen := head, popped;
        if WordSub(t, headCached) == capacity {
          return false;
        }
      }
      MaskedSlot(pushed, capacity);
      HoldsAfterPush(buffer[..], capacity, popped, contents, item);
      buffer[SlotOf(t, capacity)] := item;
      tail, pushed, contents := (t + 1) % WORD, pushed + 1, contents + [item];
      ok := true;
    }

    /** Pops the oldest item unless the buffer is empty; then `out` stays as it was. */
    method TryPop(current: T) returns (ok: bool, out: T)
      requires Valid()
      modifies this`head, this`tailCached, this`popped, this`tailSeen, this`contents
      ensures Valid()
      ensures ok <==> old(contents) != []
      ensures if ok then old(contents) == [out] + contents else contents == old(contents) && out == current
      ensures tailCached == if old(head) == old(tailCached) then old(tail) else old(tailCached)
    {
      hide Holds, SlotOf, WordSub, Slot, And;
      NextWord(popped);
      WrappedEqual(tailSeen, popped, capacity);
      WrappedEqual(pushed, popped, capacity);
      out := current;
      var h := head;
      if h == tailCached {
        tailCached, tailSeen := tail, pushed;
        if h == tailCached {
          return false, out;
        }
      }
      MaskedSlot(popped, capacity);
      HoldsAfterPop(buffer[..], capacity, popped, contents);
      out := buffer[SlotOf(h, capacity)];
      head, popped, contents := (h + 1) % WORD, popped + 1, contents[1..];
      ok := true;
    }

    /** From either end's own thread, the wrapped difference is the number of items. */
    method SizeApprox() returns (size: nat)
      requires Valid()
      ensures size == |contents|
    {
      WrappedDifference(pushed, popped, capacity);
      size := WordSub(tail, head);
    }
  }
}
