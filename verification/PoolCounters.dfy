/**
 The counters of a pool: what `capacity`, `in_use` and `growth_events` say, and how a run of
 allocations moves them.
 */
module PoolCounters {
  import opened Arithmetic

  datatype Counters = Counters(chunkSize: nat, capacity: nat, inUse: nat, growthEvents: nat) {
    /** One more block is handed out; a pool with none left first reserves one more chunk. */
    function Allocated(): Counters {
      if inUse == capacity then this.(capacity := capacity + chunkSize, growthEvents := growthEvents + 1, inUse := inUse + 1)
      else this.(inUse := inUse + 1)
    }

    function Deallocated(): Counters
      requires inUse > 0
    {
      this.(inUse := inUse - 1)
    }
  }

  function Initial(initialCapacity: nat): Counters {
    var chunkSize := if initialCapacity == 0 then 1 else initialCapacity;
    Counters(chunkSize, chunkSize, 0, 0)
  }

  datatype Op = Allocate | Deallocate

  /** A block is only given back while one is out. */
  predicate Balanced(inUse: nat, ops: seq<Op>)
    decreases |ops|
  {
    ops == [] || (if ops[0].Allocate? then Balanced(inUse + 1, ops[1..]) else inUse > 0 && Balanced(inUse - 1, ops[1..]))
  }

  function Run(c: Counters, ops: seq<Op>): Counters
    requires Balanced(c.inUse, ops)
    decreases |ops|
  {
    if ops == [] then c
    else Run(if ops[0].Allocate? then c.Allocated() else c.Deallocated(), ops[1..])
  }

  function Max(a: nat, b: nat): nat {
    if a < b then b else a
  }

  /** The largest number of blocks out at once during a run. */
  function Peak(inUse: nat, ops: seq<Op>): nat
    requires Balanced(inUse, ops)
    decreases |ops|
  {
    if ops == [] then inUse
    else Max(inUse, Peak(if ops[0].Allocate? then inUse + 1 else inUse - 1, ops[1..]))
  }

  /** Capacity is what the chunks hold, and the last chunk was reserved only when it was needed. */
  ghost predicate Tight(c: Counters, peak: nat) {
    && c.chunkSize > 0 && c.inUse <= peak <= c.capacity
    && c.capacity == c.chunkSize * (1 + c.growthEvents)
    && (c.growthEvents > 0 ==> c.capacity - c.chunkSize < peak)
  }

  lemma AllocateKeepsTight(c: Counters, peak: nat)
    requires Tight(c, peak)
    ensures Tight(c.Allocated(), Max(peak, c.inUse + 1))
  {
    assert c.chunkSize * (1 + (c.growthEvents + 1)) == c.chunkSize * (1 + c.growthEvents) + c.chunkSize;
  }

  lemma {:induction false} RunKeepsTight(c: Counters, ops: seq<Op>, peak: nat)
    requires Tight(c, peak) && Balanced(c.inUse, ops)
    ensures Tight(Run(c, ops), Max(peak, Peak(c.inUse, ops)))
    decreases |ops|
  {
    if ops != [] {
      if ops[0].Allocate? {
        AllocateKeepsTight(c, peak);
        RunKeepsTight(c.Allocated(), ops[1..], Max(peak, c.inUse + 1));
        PeakCoversStart(c.inUse + 1, ops[1..]);
      } else {
        RunKeepsTight(c.Deallocated(), ops[1..], peak);
      }
    }
  }

  lemma PeakCoversStart(inUse: nat, ops: seq<Op>)
    requires Balanced(inUse, ops)
    ensures Peak(inUse, ops) >= inUse
  {
  }

  function CeilDiv(a: nat, b: nat): nat
    requires b > 0
  {
    (a + b - 1) / b
  }

  lemma CeilDivIs(a: nat, b: nat, q: nat)
    requires b > 0 && b * (q - 1) < a <= b * q
    ensures CeilDiv(a, b) == q
  {
    var r := a + b - 1 - b * q;
    assert b * (q - 1) == b * q - b;
    assert a + b - 1 == b * q + r && 0 <= r < b;
    DivisionIs(a + b - 1, b, q, r);
  }

  /** The pool grows exactly as often as the peak use requires, over any run. */
  lemma GrowthIsExact(initialCapacity: nat, ops: seq<Op>)
    requires Balanced(0, ops)
    ensures var c := Run(Initial(initialCapacity), ops);
            var peak := Peak(0, ops);
            && c.chunkSize == (if initialCapacity > 0 then initialCapacity else 1)
            && c.capacity == c.chunkSize * (1 + c.growthEvents)
            && c.growthEvents + 1 == CeilDiv(Max(peak, 1), c.chunkSize)
  {
    var start := Initial(initialCapacity);
    RunKeepsTight(start, ops, 0);
    RunKeepsChunkSize(start, ops);
    var c, peak := Run(start, ops), Peak(0, ops);
    assert c.chunkSize * (c.growthEvents + 1 - 1) == c.capacity - c.chunkSize;
    CeilDivIs(Max(peak, 1), c.chunkSize, c.growthEvents + 1);
  }

  /** `n` allocations and nothing else. */
  function Allocations(n: nat): seq<Op> {
    if n == 0 then [] else [Allocate] + Allocations(n - 1)
  }

  lemma {:induction false} AllocationsBalance(inUse: nat, n: nat)
    ensures Balanced(inUse, Allocations(n)) && Peak(inUse, Allocations(n)) == inUse + n
    decreases n
  {
    if n > 0 {
      AllocationsBalance(inUse + 1, n - 1);
      assert Allocations(n)[1..] == Allocations(n - 1);
    }
  }

  lemma {:induction false} AllocationsInUse(c: Counters, n: nat)
    requires Balanced(c.inUse, Allocations(n))
    ensures Run(c, Allocations(n)).inUse == c.inUse + n
    decreases n
  {
    if n > 0 {
      assert Allocations(n)[1..] == Allocations(n - 1);
      AllocationsInUse(c.Allocated(), n - 1);
    }
  }

  /** A pool for `n` blocks hands out `n` without growing; the next one reserves as many again. */
  lemma FirstGrowth(n: nat)
    requires n > 0
    ensures Balanced(0, Allocations(n)) && Run(Initial(n), Allocations(n)) == Counters(n, n, n, 0)
    ensures Balanced(0, Allocations(n + 1)) && Run(Initial(n), Allocations(n + 1)) == Counters(n, 2 * n, n + 1, 1)
  {
    forall k | k == n || k == n + 1
      ensures Balanced(0, Allocations(k)) && Peak(0, Allocations(k)) == k && Run(Initial(n), Allocations(k)).inUse == k
    {
      AllocationsBalance(0, k);
      AllocationsInUse(Initial(n), k);
    }
    GrowthIsExact(n, Allocations(n));
    GrowthIsExact(n, Allocations(n + 1));
    CeilDivIs(n, n, 1);
    CeilDivIs(n + 1, n, 2);
  }

  /** `Peak` bounds the blocks out after every prefix of a run, and some prefix has that many out. */
  lemma {:induction false} PeakIsReached(c: Counters, ops: seq<Op>) returns (k: nat)
    requires Balanced(c.inUse, ops)
    ensures k <= |ops| && Balanced(c.inUse, ops[..k]) && Run(c, ops[..k]).inUse == Peak(c.inUse, ops)
    decreases |ops|
  {
    if ops == [] || Peak(c.inUse, ops) == c.inUse {
      k := 0;
    } else {
      k := PeakIsReached(if ops[0].Allocate? then c.Allocated() else c.Deallocated(), ops[1..]);
      k := k + 1;
      assert ops[..k][1..] == ops[1..][..k - 1];
    }
  }

  lemma {:induction false} PeakIsBound(c: Counters, ops: seq<Op>, k: nat)
    requires Balanced(c.inUse, ops) && k <= |ops|
    ensures Balanced(c.inUse, ops[..k]) && Run(c, ops[..k]).inUse <= Peak(c.inUse, ops)
    decreases |ops|
  {
    if k > 0 {
      PeakIsBound(if ops[0].Allocate? then c.Allocated() else c.Deallocated(), ops[1..], k - 1);
      assert ops[..k][1..] == ops[1..][..k - 1];
    }
  }

  lemma {:induction false} RunKeepsChunkSize(c: Counters, ops: seq<Op>)
    requires Balanced(c.inUse, ops)
    ensures Run(c, ops).chunkSize == c.chunkSize
    decreases |ops|
  {
    if ops != [] {
      RunKeepsChunkSize(if ops[0].Allocate? then c.Allocated() else c.Deallocated(), ops[1..]);
    }
  }
}
