/**
 The fixed-block pool (slab_allocator.hpp). Memory is a map from byte addresses to blocks; a free
 block holds the link to the next free one, so the free list is threaded through the same memory
 that the objects live in.
 */
module Slab {
  import opened Arithmetic
  import opened PoolCounters

  type Addr = nat

  const NULL: Addr := 0
  const POINTER_SIZE: nat := 8

  datatype Block<T> = FreeNode(next: Addr) | Uninitialized | Object(value: T)

  /** `n` sizes in a row, as a repeated sum: products of two variables make every proof near them slow. */
  function Times(n: nat, size: nat): nat {
    if n == 0 then 0 else Times(n - 1, size) + size
  }

  lemma {:induction false} TimesIsProduct(n: nat, size: nat)
    ensures Times(n, size) == n * size
  {
    if n > 0 {
      TimesIsProduct(n - 1, size);
      assert n * size == (n - 1) * size + size;
    }
  }

  lemma {:induction false} TimesGrows(m: nat, n: nat, size: nat)
    requires m <= n
    ensures Times(m, size) <= Times(n, size)
    ensures m < n ==> Times(m, size) + size <= Times(n, size)
    decreases n
  {
    if m < n {
      TimesGrows(m, n - 1, size);
    }
  }

  lemma DividesTransitively(n: nat, m: nat, k: nat)
    requires m > 0 && k > 0 && n % m == 0 && m % k == 0
    ensures n % k == 0
  {
    var a, b := n / m, m / k;
    assert n == a * m && m == b * k;
    assert a * (b * k) == (a * b) * k;
    MultipleHasNoRemainder(a * b, k);
  }

  lemma SumOfMultiples(a: nat, i: nat, b: nat, k: nat)
    requires k > 0 && a % k == 0 && b % k == 0
    ensures (a + Times(i, b)) % k == 0
  {
    TimesIsProduct(i, b);
    ProductOfMultiple(i, b, k);
    SumHasNoRemainder(a, Times(i, b), k);
  }

  lemma SumHasNoRemainder(a: nat, c: nat, k: nat)
    requires k > 0 && a % k == 0 && c % k == 0
    ensures (a + c) % k == 0
  {
    var m, n := a / k, c / k;
    assert a == m * k && c == n * k;
    assert m * k + n * k == (m + n) * k;
    MultipleHasNoRemainder(m + n, k);
  }

  lemma ProductOfMultiple(i: nat, b: nat, k: nat)
    requires k > 0 && b % k == 0
    ensures (i * b) % k == 0
  {
    var n := b / k;
    assert b == n * k;
    assert i * (n * k) == (i * n) * k;
    MultipleHasNoRemainder(i * n, k);
  }

  function RoundUp(size: nat, align: nat): nat
    requires align > 0
  {
    ((size + align - 1) / align) * align
  }

  lemma RoundUpIs(size: nat, align: nat)
    requires align > 0
    ensures RoundUp(size, align) % align == 0 && size <= RoundUp(size, align) < size + align
  {
    var q := (size + align - 1) / align;
    assert size + align - 1 == q * align + (size + align - 1) % align;
    MultipleHasNoRemainder(q, align);
  }

  /** Two ranges of the same number of bytes do not overlap. */
  predicate Apart(a: Addr, b: Addr, bytes: nat) {
    a + bytes <= b || b + bytes <= a
  }

  /** The addresses in a list (by recursion, as the lists here are built and taken apart). */
  function Elements(s: seq<Addr>): set<Addr> {
    if s == [] then {} else {s[0]} + Elements(s[1..])
  }

  datatype Layout = Layout(blockSize: nat, blockAlign: nat, chunkSize: nat) {
    predicate Proper() {
      blockSize > 0 && blockAlign > 0 && chunkSize > 0
    }

    function ChunkBytes(): nat {
      Times(chunkSize, blockSize)
    }

    /** What `operator new` promises about a chunk: not null, aligned, apart from all chunks in use. */
    predicate IsFreshChunk(raw: Addr, chunks: seq<Addr>)
      requires blockAlign > 0
    {
      && raw > 0 && raw % blockAlign == 0
      && forall c :: 0 <= c < |chunks| ==> Apart(chunks[c], raw, ChunkBytes())
    }

    lemma FreshChunkExists(chunks: seq<Addr>)
      requires blockAlign > 0
      ensures exists raw :: IsFreshChunk(raw, chunks)
    {
      var end := ChunksEndSomewhere(chunks);
      var raw := (end + 1) * blockAlign;
      MultipleHasNoRemainder(end + 1, blockAlign);
      assert raw >= end + 1 by {
        assert raw == (end + 1) + (end + 1) * (blockAlign - 1);
      }
      assert forall c :: 0 <= c < |chunks| ==> Apart(chunks[c], raw, ChunkBytes());
      assert IsFreshChunk(raw, chunks);
    }

    lemma {:induction false} ChunksEndSomewhere(chunks: seq<Addr>) returns (end: nat)
      ensures forall c :: 0 <= c < |chunks| ==> chunks[c] + ChunkBytes() <= end
      decreases |chunks|
    {
      if chunks == [] {
        end := 0;
      } else {
        var init := chunks[..|chunks| - 1];
        end := ChunksEndSomewhere(init);
        end := end + chunks[|chunks| - 1] + ChunkBytes();
        assert forall c :: 0 <= c < |init| ==> chunks[c] == init[c];
      }
    }

    /** Each chunk was fresh when it was reserved. */
    ghost predicate ChunksOk(chunks: seq<Addr>)
      requires blockAlign > 0
      decreases |chunks|
    {
      chunks == [] || (ChunksOk(chunks[..|chunks| - 1]) && IsFreshChunk(chunks[|chunks| - 1], chunks[..|chunks| - 1]))
    }

    lemma {:induction false} ChunksApart(chunks: seq<Addr>, c: nat, d: nat)
      requires blockAlign > 0 && ChunksOk(chunks) && c <= d < |chunks|
      ensures chunks[c] > 0 && chunks[c] % blockAlign == 0
      ensures c < d ==> Apart(chunks[c], chunks[d], ChunkBytes())
      decreases |chunks|
    {
      var init := chunks[..|chunks| - 1];
      if d < |chunks| - 1 {
        ChunksApart(init, c, d);
      } else if c < d {
        ChunksApart(init, c, c);
        assert Apart(init[c], chunks[d], ChunkBytes());
      }
    }

    /** The first `count` blocks of a chunk in the order the free list gets them: the last one first. */
    function Carved(raw: Addr, count: nat): (r: seq<Addr>)
      ensures |r| == count
    {
      if count == 0 then [] else [raw + Times(count - 1, blockSize)] + Carved(raw, count - 1)
    }

    lemma CarvedNext(raw: Addr, i: nat)
      ensures Carved(raw, i + 1) == [raw + Times(i, blockSize)] + Carved(raw, i)
      ensures Elements(Carved(raw, i + 1)) == {raw + Times(i, blockSize)} + Elements(Carved(raw, i))
    {
      assert ([raw + Times(i, blockSize)] + Carved(raw, i))[1..] == Carved(raw, i);
    }

    lemma {:induction false} CarvedAt(raw: Addr, count: nat, a: Addr) returns (i: nat)
      requires a in Elements(Carved(raw, count))
      ensures i < count && a == raw + Times(i, blockSize)
      decreases count
    {
      if a == raw + Times(count - 1, blockSize) {
        i := count - 1;
      } else {
        i := CarvedAt(raw, count - 1, a);
      }
    }

    /** All blocks of these chunks. */
    ghost function BlockSet(chunks: seq<Addr>): set<Addr>
      decreases |chunks|
    {
      if chunks == [] then {}
      else BlockSet(chunks[..|chunks| - 1]) + Elements(Carved(chunks[|chunks| - 1], chunkSize))
    }

    lemma {:induction false} BlockHasPlace(chunks: seq<Addr>, a: Addr) returns (c: nat, i: nat)
      requires a in BlockSet(chunks)
      ensures c < |chunks| && i < chunkSize && a == chunks[c] + Times(i, blockSize)
      decreases |chunks|
    {
      c := |chunks| - 1;
      if a in Elements(Carved(chunks[c], chunkSize)) {
        i := CarvedAt(chunks[c], chunkSize, a);
      } else {
        c, i := BlockHasPlace(chunks[..c], a);
      }
    }

    lemma BlockInChunk(index: nat)
      requires index < chunkSize
      ensures Times(index, blockSize) + blockSize <= ChunkBytes()
    {
      TimesGrows(index, chunkSize, blockSize);
    }

    /** Blocks at different places share no byte. */
    lemma PlacesApart(chunks: seq<Addr>, c: nat, i: nat, d: nat, j: nat)
      requires blockAlign > 0 && ChunksOk(chunks)
      requires c < |chunks| && i < chunkSize && d < |chunks| && j < chunkSize && (c != d || i != j)
      ensures Apart(chunks[c] + Times(i, blockSize), chunks[d] + Times(j, blockSize), blockSize)
    {
      if c == d {
        TimesGrows(if i < j then i else j, if i < j then j else i, blockSize);
      } else {
        BlockInChunk(i);
        BlockInChunk(j);
        ChunksApart(chunks, if c < d then c else d, if c < d then d else c);
      }
    }

    lemma BlocksOutsideFreshChunk(chunks: seq<Addr>, raw: Addr, a: Addr)
      requires blockAlign > 0 && IsFreshChunk(raw, chunks) && a in BlockSet(chunks)
      ensures a + blockSize <= raw || raw + ChunkBytes() <= a
    {
      var c, j := BlockHasPlace(chunks, a);
      BlockInChunk(j);
      assert Apart(chunks[c], raw, ChunkBytes());
    }

    lemma ChunkAdded(chunks: seq<Addr>, raw: Addr)
      requires blockAlign > 0 && ChunksOk(chunks) && IsFreshChunk(raw, chunks)
      ensures ChunksOk(chunks + [raw])
      ensures BlockSet(chunks + [raw]) == BlockSet(chunks) + Elements(Carved(raw, chunkSize))
    {
      assert (chunks + [raw])[..|chunks|] == chunks;
    }

    lemma NullIsNoBlock(chunks: seq<Addr>, a: Addr)
      requires blockAlign > 0 && ChunksOk(chunks) && a in BlockSet(chunks)
      ensures a != NULL
    {
      var c, i := BlockHasPlace(chunks, a);
      ChunksApart(chunks, c, c);
    }

    /** The next block carved from a fresh chunk is new, and not null. */
    lemma NextBlockIsNew(chunks: seq<Addr>, raw: Addr, i: nat)
      requires Proper() && IsFreshChunk(raw, chunks) && i < chunkSize
      ensures raw + Times(i, blockSize) !in BlockSet(chunks)
      ensures raw + Times(i, blockSize) !in Elements(Carved(raw, i))
      ensures raw + Times(i, blockSize) != NULL
    {
      var block := raw + Times(i, blockSize);
      BlockInChunk(i);
      if block in BlockSet(chunks) {
        BlocksOutsideFreshChunk(chunks, raw, block);
      }
      if block in Elements(Carved(raw, i)) {
        var j := CarvedAt(raw, i, block);
        TimesGrows(j, i, blockSize);
      }
    }
  }

  /** The block layout for objects of this size and alignment (kBlockSize, kBlockAlign, chunk_size_). */
  function BlockLayout(size: nat, align: nat, initialCapacity: nat): Layout
    requires align > 0
  {
    var blockAlign := Max(align, POINTER_SIZE);
    Layout(RoundUp(Max(size, POINTER_SIZE), blockAlign), blockAlign, Initial(initialCapacity).chunkSize)
  }

  /** A chunk has the capacity asked for, or one block if none was; blocks are padded to whole alignments only. */
  lemma LayoutFitsRequest(size: nat, align: nat, initialCapacity: nat)
    requires align > 0
    ensures var l := BlockLayout(size, align, initialCapacity);
            && l.Proper()
            && l.chunkSize == (if initialCapacity > 0 then initialCapacity else 1)
            && l.blockAlign == (if align > POINTER_SIZE then align else POINTER_SIZE)
            && l.blockSize % l.blockAlign == 0
            && l.blockSize >= size && l.blockSize >= POINTER_SIZE
            && (size >= POINTER_SIZE && size % l.blockAlign == 0 ==> l.blockSize == size)
  {
    var l := BlockLayout(size, align, initialCapacity);
    RoundUpIs(Max(size, POINTER_SIZE), l.blockAlign);
    if size >= POINTER_SIZE && size % l.blockAlign == 0 {
      NoMultipleBetween(size, l.blockSize, l.blockAlign);
    }
  }

  lemma NoMultipleBetween(a: nat, b: nat, m: nat)
    requires m > 0 && a % m == 0 && b % m == 0 && a <= b < a + m
    ensures a == b
  {
    DivisionIs(b, m, a / m, b - a);
  }

  /**
   Every block of a pool is aligned for the object and for a free-list link, is big enough for
   both with less than one alignment of padding, lies in one chunk, and overlaps no other block.
   */
  lemma BlocksNeverOverlap(size: nat, align: nat, initialCapacity: nat, chunks: seq<Addr>, a: Addr, b: Addr) returns (chunk: nat)
    requires align > 0 && Max(align, POINTER_SIZE) % align == 0 && Max(align, POINTER_SIZE) % POINTER_SIZE == 0
    requires var l := BlockLayout(size, align, initialCapacity);
             l.ChunksOk(chunks) && a in l.BlockSet(chunks) && b in l.BlockSet(chunks)
    ensures var l := BlockLayout(size, align, initialCapacity);
            && Max(size, POINTER_SIZE) <= l.blockSize < Max(size, POINTER_SIZE) + l.blockAlign && l.blockSize % l.blockAlign == 0
            && a % align == 0 && a % POINTER_SIZE == 0
            && chunk < |chunks| && chunks[chunk] <= a && a + l.blockSize <= chunks[chunk] + l.ChunkBytes()
            && (a != b ==> Apart(a, b, l.blockSize))
  {
    var l := BlockLayout(size, align, initialCapacity);
    RoundUpIs(Max(size, POINTER_SIZE), l.blockAlign);
    var c, i := l.BlockHasPlace(chunks, a);
    var d, j := l.BlockHasPlace(chunks, b);
    chunk := c;
    l.BlockInChunk(i);
    l.ChunksApart(chunks, c, c);
    forall k | k == align || k == POINTER_SIZE ensures a % k == 0 {
      DividesTransitively(chunks[c], l.blockAlign, k);
      DividesTransitively(l.blockSize, l.blockAlign, k);
      SumOfMultiples(chunks[c], i, l.blockSize, k);
    }
    if a != b {
      l.PlacesApart(chunks, c, i, d, j);
    }
  }

  /** The free list starting at `first` goes through exactly the blocks `free`, in this order. */
  ghost predicate FreeListOk<T>(blocks: map<Addr, Block<T>>, first: Addr, free: seq<Addr>)
    decreases |free|
  {
    if free == [] then first == NULL
    else
      && first == free[0] != NULL && first in blocks && blocks[first].FreeNode?
      && free[0] !in Elements(free[1..]) && FreeListOk(blocks, blocks[first].next, free[1..])
  }

  /** Writing to a block that is not on the free list does not disturb it. */
  lemma {:induction false} FreeListFrame<T>(blocks: map<Addr, Block<T>>, first: Addr, free: seq<Addr>, a: Addr, b: Block<T>)
    requires FreeListOk(blocks, first, free) && a !in Elements(free)
    ensures FreeListOk(blocks[a := b], first, free)
    decreases |free|
  {
    if free != [] {
      FreeListFrame(blocks, blocks[first].next, free[1..], a, b);
    }
  }

  lemma {:induction false} FreeListInMemory<T>(blocks: map<Addr, Block<T>>, first: Addr, free: seq<Addr>)
    requires FreeListOk(blocks, first, free)
    ensures Elements(free) <= blocks.Keys && |Elements(free)| == |free|
    decreases |free|
  {
    if free != [] {
      FreeListInMemory(blocks, blocks[first].next, free[1..]);
    }
  }

  /** Free blocks are exactly those on the free list. */
  ghost predicate FreeExactly<T>(blocks: map<Addr, Block<T>>, free: seq<Addr>) {
    forall a :: a in blocks ==> (blocks[a].FreeNode? <==> a in Elements(free))
  }

  /** The memory of a pool: its chunks, their blocks, and the free list in them. */
  ghost predicate MemoryOk<T>(l: Layout, chunks: seq<Addr>, blocks: map<Addr, Block<T>>, first: Addr, free: seq<Addr>) {
    && l.Proper() && l.ChunksOk(chunks) && blocks.Keys == l.BlockSet(chunks)
    && FreeListOk(blocks, first, free) && FreeExactly(blocks, free)
  }

  lemma PushFree<T>(blocks: map<Addr, Block<T>>, first: Addr, free: seq<Addr>, block: Addr)
    requires FreeListOk(blocks, first, free) && FreeExactly(blocks, free) && block !in Elements(free) && block != NULL
    ensures FreeListOk(blocks[block := FreeNode(first)], block, [block] + free)
    ensures FreeExactly(blocks[block := FreeNode(first)], [block] + free)
  {
    FreeListFrame(blocks, first, free, block, FreeNode(first));
    assert ([block] + free)[1..] == free;
  }

  lemma PopFree<T>(blocks: map<Addr, Block<T>>, first: Addr, free: seq<Addr>)
    requires FreeListOk(blocks, first, free) && FreeExactly(blocks, free) && first != NULL
    ensures free != [] && first == free[0] && first in blocks && blocks[first].FreeNode?
    ensures FreeListOk(blocks[first := Uninitialized], blocks[first].next, free[1..])
    ensures FreeExactly(blocks[first := Uninitialized], free[1..])
  {
    FreeListFrame(blocks, blocks[first].next, free[1..], first, Uninitialized);
  }

  lemma InUseBlockIsCounted<T>(blocks: map<Addr, Block<T>>, first: Addr, free: seq<Addr>, p: Addr)
    requires FreeListOk(blocks, first, free) && p in blocks && p !in Elements(free)
    ensures |free| < |blocks|
  {
    FreeListInMemory(blocks, first, free);
    var onList := Elements(free);
    assert blocks.Keys == onList + ({p} + (blocks.Keys - onList - {p}));
  }

  lemma NewKeyCounts<T>(blocks: map<Addr, Block<T>>, a: Addr, b: Block<T>)
    requires a !in blocks
    ensures |blocks[a := b]| == |blocks| + 1
  {
  }

  /** The old blocks are as they were, and all others are free. */
  ghost predicate Grown<T>(before: map<Addr, Block<T>>, after: map<Addr, Block<T>>) {
    && (forall a :: a in before ==> a in after && after[a] == before[a])
    && (forall a :: a in after && a !in before ==> after[a].FreeNode?)
  }

  /** The first free block once `i` blocks of the chunk at `raw` are on the list that started at `first`. */
  function HeadAfter(l: Layout, first: Addr, raw: Addr, i: nat): Addr {
    if i == 0 then first else raw + Times(i - 1, l.blockSize)
  }

  /** The memory at that point. */
  function Threaded<T>(l: Layout, blocks: map<Addr, Block<T>>, first: Addr, raw: Addr, i: nat): map<Addr, Block<T>> {
    if i == 0 then blocks
    else Threaded(l, blocks, first, raw, i - 1)[raw + Times(i - 1, l.blockSize) := FreeNode(HeadAfter(l, first, raw, i - 1))]
  }

  lemma {:induction false} ThreadedKeys<T>(l: Layout, blocks: map<Addr, Block<T>>, first: Addr, raw: Addr, i: nat)
    ensures Threaded(l, blocks, first, raw, i).Keys == blocks.Keys + Elements(l.Carved(raw, i))
  {
    if i > 0 {
      ThreadedKeys(l, blocks, first, raw, i - 1);
      l.CarvedNext(raw, i - 1);
    }
  }

  /** The first `i` blocks of the chunk at `raw` are distinct, not null, and not in memory yet. */
  ghost predicate AllNew<T>(l: Layout, blocks: map<Addr, Block<T>>, raw: Addr, i: nat) {
    i == 0 ||
    var block := raw + Times(i - 1, l.blockSize);
    AllNew(l, blocks, raw, i - 1) && block !in blocks && block !in Elements(l.Carved(raw, i - 1)) && block != NULL
  }

  lemma {:induction false} FreshChunkIsNew<T>(l: Layout, chunks: seq<Addr>, blocks: map<Addr, Block<T>>, raw: Addr, i: nat)
    requires l.Proper() && blocks.Keys == l.BlockSet(chunks) && l.IsFreshChunk(raw, chunks) && i <= l.chunkSize
    ensures AllNew(l, blocks, raw, i)
  {
    if i > 0 {
      FreshChunkIsNew(l, chunks, blocks, raw, i - 1);
      l.NextBlockIsNew(chunks, raw, i - 1);
    }
  }

  lemma NextIsNew<T>(l: Layout, blocks: map<Addr, Block<T>>, first: Addr, raw: Addr, i: nat)
    requires i > 0 && AllNew(l, blocks, raw, i)
    ensures AllNew(l, blocks, raw, i - 1)
    ensures raw + Times(i - 1, l.blockSize) !in Threaded(l, blocks, first, raw, i - 1)
  {
    hide Threaded, Times, Elements;
    ThreadedKeys(l, blocks, first, raw, i - 1);
    NotInUnion(Threaded(l, blocks, first, raw, i - 1), blocks, Elements(l.Carved(raw, i - 1)), raw + Times(i - 1, l.blockSize));
  }

  lemma NotInUnion<T>(blocks': map<Addr, Block<T>>, blocks: map<Addr, Block<T>>, s: set<Addr>, a: Addr)
    requires blocks'.Keys == blocks.Keys + s && a !in blocks && a !in s
    ensures a !in blocks'
  {
    assert a !in blocks'.Keys;
  }

  lemma {:induction false} ThreadedCounts<T>(l: Layout, blocks: map<Addr, Block<T>>, first: Addr, raw: Addr, i: nat)
    requires AllNew(l, blocks, raw, i)
    ensures |Threaded(l, blocks, first, raw, i)| == |blocks| + i
  {
    hide AllNew, Times;
    if i > 0 {
      NextIsNew(l, blocks, first, raw, i);
      ThreadedCounts(l, blocks, first, raw, i - 1);
      NewKeyCounts(Threaded(l, blocks, first, raw, i - 1), raw + Times(i - 1, l.blockSize), FreeNode(HeadAfter(l, first, raw, i - 1)));
    }
  }

  lemma {:induction false} ThreadedGrows<T>(l: Layout, blocks: map<Addr, Block<T>>, first: Addr, raw: Addr, i: nat)
    requires AllNew(l, blocks, raw, i)
    ensures Grown(blocks, Threaded(l, blocks, first, raw, i))
  {
    if i > 0 {
      ThreadedGrows(l, blocks, first, raw, i - 1);
    }
  }

  lemma OutsideMemoryIsNotListed<T>(blocks: map<Addr, Block<T>>, first: Addr, free: seq<Addr>, a: Addr)
    requires FreeListOk(blocks, first, free) && a !in blocks
    ensures a !in Elements(free)
  {
    FreeListInMemory(blocks, first, free);
  }

  lemma {:induction false} ThreadedFreeList<T>(l: Layout, blocks: map<Addr, Block<T>>, first: Addr, free: seq<Addr>, raw: Addr, i: nat)
    requires FreeListOk(blocks, first, free) && FreeExactly(blocks, free) && AllNew(l, blocks, raw, i)
    ensures FreeListOk(Threaded(l, blocks, first, raw, i), HeadAfter(l, first, raw, i), l.Carved(raw, i) + free)
    ensures FreeExactly(Threaded(l, blocks, first, raw, i), l.Carved(raw, i) + free)
  {
    if i == 0 {
      assert l.Carved(raw, 0) + free == free;
    } else {
      var block := raw + Times(i - 1, l.blockSize);
      var b, f, list := Threaded(l, blocks, first, raw, i - 1), HeadAfter(l, first, raw, i - 1), l.Carved(raw, i - 1) + free;
      ThreadedFreeList(l, blocks, first, free, raw, i - 1);
      ThreadedKeys(l, blocks, first, raw, i - 1);
      OutsideMemoryIsNotListed(b, f, list, block);
      PushFree(b, f, list, block);
      assert l.Carved(raw, i) + free == [block] + list;
    }
  }

  lemma ThreadedChunkIsMemory<T>(l: Layout, chunks: seq<Addr>, blocks: map<Addr, Block<T>>, first: Addr, free: seq<Addr>, raw: Addr)
    requires MemoryOk(l, chunks, blocks, first, free) && l.IsFreshChunk(raw, chunks)
    ensures var blocks' := Threaded(l, blocks, first, raw, l.chunkSize);
            && MemoryOk(l, chunks + [raw], blocks', HeadAfter(l, first, raw, l.chunkSize), l.Carved(raw, l.chunkSize) + free)
            && |blocks'| == |blocks| + l.chunkSize && Grown(blocks, blocks')
  {
    FreshChunkIsNew(l, chunks, blocks, raw, l.chunkSize);
    ThreadedKeys(l, blocks, first, raw, l.chunkSize);
    ThreadedCounts(l, blocks, first, raw, l.chunkSize);
    ThreadedGrows(l, blocks, first, raw, l.chunkSize);
    ThreadedFreeList(l, blocks, first, free, raw, l.chunkSize);
    l.ChunkAdded(chunks, raw);
  }

  /** `p` was free or is new; the other blocks are as they were, apart from new ones, which are free. */
  ghost predicate IsTaken<T>(before: map<Addr, Block<T>>, after: map<Addr, Block<T>>, p: Addr) {
    && p in after && after[p] == Uninitialized && (p in before ==> before[p].FreeNode?)
    && (forall a :: a in before && a != p ==> a in after && after[a] == before[a])
    && (forall a :: a in after && a !in before && a != p ==> after[a].FreeNode?)
  }

  class SlabAllocator<T> {
    const layout: Layout
    var chunks: seq<Addr>
    var freeList: Addr
    var totalCapacity: nat
    var inUse: nat
    var growthEvents: nat
    var blocks: map<Addr, Block<T>>
    ghost var free: seq<Addr>

    ghost predicate Valid()
      reads this
    {
      && MemoryOk(layout, chunks, blocks, freeList, free)
      && |blocks| == inUse + |free|
      && totalCapacity == |blocks| == Times(|chunks|, layout.chunkSize)
      && |chunks| == growthEvents + 1
    }

    ghost function Counted(): Counters
      reads this
    {
      Counters(layout.chunkSize, totalCapacity, inUse, growthEvents)
    }

    constructor (l: Layout)
      requires l.Proper()
      ensures Valid() && layout == l
      ensures Counted() == Counters(l.chunkSize, l.chunkSize, 0, 0)
      ensures forall a :: a in blocks ==> blocks[a].FreeNode?
    {
      layout := l;
      chunks, freeList, totalCapacity, inUse, growthEvents := [], NULL, 0, 0, 0;
      blocks, free := map[], [];
      new;
      AddChunk();
    }

    /** Reserves one more chunk and threads its blocks onto the free list. */
    method AddChunk()
      requires MemoryOk(layout, chunks, blocks, freeList, free)
      modifies this`chunks, this`totalCapacity, this`blocks, this`freeList, this`free
      ensures MemoryOk(layout, chunks, blocks, freeList, free)
      ensures chunks != [] && chunks[..|chunks| - 1] == old(chunks)
      ensures free == layout.Carved(chunks[|chunks| - 1], layout.chunkSize) + old(free)
      ensures |blocks| == |old(blocks)| + layout.chunkSize && totalCapacity == old(totalCapacity) + layout.chunkSize
      ensures Grown(old(blocks), blocks)
    {
      layout.FreshChunkExists(chunks);
      var raw: Addr :| layout.IsFreshChunk(raw, chunks);
      ThreadedChunkIsMemory(layout, chunks, blocks, freeList, free, raw);
      Carve(raw);
      chunks := chunks + [raw];
      free := layout.Carved(raw, layout.chunkSize) + free;
      totalCapacity := totalCapacity + layout.chunkSize;
    }

    /** Threads the blocks of a fresh chunk onto the free list, one by one. */
    method Carve(raw: Addr)
      modifies this`blocks, this`freeList
      ensures blocks == Threaded(layout, old(blocks), old(freeList), raw, layout.chunkSize)
      ensures freeList == HeadAfter(layout, old(freeList), raw, layout.chunkSize)
    {
      var i := 0;
      while i < layout.chunkSize
        invariant 0 <= i <= layout.chunkSize
        invariant blocks == Threaded(layout, old(blocks), old(freeList), raw, i)
        invariant freeList == HeadAfter(layout, old(freeList), raw, i)
      {
        var block := raw + Times(i, layout.blockSize);
        blocks := blocks[block := FreeNode(freeList)];
        freeList := block;
        i := i + 1;
      }
    }

    /** Hands out the first free block, growing the pool when there is none. */
    method Allocate() returns (p: Addr)
      requires Valid()
      modifies this
      ensures Valid() && Counted() == old(Counted()).Allocated()
      ensures p != NULL && IsTaken(old(blocks), blocks, p)
      ensures old(free) != [] ==> p == old(free)[0] && free == old(free)[1..] && chunks == old(chunks)
    {
      if freeList == NULL {
        Grow();
      }
      p := TakeFirst();
    }

    method Grow()
      requires Valid() && freeList == NULL
      modifies this
      ensures Valid() && freeList != NULL && free != [] && old(free) == []
      ensures Counted() == old(Counted()).(capacity := old(totalCapacity) + layout.chunkSize, growthEvents := old(growthEvents) + 1)
      ensures Grown(old(blocks), blocks)
    {
      AddChunk();
      growthEvents := growthEvents + 1;
    }

    method TakeFirst() returns (p: Addr)
      requires Valid() && freeList != NULL
      modifies this`freeList, this`blocks, this`free, this`inUse
      ensures Valid() && inUse == old(inUse) + 1
      ensures old(free) != [] && p == old(free)[0] != NULL && free == old(free)[1..]
      ensures p in old(blocks) && old(blocks)[p].FreeNode? && blocks == old(blocks)[p := Uninitialized]
    {
      p := freeList;
      PopFree(blocks, freeList, free);
      freeList := blocks[p].next;
      blocks := blocks[p := Uninitialized];
      free := free[1..];
      inUse := inUse + 1;
    }

    /** Takes a block back; it is the next one to be handed out. */
    method Deallocate(p: Addr)
      requires Valid() && p in blocks && !blocks[p].FreeNode?
      modifies this
      ensures Valid() && old(inUse) > 0 && Counted() == old(Counted()).Deallocated()
      ensures free == [p] + old(free) && chunks == old(chunks)
      ensures blocks == old(blocks)[p := FreeNode(old(freeList))]
    {
      InUseBlockIsCounted(blocks, freeList, free, p);
      layout.NullIsNoBlock(chunks, p);
      PushFree(blocks, freeList, free, p);
      blocks := blocks[p := FreeNode(freeList)];
      freeList := p;
      free := [p] + free;
      inUse := inUse - 1;
    }

    /** Writes an object into a block that is in use. */
    method Store(p: Addr, value: T)
      requires Valid() && p in blocks && !blocks[p].FreeNode?
      modifies this`blocks
      ensures Valid()
      ensures blocks == old(blocks)[p := Object(value)]
    {
      FreeListFrame(blocks, freeList, free, p, Object(value));
      blocks := blocks[p := Object(value)];
    }
  }
}
