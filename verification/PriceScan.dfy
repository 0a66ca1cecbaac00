/**
 The price scan (price_scan.cpp) in 64-bit arithmetic: the scalar loop and the two vector kernels
 all compute the exact scan of FillPrediction modulo 2^64.
 */
module PriceScan {
  import opened Types
  import opened MatchingSpec
  import opened Arithmetic
  import opened Bits
  import opened FillPrediction

  const HALF: int := 0x8000_0000_0000_0000

  predicate IsInt64(x: int) {
    -HALF <= x < HALF
  }

  /** The value of a signed 64-bit register that was assigned `x`. */
  function Wrap(x: int): (r: int)
    ensures IsInt64(r)
  {
    var w := x % WORD;
    if w < HALF then w else w - WORD
  }

  /** The bits of a signed register as an unsigned word. */
  function Word(x: int): nat {
    x % WORD
  }

  predicate Congruent(a: int, b: int) {
    a % WORD == b % WORD
  }

  lemma WrapCongruent(x: int)
    ensures Congruent(Wrap(x), x)
    ensures IsInt64(x) ==> Wrap(x) == x
  {
  }

  lemma CongruentSum(a: int, b: int, c: int, d: int)
    requires Congruent(a, b) && Congruent(c, d)
    ensures Congruent(a + c, b + d)
  {
  }

  lemma CongruentWraps(a: int, b: int)
    requires Congruent(a, b)
    ensures Wrap(a) == Wrap(b)
  {
  }

  // Signed 64-bit lanes.

  function Add64(a: int, b: int): int {
    Wrap(a + b)
  }

  function And64(a: int, b: int): int {
    Wrap(And(Word(a), Word(b)))
  }

  function Xor64(a: int, b: int): int {
    Wrap(Xor(Word(a), Word(b)))
  }

  /** The result of a lane comparison: all ones or all zeros. */
  function Mask(b: bool): int {
    if b then -1 else 0
  }

  lemma {:induction false} AndCommutes(a: nat, b: nat)
    ensures And(a, b) == And(b, a)
    decreases a
  {
    if a != 0 && b != 0 {
      AndCommutes(a / 2, b / 2);
    }
  }

  lemma AndAllOnes(x: nat)
    requires x < WORD
    ensures And(WORD - 1, x) == x && And(0, x) == 0
  {
    hide Pow2;
    WordIsPow2();
    AndCommutes(WORD - 1, x);
    MaskIsRemainder(x, 64);
  }

  /** Masking a lane keeps its value or clears it. */
  lemma MaskedLane(b: bool, x: int)
    requires IsInt64(x)
    ensures And64(Mask(b), x) == if b then x else 0
  {
    hide And;
    assert Word(-1) == WORD - 1;
    AndAllOnes(Word(x));
    WrapCongruent(x);
  }

  lemma {:induction false} XorSelf(x: nat)
    ensures Xor(x, x) == 0
    decreases x
  {
    if x > 0 {
      XorSelf(x / 2);
    }
  }

  /** Exclusive or with all ones complements a mask. */
  lemma ComplementedMask(b: bool)
    ensures Xor64(Mask(b), Mask(true)) == Mask(!b)
  {
    assert Word(-1) == WORD - 1;
    XorSelf(WORD - 1);
  }

  datatype ScanResult = ScanResult(total: int, count: nat)

  /** Every price and quantity is a 64-bit integer, and the number of levels a size_t. */
  predicate IsInput(levels: seq<PriceQuantity>, limit: int) {
    && IsInt64(limit) && |levels| < WORD
    && forall i :: 0 <= i < |levels| ==> IsInt64(levels[i].price) && IsInt64(levels[i].quantity)
  }

  /** The levels as the flat memory that the vector loads read: price, quantity, price, quantity, ... */
  function Raw(levels: seq<PriceQuantity>): (r: seq<int>)
    ensures |r| == 2 * |levels|
  {
    if levels == [] then [] else [levels[0].price, levels[0].quantity] + Raw(levels[1..])
  }

  lemma {:induction false} RawAt(levels: seq<PriceQuantity>, i: nat)
    requires i < |levels|
    ensures Raw(levels)[2 * i] == levels[i].price && Raw(levels)[2 * i + 1] == levels[i].quantity
    decreases i
  {
    if i > 0 {
      RawAt(levels[1..], i - 1);
    }
  }

  function Quantity(l: PriceQuantity, side: Side, limit: int): int {
    if Crosses(side, limit, l.price) then l.quantity else 0
  }

  function Hit(l: PriceQuantity, side: Side, limit: int): nat {
    if Crosses(side, limit, l.price) then 1 else 0
  }

  /** Scanning one more level. */
  lemma {:induction false} ScanNext(levels: seq<PriceQuantity>, side: Side, limit: int, i: nat)
    requires i < |levels|
    ensures ScanTotal(levels[..i + 1], side, limit) == ScanTotal(levels[..i], side, limit) + Quantity(levels[i], side, limit)
    ensures ScanCount(levels[..i + 1], side, limit) == ScanCount(levels[..i], side, limit) + Hit(levels[i], side, limit)
    decreases i
  {
    assert levels[..i + 1][1..] == levels[1..][..i];
    if i > 0 {
      assert levels[..i][1..] == levels[1..][..i - 1];
      ScanNext(levels[1..], side, limit, i - 1);
    }
  }

  /** A scan is the sum of the scans of its parts, and of one level what is at or better than the limit. */
  lemma {:induction false} ScanOfParts(a: seq<PriceQuantity>, b: seq<PriceQuantity>, side: Side, limit: int)
    ensures ScanTotal(a + b, side, limit) == ScanTotal(a, side, limit) + ScanTotal(b, side, limit)
    ensures ScanCount(a + b, side, limit) == ScanCount(a, side, limit) + ScanCount(b, side, limit)
    ensures |a| == 1 ==> ScanTotal(a, side, limit) == (if Crosses(side, limit, a[0].price) then a[0].quantity else 0)
    ensures |a| == 1 ==> ScanCount(a, side, limit) == if Crosses(side, limit, a[0].price) then 1 else 0
    decreases |a|
  {
    if a == [] {
      assert a + b == b;
    } else {
      ScanOfParts(a[1..], b, side, limit);
      assert (a + b)[1..] == a[1..] + b;
    }
  }

  lemma {:induction false} CountAtMostLength(levels: seq<PriceQuantity>, side: Side, limit: int)
    ensures ScanCount(levels, side, limit) <= |levels|
    decreases |levels|
  {
    if levels != [] {
      CountAtMostLength(levels[1..], side, limit);
    }
  }

  /** What all implementations must return: the exact scan, the total wrapped to 64 bits. */
  function Expected(levels: seq<PriceQuantity>, side: Side, limit: int): ScanResult {
    ScanResult(Wrap(ScanTotal(levels, side, limit)), ScanCount(levels, side, limit))
  }

  /** If the exact total is a 64-bit integer, the wrapped total is the exact one. */
  lemma ExpectedIsExact(levels: seq<PriceQuantity>, side: Side, limit: int)
    requires IsInt64(ScanTotal(levels, side, limit))
    ensures Expected(levels, side, limit) == ScanResult(ScanTotal(levels, side, limit), ScanCount(levels, side, limit))
  {
    WrapCongruent(ScanTotal(levels, side, limit));
  }

  /** The state of a scan after `i` levels, all lanes summed. */
  ghost predicate Scanned(levels: seq<PriceQuantity>, side: Side, limit: int, i: nat, total: int, count: int) {
    && i <= |levels|
    && Congruent(total, ScanTotal(levels[..i], side, limit))
    && Congruent(count, ScanCount(levels[..i], side, limit))
  }

  lemma ScannedNext(levels: seq<PriceQuantity>, side: Side, limit: int, i: nat, total: int, count: int, total': int, count': int)
    requires Scanned(levels, side, limit, i, total, count) && i < |levels|
    requires Congruent(total', total + Quantity(levels[i], side, limit)) && Congruent(count', count + Hit(levels[i], side, limit))
    ensures Scanned(levels, side, limit, i + 1, total', count')
  {
    ScanNext(levels, side, limit, i);
    CongruentSum(total, ScanTotal(levels[..i], side, limit), Quantity(levels[i], side, limit), Quantity(levels[i], side, limit));
    CongruentSum(count, ScanCount(levels[..i], side, limit), Hit(levels[i], side, limit), Hit(levels[i], side, limit));
  }

  lemma ScannedAll(levels: seq<PriceQuantity>, side: Side, limit: int, total: int, count: nat)
    requires Scanned(levels, side, limit, |levels|, total, count) && IsInt64(total) && count < WORD && |levels| < WORD
    ensures ScanResult(total, count) == Expected(levels, side, limit)
  {
    assert levels[..|levels|] == levels;
    CountAtMostLength(levels, side, limit);
    WrapCongruent(total);
    CongruentWraps(total, ScanTotal(levels, side, limit));
  }

  /** The scalar reference: one loop for each side. */
  method ScanScalar(levels: seq<PriceQuantity>, limit: int, side: Side) returns (r: ScanResult)
    requires IsInput(levels, limit)
    ensures r == Expected(levels, side, limit)
  {
    var total, count, i := 0, 0, 0;
    if side.Buy? {
      while i < |levels|
        invariant Scanned(levels, side, limit, i, total, count) && IsInt64(total) && 0 <= count <= i
      {
        ghost var before := (total, count);
        if levels[i].price <= limit {
          WrapCongruent(total + levels[i].quantity);
          total := Add64(total, levels[i].quantity);
          count := count + 1;
        }
        ScannedNext(levels, side, limit, i, before.0, before.1, total, count);
        i := i + 1;
      }
    } else {
      while i < |levels|
        invariant Scanned(levels, side, limit, i, total, count) && IsInt64(total) && 0 <= count <= i
      {
        ghost var before := (total, count);
        if levels[i].price >= limit {
          WrapCongruent(total + levels[i].quantity);
          total := Add64(total, levels[i].quantity);
          count := count + 1;
        }
        ScannedNext(levels, side, limit, i, before.0, before.1, total, count);
        i := i + 1;
      }
    }
    ScannedAll(levels, side, limit, total, count);
    r := ScanResult(total, count);
  }

  /** The levels a vector kernel left over, one at a time. */
  method ScanTail(levels: seq<PriceQuantity>, limit: int, side: Side, start: nat, total0: int, count0: nat) returns (r: ScanResult)
    requires IsInput(levels, limit) && Scanned(levels, side, limit, start, total0, count0)
    requires IsInt64(total0) && count0 < WORD
    ensures r == Expected(levels, side, limit)
  {
    var total, count, i := total0, count0, start;
    while i < |levels|
      invariant Scanned(levels, side, limit, i, total, count) && IsInt64(total) && 0 <= count < WORD
    {
      ghost var before := (total, count);
      var hit := if side.Buy? then levels[i].price <= limit else levels[i].price >= limit;
      if hit {
        WrapCongruent(total + levels[i].quantity);
        total := Add64(total, levels[i].quantity);
        count := (count + 1) % WORD;
      }
      ScannedNext(levels, side, limit, i, before.0, before.1, total, count);
      i := i + 1;
    }
    ScannedAll(levels, side, limit, total, count);
    r := ScanResult(total, count);
  }

  /** No quantity is negative and all that is within the limit adds up to a 64-bit integer. */
  ghost predicate Fits(levels: seq<PriceQuantity>, side: Side, limit: int) {
    (forall i :: 0 <= i < |levels| ==> levels[i].quantity >= 0) && ScanTotal(levels, side, limit) < HALF
  }

  lemma {:induction false} PrefixFits(levels: seq<PriceQuantity>, side: Side, limit: int, i: nat)
    requires Fits(levels, side, limit) && i <= |levels|
    ensures ScanTotal(levels[..i], side, limit) < HALF
    ensures ScanTotal(levels[..i], side, limit) <= ScanTotal(levels, side, limit)
    decreases |levels| - i
  {
    if i < |levels| {
      ScanNext(levels, side, limit, i);
      PrefixFits(levels, side, limit, i + 1);
    } else {
      assert levels[..i] == levels;
    }
  }

  // Vector blocks: the largest multiple of the width that is not above the length.

  function WholeBlocks(n: nat, width: nat): nat
    requires width > 0
  {
    n - n % width
  }

  predicate IsMultiple(i: nat, width: nat)
    requires width > 0
  {
    i % width == 0
  }

  lemma BlockStart(n: nat, width: nat)
    requires width > 0
    ensures IsMultiple(0, width) && WholeBlocks(n, width) <= n
  {
    DivisionIs(0, width, 0, 0);
    Divided(n, width);
    MultipleIsFar(width, n / width);
  }

  lemma NextMultiple(width: nat, q: int, b: int)
    requires width > 0
    ensures width * (b + 1) == width * b + width
    ensures width * b < width * q ==> width * b + width <= width * q
  {
    MultipleIsFar(width, q - b);
    assert width * (q - b) == width * q - width * b;
  }

  lemma Divided(n: nat, width: nat)
    requires width > 0
    ensures n == width * (n / width) + n % width && 0 <= n % width < width
  {
  }

  /** A block that starts before the end of the whole blocks lies inside them. */
  lemma BlockInside(n: nat, width: nat, i: nat)
    requires width > 0 && IsMultiple(i, width)
    ensures i < WholeBlocks(n, width) ==> i + width <= WholeBlocks(n, width) && IsMultiple(i + width, width)
    ensures WholeBlocks(n, width) <= n
  {
    var q, r, b := n / width, n % width, i / width;
    Divided(n, width);
    Divided(i, width);
    NextMultiple(width, q, b);
    DivisionIs(i + width, width, b + 1, 0);
  }

  // Two lanes (NEON).

  datatype Vec2 = Vec2(l0: int, l1: int) {
    function Sum(): int {
      l0 + l1
    }
  }

  function Broadcast2(x: int): Vec2 {
    Vec2(x, x)
  }

  function Add2(a: Vec2, b: Vec2): Vec2 {
    Vec2(Add64(a.l0, b.l0), Add64(a.l1, b.l1))
  }

  /** Adding lane by lane without wrapping. */
  function Plain2(a: Vec2, b: Vec2): Vec2 {
    Vec2(a.l0 + b.l0, a.l1 + b.l1)
  }

  function And2(a: Vec2, b: Vec2): Vec2 {
    Vec2(And64(a.l0, b.l0), And64(a.l1, b.l1))
  }

  function LessEqual2(a: Vec2, b: Vec2): Vec2 {
    Vec2(Mask(a.l0 <= b.l0), Mask(a.l1 <= b.l1))
  }

  function GreaterEqual2(a: Vec2, b: Vec2): Vec2 {
    Vec2(Mask(a.l0 >= b.l0), Mask(a.l1 >= b.l1))
  }

  /** The stride-2 load: every other integer to each of the two vectors. */
  function LoadDeinterleaved(raw: seq<int>, at: nat): (Vec2, Vec2)
    requires at + 3 < |raw|
  {
    (Vec2(raw[at], raw[at + 2]), Vec2(raw[at + 1], raw[at + 3]))
  }

  lemma AddedLanes2(sum: Vec2, x: Vec2)
    ensures Congruent(Add2(sum, x).l0 + Add2(sum, x).l1, (sum.l0 + sum.l1) + x.l0 + x.l1)
  {
    WrapCongruent(sum.l0 + x.l0);
    WrapCongruent(sum.l1 + x.l1);
    CongruentSum(Add2(sum, x).l0, sum.l0 + x.l0, Add2(sum, x).l1, sum.l1 + x.l1);
  }

  lemma ScannedTwo(levels: seq<PriceQuantity>, side: Side, limit: int, i: nat, sum: Vec2, count: Vec2, masked: Vec2, ones: Vec2)
    requires Scanned(levels, side, limit, i, sum.l0 + sum.l1, count.l0 + count.l1) && i + 1 < |levels|
    requires masked == Vec2(Quantity(levels[i], side, limit), Quantity(levels[i + 1], side, limit))
    requires ones == Vec2(Hit(levels[i], side, limit), Hit(levels[i + 1], side, limit))
    ensures Scanned(levels, side, limit, i + 2, Add2(sum, masked).l0 + Add2(sum, masked).l1, Add2(count, ones).l0 + Add2(count, ones).l1)
  {
    AddedLanes2(sum, masked);
    AddedLanes2(count, ones);
    ScannedNext(levels, side, limit, i, sum.l0 + sum.l1, count.l0 + count.l1,
                sum.l0 + sum.l1 + masked.l0, count.l0 + count.l1 + ones.l0);
    ScannedNext(levels, side, limit, i + 1, sum.l0 + sum.l1 + masked.l0, count.l0 + count.l1 + ones.l0,
                Add2(sum, masked).l0 + Add2(sum, masked).l1, Add2(count, ones).l0 + Add2(count, ones).l1);
  }

  function CrossMask2(prices: Vec2, limit: int, side: Side): Vec2 {
    if side.Buy? then LessEqual2(prices, Broadcast2(limit)) else GreaterEqual2(prices, Broadcast2(limit))
  }

  /** What one iteration of the two-lane kernel masks and adds. */
  lemma TwoLevels(levels: seq<PriceQuantity>, side: Side, limit: int, i: nat, sum: Vec2, counts: Vec2, prices: Vec2, quantities: Vec2)
    requires IsInput(levels, limit) && i + 1 < |levels| && Scanned(levels, side, limit, i, sum.Sum(), counts.Sum())
    requires prices == Vec2(levels[i].price, levels[i + 1].price) && quantities == Vec2(levels[i].quantity, levels[i + 1].quantity)
    ensures var mask := CrossMask2(prices, limit, side);
            var x, ones := And2(mask, quantities), And2(mask, Broadcast2(1));
            && x == Vec2(Quantity(levels[i], side, limit), Quantity(levels[i + 1], side, limit))
            && Scanned(levels, side, limit, i + 2, Add2(sum, x).Sum(), Add2(counts, ones).Sum())
  {
    hide Scanned, Quantity, Hit, Add2, And64;
    MaskedLevel(side, limit, levels[i]);
    MaskedLevel(side, limit, levels[i + 1]);
    ScannedTwo(levels, side, limit, i, sum, counts,
               Vec2(Quantity(levels[i], side, limit), Quantity(levels[i + 1], side, limit)),
               Vec2(Hit(levels[i], side, limit), Hit(levels[i + 1], side, limit)));
  }

  /** The lanes hold partial sums that add up to the exact scan of the first `i` levels. */
  ghost predicate Exact2(levels: seq<PriceQuantity>, side: Side, limit: int, i: nat, sum: Vec2) {
    i <= |levels| && sum.l0 >= 0 && sum.l1 >= 0 && sum.l0 + sum.l1 == ScanTotal(levels[..i], side, limit)
  }

  lemma AddFits(a: int, b: int)
    requires 0 <= a && 0 <= b && a + b < HALF
    ensures Add64(a, b) == a + b
  {
    WrapCongruent(a + b);
  }

  lemma QuantityFits(levels: seq<PriceQuantity>, side: Side, limit: int, i: nat)
    requires Fits(levels, side, limit) && i < |levels|
    ensures Quantity(levels[i], side, limit) >= 0
  {
  }

  lemma ExactTwo(levels: seq<PriceQuantity>, side: Side, limit: int, i: nat, sum: Vec2, x: Vec2)
    requires Fits(levels, side, limit) && Exact2(levels, side, limit, i, sum) && i + 1 < |levels|
    requires x == Vec2(Quantity(levels[i], side, limit), Quantity(levels[i + 1], side, limit))
    ensures Add2(sum, x) == Plain2(sum, x)
    ensures Exact2(levels, side, limit, i + 2, Add2(sum, x))
  {
    hide Fits, Quantity, ScanTotal, ScanCount, Add64;
    QuantityFits(levels, side, limit, i);
    QuantityFits(levels, side, limit, i + 1);
    ScanNext(levels, side, limit, i);
    ScanNext(levels, side, limit, i + 1);
    PrefixFits(levels, side, limit, i + 2);
    AddFits(sum.l0, x.l0);
    AddFits(sum.l1, x.l1);
  }

  /** The state of the two-lane kernel after `i` levels. */
  ghost predicate NeonOk(levels: seq<PriceQuantity>, side: Side, limit: int, i: nat, sum: Vec2, counts: Vec2, exact: bool) {
    && Scanned(levels, side, limit, i, sum.Sum(), counts.Sum())
    && (Fits(levels, side, limit) ==> exact && Exact2(levels, side, limit, i, sum))
  }

  lemma ScanOfNone(levels: seq<PriceQuantity>, side: Side, limit: int)
    ensures ScanTotal(levels[..0], side, limit) == 0 && ScanCount(levels[..0], side, limit) == 0
    ensures Scanned(levels, side, limit, 0, 0, 0)
  {
    assert levels[..0] == [];
  }

  lemma ExactNone2(levels: seq<PriceQuantity>, side: Side, limit: int)
    ensures Exact2(levels, side, limit, 0, Broadcast2(0))
  {
    assert levels[..0] == [];
  }

  lemma NeonStart(levels: seq<PriceQuantity>, side: Side, limit: int)
    ensures NeonOk(levels, side, limit, 0, Broadcast2(0), Broadcast2(0), true)
  {
    hide Scanned, Fits, Exact2;
    ScanOfNone(levels, side, limit);
    ExactNone2(levels, side, limit);
  }

  lemma NeonStep(levels: seq<PriceQuantity>, side: Side, limit: int, i: nat, sum: Vec2, counts: Vec2, exact: bool,
                 prices: Vec2, quantities: Vec2, mask: Vec2, x: Vec2)
    requires NeonOk(levels, side, limit, i, sum, counts, exact) && IsInput(levels, limit) && i + 1 < |levels|
    requires prices == Vec2(levels[i].price, levels[i + 1].price) && quantities == Vec2(levels[i].quantity, levels[i + 1].quantity)
    requires mask == CrossMask2(prices, limit, side) && x == And2(mask, quantities)
    ensures NeonOk(levels, side, limit, i + 2, Add2(sum, x), Add2(counts, And2(mask, Broadcast2(1))),
                   exact && Add2(sum, x) == Plain2(sum, x))
  {
    hide Scanned, Exact2, Fits, CrossMask2, And2, Add2, Quantity, IsInput;
    TwoLevels(levels, side, limit, i, sum, counts, prices, quantities);
    if Fits(levels, side, limit) {
      ExactTwo(levels, side, limit, i, sum, x);
    }
  }

  lemma NeonEnd(levels: seq<PriceQuantity>, side: Side, limit: int, i: nat, sum: Vec2, counts: Vec2, exact: bool)
    requires NeonOk(levels, side, limit, i, sum, counts, exact)
    ensures Scanned(levels, side, limit, i, Wrap(sum.Sum()), Word(Wrap(counts.Sum())))
    ensures Fits(levels, side, limit) ==> exact
  {
    ScannedWrapped(levels, side, limit, i, sum.Sum(), counts.Sum());
  }

  /** The two-lane kernel; `exact` tells whether no lane of the running sum ever wrapped. */
  method ScanNeon(levels: seq<PriceQuantity>, limit: int, side: Side) returns (r: ScanResult, ghost exact: bool)
    requires IsInput(levels, limit)
    ensures r == Expected(levels, side, limit)
    ensures Fits(levels, side, limit) ==> exact
  {
    hide NeonOk, WholeBlocks, IsMultiple, IsInput, And2, Scanned, Wrap, CrossMask2, Add2, Fits, Plain2, Raw;
    exact := true;
    var raw := Raw(levels);
    var sum, counts := Broadcast2(0), Broadcast2(0);
    var i: nat := 0;
    var vecEnd := WholeBlocks(|levels|, 2);
    NeonStart(levels, side, limit);
    BlockStart(|levels|, 2);
    while i < vecEnd
      invariant i <= vecEnd && IsMultiple(i, 2)
      invariant NeonOk(levels, side, limit, i, sum, counts, exact)
    {
      BlockInside(|levels|, 2, i);
      RawAt(levels, i);
      RawAt(levels, i + 1);
      var (prices, quantities) := LoadDeinterleaved(raw, 2 * i);
      var mask := CrossMask2(prices, limit, side);
      var x := And2(mask, quantities);
      NeonStep(levels, side, limit, i, sum, counts, exact, prices, quantities, mask, x);
      exact := exact && Add2(sum, x) == Plain2(sum, x);
      sum := Add2(sum, x);
      counts := Add2(counts, And2(mask, Broadcast2(1)));
      i := i + 2;
    }
    NeonEnd(levels, side, limit, i, sum, counts, exact);
    r := ScanTail(levels, limit, side, i, Wrap(sum.Sum()), Word(Wrap(counts.Sum())));
  }

  /** Reducing the lanes to one register, and the count to a size_t. */
  lemma ScannedWrapped(levels: seq<PriceQuantity>, side: Side, limit: int, i: nat, total: int, count: int)
    requires Scanned(levels, side, limit, i, total, count)
    ensures Scanned(levels, side, limit, i, Wrap(total), Word(Wrap(count)))
  {
    WrapCongruent(total);
    WrapCongruent(count);
  }

  // Four lanes (AVX2).

  datatype Vec4 = Vec4(l0: int, l1: int, l2: int, l3: int) {
    function Sum(): int {
      l0 + l1 + l2 + l3
    }
  }

  function Broadcast(x: int): Vec4 {
    Vec4(x, x, x, x)
  }

  function Load4(raw: seq<int>, at: nat): Vec4
    requires at + 3 < |raw|
  {
    Vec4(raw[at], raw[at + 1], raw[at + 2], raw[at + 3])
  }

  /** The low, or high, halves of each 128-bit part of two vectors, interleaved. */
  function UnpackLow(a: Vec4, b: Vec4): Vec4 {
    Vec4(a.l0, b.l0, a.l2, b.l2)
  }

  function UnpackHigh(a: Vec4, b: Vec4): Vec4 {
    Vec4(a.l1, b.l1, a.l3, b.l3)
  }

  function Greater4(a: Vec4, b: Vec4): Vec4 {
    Vec4(Mask(a.l0 > b.l0), Mask(a.l1 > b.l1), Mask(a.l2 > b.l2), Mask(a.l3 > b.l3))
  }

  function Equal4(a: Vec4, b: Vec4): Vec4 {
    Vec4(Mask(a.l0 == b.l0), Mask(a.l1 == b.l1), Mask(a.l2 == b.l2), Mask(a.l3 == b.l3))
  }

  function Xor4(a: Vec4, b: Vec4): Vec4 {
    Vec4(Xor64(a.l0, b.l0), Xor64(a.l1, b.l1), Xor64(a.l2, b.l2), Xor64(a.l3, b.l3))
  }

  function And4(a: Vec4, b: Vec4): Vec4 {
    Vec4(And64(a.l0, b.l0), And64(a.l1, b.l1), And64(a.l2, b.l2), And64(a.l3, b.l3))
  }

  function Add4(a: Vec4, b: Vec4): Vec4 {
    Vec4(Add64(a.l0, b.l0), Add64(a.l1, b.l1), Add64(a.l2, b.l2), Add64(a.l3, b.l3))
  }

  lemma AddedLanes4(sum: Vec4, x: Vec4)
    ensures Congruent(Add4(sum, x).Sum(), sum.Sum() + x.Sum())
  {
    hide Congruent, Wrap;
    var s := Add4(sum, x);
    WrapCongruent(sum.l0 + x.l0);
    WrapCongruent(sum.l1 + x.l1);
    WrapCongruent(sum.l2 + x.l2);
    WrapCongruent(sum.l3 + x.l3);
    CongruentSum(s.l0, sum.l0 + x.l0, s.l1, sum.l1 + x.l1);
    CongruentSum(s.l0 + s.l1, sum.l0 + x.l0 + (sum.l1 + x.l1), s.l2, sum.l2 + x.l2);
    CongruentSum(s.l0 + s.l1 + s.l2, sum.l0 + x.l0 + (sum.l1 + x.l1) + (sum.l2 + x.l2), s.l3, sum.l3 + x.l3);
    assert sum.l0 + x.l0 + (sum.l1 + x.l1) + (sum.l2 + x.l2) + (sum.l3 + x.l3) == sum.Sum() + x.Sum();
  }

  /** The mask of a lane shuffled by the unpacks, built from greater-than and a complement. */
  lemma ComplementedLane(side: Side, limit: int, price: int)
    ensures Xor64(Mask(if side.Buy? then price > limit else limit > price), Mask(price == price))
         == Mask(Crosses(side, limit, price))
  {
    ComplementedMask(if side.Buy? then price > limit else limit > price);
  }

  function CrossMask4(prices: Vec4, limit: int, side: Side): Vec4 {
    var gt := if side.Buy? then Greater4(prices, Broadcast(limit)) else Greater4(Broadcast(limit), prices);
    Xor4(gt, Equal4(prices, prices))
  }

  lemma CrossMaskIs(prices: Vec4, limit: int, side: Side)
    ensures CrossMask4(prices, limit, side) ==
            Vec4(Mask(Crosses(side, limit, prices.l0)), Mask(Crosses(side, limit, prices.l1)),
                 Mask(Crosses(side, limit, prices.l2)), Mask(Crosses(side, limit, prices.l3)))
  {
    hide Xor64;
    ComplementedLane(side, limit, prices.l0);
    ComplementedLane(side, limit, prices.l1);
    ComplementedLane(side, limit, prices.l2);
    ComplementedLane(side, limit, prices.l3);
  }

  /** Four more levels, in whatever order the lanes hold them. */
  lemma ScannedFour(levels: seq<PriceQuantity>, side: Side, limit: int, i: nat, total: int, count: int, total': int, count': int)
    requires Scanned(levels, side, limit, i, total, count) && i + 3 < |levels|
    requires Congruent(total', total + Quantity(levels[i], side, limit) + Quantity(levels[i + 1], side, limit)
                               + Quantity(levels[i + 2], side, limit) + Quantity(levels[i + 3], side, limit))
    requires Congruent(count', count + Hit(levels[i], side, limit) + Hit(levels[i + 1], side, limit)
                               + Hit(levels[i + 2], side, limit) + Hit(levels[i + 3], side, limit))
    ensures Scanned(levels, side, limit, i + 4, total', count')
  {
    hide Scanned, Quantity, Hit;
    var t1, c1 := total + Quantity(levels[i], side, limit), count + Hit(levels[i], side, limit);
    var t2, c2 := t1 + Quantity(levels[i + 1], side, limit), c1 + Hit(levels[i + 1], side, limit);
    var t3, c3 := t2 + Quantity(levels[i + 2], side, limit), c2 + Hit(levels[i + 2], side, limit);
    ScannedNext(levels, side, limit, i, total, count, t1, c1);
    ScannedNext(levels, side, limit, i + 1, t1, c1, t2, c2);
    ScannedNext(levels, side, limit, i + 2, t2, c2, t3, c3);
    ScannedNext(levels, side, limit, i + 3, t3, c3, total', count');
  }

  /** Masked quantities and ones, for the four levels in the lanes. */
  lemma MaskedLanes4(side: Side, limit: int, a: PriceQuantity, b: PriceQuantity, c: PriceQuantity, d: PriceQuantity)
    requires IsInt64(a.quantity) && IsInt64(b.quantity) && IsInt64(c.quantity) && IsInt64(d.quantity)
    ensures var m := CrossMask4(Vec4(a.price, b.price, c.price, d.price), limit, side);
            && And4(m, Vec4(a.quantity, b.quantity, c.quantity, d.quantity)) ==
                 Vec4(Quantity(a, side, limit), Quantity(b, side, limit), Quantity(c, side, limit), Quantity(d, side, limit))
            && And4(m, Broadcast(1)) == Vec4(Hit(a, side, limit), Hit(b, side, limit), Hit(c, side, limit), Hit(d, side, limit))
  {
    hide And64, CrossMask4;
    CrossMaskIs(Vec4(a.price, b.price, c.price, d.price), limit, side);
    MaskedLevel(side, limit, a);
    MaskedLevel(side, limit, b);
    MaskedLevel(side, limit, c);
    MaskedLevel(side, limit, d);
  }

  lemma MaskedLevel(side: Side, limit: int, l: PriceQuantity)
    requires IsInt64(l.quantity)
    ensures And64(Mask(Crosses(side, limit, l.price)), l.quantity) == Quantity(l, side, limit)
    ensures And64(Mask(Crosses(side, limit, l.price)), 1) == Hit(l, side, limit)
  {
    MaskedLane(Crosses(side, limit, l.price), l.quantity);
    MaskedLane(Crosses(side, limit, l.price), 1);
  }

  ghost predicate Exact4(levels: seq<PriceQuantity>, side: Side, limit: int, i: nat, sum: Vec4) {
    && i <= |levels| && sum.l0 >= 0 && sum.l1 >= 0 && sum.l2 >= 0 && sum.l3 >= 0
    && sum.Sum() == ScanTotal(levels[..i], side, limit)
  }

  /** Adding lane by lane without wrapping. */
  function Plain4(a: Vec4, b: Vec4): Vec4 {
    Vec4(a.l0 + b.l0, a.l1 + b.l1, a.l2 + b.l2, a.l3 + b.l3)
  }

  lemma ExactFour(levels: seq<PriceQuantity>, side: Side, limit: int, i: nat, sum: Vec4, x: Vec4)
    requires Fits(levels, side, limit) && Exact4(levels, side, limit, i, sum) && i + 3 < |levels|
    requires x == Vec4(Quantity(levels[i], side, limit), Quantity(levels[i + 2], side, limit),
                       Quantity(levels[i + 1], side, limit), Quantity(levels[i + 3], side, limit))
    ensures Add4(sum, x) == Plain4(sum, x)
    ensures Exact4(levels, side, limit, i + 4, Add4(sum, x))
  {
    hide Fits, Quantity, ScanTotal, ScanCount, Add64;
    QuantityFits(levels, side, limit, i);
    QuantityFits(levels, side, limit, i + 1);
    QuantityFits(levels, side, limit, i + 2);
    QuantityFits(levels, side, limit, i + 3);
    ScanNext(levels, side, limit, i);
    ScanNext(levels, side, limit, i + 1);
    ScanNext(levels, side, limit, i + 2);
    ScanNext(levels, side, limit, i + 3);
    PrefixFits(levels, side, limit, i + 4);
    AddFits(sum.l0, x.l0);
    AddFits(sum.l1, x.l1);
    AddFits(sum.l2, x.l2);
    AddFits(sum.l3, x.l3);
  }

  /** What one iteration of the four-lane kernel loads, masks and adds. */
  lemma FourLevels(levels: seq<PriceQuantity>, side: Side, limit: int, i: nat, sum: Vec4, counts: Vec4, lo: Vec4, hi: Vec4)
    requires IsInput(levels, limit) && i + 3 < |levels| && Scanned(levels, side, limit, i, sum.Sum(), counts.Sum())
    requires lo == Vec4(levels[i].price, levels[i].quantity, levels[i + 1].price, levels[i + 1].quantity)
    requires hi == Vec4(levels[i + 2].price, levels[i + 2].quantity, levels[i + 3].price, levels[i + 3].quantity)
    ensures var mask := CrossMask4(UnpackLow(lo, hi), limit, side);
            var x, ones := And4(mask, UnpackHigh(lo, hi)), And4(mask, Broadcast(1));
            && x == Vec4(Quantity(levels[i], side, limit), Quantity(levels[i + 2], side, limit),
                         Quantity(levels[i + 1], side, limit), Quantity(levels[i + 3], side, limit))
            && Scanned(levels, side, limit, i + 4, Add4(sum, x).Sum(), Add4(counts, ones).Sum())
  {
    hide And4, CrossMask4, Scanned, Congruent, Add4, Crosses, Quantity, Hit;
    var prices, quantities := UnpackLow(lo, hi), UnpackHigh(lo, hi);
    var mask := CrossMask4(prices, limit, side);
    var x, ones := And4(mask, quantities), And4(mask, Broadcast(1));
    MaskedLanes4(side, limit, levels[i], levels[i + 2], levels[i + 1], levels[i + 3]);
    AddedLanes4(sum, x);
    AddedLanes4(counts, ones);
    ScannedFour(levels, side, limit, i, sum.Sum(), counts.Sum(), Add4(sum, x).Sum(), Add4(counts, ones).Sum());
  }

  lemma ExactNone4(levels: seq<PriceQuantity>, side: Side, limit: int)
    ensures Exact4(levels, side, limit, 0, Broadcast(0))
  {
    assert levels[..0] == [];
  }

  /** The state of the four-lane kernel after `i` levels. */
  ghost predicate Avx2Ok(levels: seq<PriceQuantity>, side: Side, limit: int, i: nat, sum: Vec4, counts: Vec4, exact: bool) {
    && Scanned(levels, side, limit, i, sum.Sum(), counts.Sum())
    && (Fits(levels, side, limit) ==> exact && Exact4(levels, side, limit, i, sum))
  }

  lemma Avx2Start(levels: seq<PriceQuantity>, side: Side, limit: int)
    ensures Avx2Ok(levels, side, limit, 0, Broadcast(0), Broadcast(0), true)
  {
    hide Scanned, Fits, Exact4;
    ScanOfNone(levels, side, limit);
    ExactNone4(levels, side, limit);
  }

  lemma Avx2Step(levels: seq<PriceQuantity>, side: Side, limit: int, i: nat, sum: Vec4, counts: Vec4, exact: bool,
                 lo: Vec4, hi: Vec4, mask: Vec4, x: Vec4)
    requires Avx2Ok(levels, side, limit, i, sum, counts, exact) && IsInput(levels, limit) && i + 3 < |levels|
    requires lo == Vec4(levels[i].price, levels[i].quantity, levels[i + 1].price, levels[i + 1].quantity)
    requires hi == Vec4(levels[i + 2].price, levels[i + 2].quantity, levels[i + 3].price, levels[i + 3].quantity)
    requires mask == CrossMask4(UnpackLow(lo, hi), limit, side) && x == And4(mask, UnpackHigh(lo, hi))
    ensures Avx2Ok(levels, side, limit, i + 4, Add4(sum, x), Add4(counts, And4(mask, Broadcast(1))),
                   exact && Add4(sum, x) == Plain4(sum, x))
  {
    hide Scanned, Exact4, Fits, CrossMask4, And4, Add4, Quantity, IsInput;
    FourLevels(levels, side, limit, i, sum, counts, lo, hi);
    if Fits(levels, side, limit) {
      ExactFour(levels, side, limit, i, sum, x);
    }
  }

  lemma Avx2End(levels: seq<PriceQuantity>, side: Side, limit: int, i: nat, sum: Vec4, counts: Vec4, exact: bool)
    requires Avx2Ok(levels, side, limit, i, sum, counts, exact)
    ensures Scanned(levels, side, limit, i, Wrap(sum.Sum()), Word(Wrap(counts.Sum())))
    ensures Fits(levels, side, limit) ==> exact
  {
    ScannedWrapped(levels, side, limit, i, sum.Sum(), counts.Sum());
  }

  /** The four-lane kernel; `exact` tells whether no lane of the running sum ever wrapped. */
  method ScanAvx2(levels: seq<PriceQuantity>, limit: int, side: Side) returns (r: ScanResult, ghost exact: bool)
    requires IsInput(levels, limit)
    ensures r == Expected(levels, side, limit)
    ensures Fits(levels, side, limit) ==> exact
  {
    hide Avx2Ok, WholeBlocks, IsMultiple, IsInput, And4, Scanned, Wrap, CrossMask4, Add4, Fits, Plain4, Raw, UnpackLow, UnpackHigh;
    exact := true;
    var raw := Raw(levels);
    var sum, counts := Broadcast(0), Broadcast(0);
    var i: nat := 0;
    var vecEnd := WholeBlocks(|levels|, 4);
    Avx2Start(levels, side, limit);
    BlockStart(|levels|, 4);
    while i < vecEnd
      invariant i <= vecEnd && IsMultiple(i, 4)
      invariant Avx2Ok(levels, side, limit, i, sum, counts, exact)
    {
      BlockInside(|levels|, 4, i);
      RawAt(levels, i);
      RawAt(levels, i + 1);
      RawAt(levels, i + 2);
      RawAt(levels, i + 3);
      var lo, hi := Load4(raw, 2 * i), Load4(raw, 2 * (i + 2));
      var prices, quantities := UnpackLow(lo, hi), UnpackHigh(lo, hi);
      var mask := CrossMask4(prices, limit, side);
      var x := And4(mask, quantities);
      Avx2Step(levels, side, limit, i, sum, counts, exact, lo, hi, mask, x);
      exact := exact && Add4(sum, x) == Plain4(sum, x);
      sum := Add4(sum, x);
      counts := Add4(counts, And4(mask, Broadcast(1)));
      i := i + 4;
    }
    Avx2End(levels, side, limit, i, sum, counts, exact);
    r := ScanTail(levels, limit, side, i, Wrap(sum.Sum()), Word(Wrap(counts.Sum())));
  }
}
