/** Nearest-rank percentiles and the summary of a set of samples (latency_harness.cpp). */
module LatencyStats {
  import opened Arithmetic

  ghost predicate Ascending(s: seq<nat>) {
    forall i, j :: 0 <= i < j < |s| ==> s[i] <= s[j]
  }

  /** How many samples are at most `v`. */
  function CountAtMost(s: seq<nat>, v: nat): nat {
    if s == [] then 0 else (if s[0] <= v then 1 else 0) + CountAtMost(s[1..], v)
  }

  /**
   What a percentile is: the smallest sample that enough samples do not exceed. `p` counts
   hundredths of a percent.
   */
  ghost predicate IsPercentile(s: seq<nat>, p: nat, v: nat) {
    && v in s && 10000 * CountAtMost(s, v) >= p * |s|
    && forall w :: w in s && 10000 * CountAtMost(s, w) >= p * |s| ==> v <= w
  }

  // The rank.

  function Clamp(p: real): real {
    if p < 0.0 then 0.0 else if p > 100.0 then 100.0 else p
  }

  /** Rounds half away from zero, as `llround` does on a number that is not negative. */
  function Round(x: real): int {
    (x + 0.5).Floor
  }

  function ScaledPercent(p: real): (k: nat)
    ensures k <= 10000
  {
    Round(Clamp(p) * 100.0)
  }

  /** The 1-based rank: ceil(p * n / 10000), at least 1 and at most n. */
  function Rank(n: nat, p: nat): nat {
    var rank := (p * n + 10000 - 1) / 10000;
    var positive := if rank < 1 then 1 else rank;
    if positive > n then n else positive
  }

  function NearestRankPercentile(sorted: seq<nat>, p: real): nat {
    if sorted == [] then 0 else sorted[Rank(|sorted|, ScaledPercent(p)) - 1]
  }

  /** A percentage in range becomes the nearest number of hundredths, halves rounding up; others the nearest bound. */
  lemma ScaledPercentIsNearest(p: real)
    ensures p <= 0.0 ==> ScaledPercent(p) == 0
    ensures p >= 100.0 ==> ScaledPercent(p) == 10000
    ensures 0.0 <= p <= 100.0 ==> ScaledPercent(p) as real - 0.5 <= 100.0 * p < ScaledPercent(p) as real + 0.5
  {
  }

  /** Rounding finds the intended hundredth however a small error in the percentage falls. */
  lemma RoundingForgivesError(k: nat, error: real)
    requires k <= 10000 && -0.005 < error < 0.005
    ensures ScaledPercent(k as real / 100.0 + error) == k
  {
    var x := Clamp(k as real / 100.0 + error) * 100.0;
    assert k as real - 0.5 < x < k as real + 0.5;
  }

  /** Truncation does not: any error below the intended percentage loses one hundredth. */
  lemma TruncationLosesOne(k: nat, error: real)
    requires 0.0 < error <= 0.01
    ensures ((k as real / 100.0 - error) * 100.0).Floor == k - 1
  {
    assert k as real - 1.0 <= (k as real / 100.0 - error) * 100.0 < k as real;
  }

  lemma RankIsCeiling(n: nat, p: nat)
    requires n > 0 && p <= 10000
    ensures var r := Rank(n, p);
            1 <= r <= n && 10000 * r >= p * n && (r > 1 ==> 10000 * (r - 1) < p * n)
  {
    assert p * n <= 10000 * n by {
      assert (10000 - p) * n >= 0;
    }
  }

  lemma RankGrows(n: nat, p: nat, q: nat)
    requires p <= q
    ensures Rank(n, p) <= Rank(n, q)
  {
    assert p * n <= q * n by {
      assert (q - p) * n >= 0;
    }
  }

  // Counting on a sorted sequence.

  lemma {:induction false} CountAppend(a: seq<nat>, b: seq<nat>, v: nat)
    ensures CountAtMost(a + b, v) == CountAtMost(a, v) + CountAtMost(b, v)
    decreases |a|
  {
    if a == [] {
      assert a + b == b;
    } else {
      CountAppend(a[1..], b, v);
      assert (a + b)[1..] == a[1..] + b;
    }
  }

  lemma {:induction false} CountAll(s: seq<nat>, v: nat)
    ensures CountAtMost(s, v) <= |s|
    ensures (forall i :: 0 <= i < |s| ==> s[i] <= v) ==> CountAtMost(s, v) == |s|
    ensures (forall i :: 0 <= i < |s| ==> s[i] > v) ==> CountAtMost(s, v) == 0
    decreases |s|
  {
    if s != [] {
      CountAll(s[1..], v);
    }
  }

  /** On a sorted sequence, the sample of rank k has k + 1 samples at most it. */
  lemma CountAtRank(s: seq<nat>, k: nat)
    requires Ascending(s) && k < |s|
    ensures CountAtMost(s, s[k]) >= k + 1
  {
    assert s == s[..k + 1] + s[k + 1..];
    CountAppend(s[..k + 1], s[k + 1..], s[k]);
    CountAll(s[..k + 1], s[k]);
  }

  /** At most k samples are below the sample of rank k, and none if k is the first rank. */
  lemma CountBelowRank(s: seq<nat>, k: nat, w: nat)
    requires Ascending(s) && k < |s| && w < s[k]
    ensures CountAtMost(s, w) <= k
    ensures w in s ==> k > 0
  {
    hide CountAtMost;
    assert CountAtMost(s, w) == CountAtMost(s[..k], w) + CountAtMost(s[k..], w) by {
      assert s == s[..k] + s[k..];
      CountAppend(s[..k], s[k..], w);
    }
    CountAll(s[..k], w);
    CountAll(s[k..], w);
  }

  /** The nearest-rank sample of a sorted sequence is the percentile; without samples the answer is 0. */
  lemma NearestRankIsPercentile(sorted: seq<nat>, p: real)
    requires Ascending(sorted)
    ensures sorted == [] ==> NearestRankPercentile(sorted, p) == 0
    ensures sorted != [] ==> IsPercentile(sorted, ScaledPercent(p), NearestRankPercentile(sorted, p))
  {
    if sorted != [] {
      hide ScaledPercent, Rank, CountAtMost;
      var k := ScaledPercent(p);
      var r := Rank(|sorted|, k);
      RankIsCeiling(|sorted|, k);
      CountAtRank(sorted, r - 1);
      forall w | w in sorted && 10000 * CountAtMost(sorted, w) >= k * |sorted| ensures sorted[r - 1] <= w {
        if w < sorted[r - 1] {
          CountBelowRank(sorted, r - 1, w);
        }
      }
    }
  }

  // Sorting, as std::sort specifies it.

  function InsertSorted(s: seq<nat>, v: nat): seq<nat> {
    if s == [] || v <= s[0] then [v] + s else [s[0]] + InsertSorted(s[1..], v)
  }

  function Sorted(s: seq<nat>): seq<nat> {
    if s == [] then [] else InsertSorted(Sorted(s[1..]), s[0])
  }

  lemma {:induction false} InsertSortedHolds(s: seq<nat>, v: nat)
    ensures multiset(InsertSorted(s, v)) == multiset(s) + multiset{v}
    decreases |s|
  {
    if !(s == [] || v <= s[0]) {
      InsertSortedHolds(s[1..], v);
      assert s == [s[0]] + s[1..];
    }
  }

  lemma {:induction false} InsertSortedAscends(s: seq<nat>, v: nat)
    requires Ascending(s)
    ensures Ascending(InsertSorted(s, v))
    ensures InsertSorted(s, v)[0] == v || (s != [] && InsertSorted(s, v)[0] == s[0])
    decreases |s|
  {
    if !(s == [] || v <= s[0]) {
      InsertSortedAscends(s[1..], v);
      var rest := InsertSorted(s[1..], v);
      assert s[0] <= rest[0];
      forall i | 0 <= i < |rest| ensures s[0] <= rest[i] {
        assert i > 0 ==> rest[0] <= rest[i];
      }
    }
  }

  lemma {:induction false} SortedIs(s: seq<nat>)
    ensures Ascending(Sorted(s)) && multiset(Sorted(s)) == multiset(s)
    decreases |s|
  {
    if s != [] {
      SortedIs(s[1..]);
      InsertSortedHolds(Sorted(s[1..]), s[0]);
      InsertSortedAscends(Sorted(s[1..]), s[0]);
      assert s == [s[0]] + s[1..];
    }
  }

  function Without(s: seq<nat>, i: nat): seq<nat>
    requires i < |s|
  {
    s[..i] + s[i + 1..]
  }

  lemma WithoutOne(s: seq<nat>, i: nat)
    requires i < |s|
    ensures multiset(Without(s, i)) == multiset(s) - multiset{s[i]}
  {
    assert s == s[..i] + ([s[i]] + s[i + 1..]);
  }

  lemma WithoutFirstAlike(a: seq<nat>, b: seq<nat>) returns (i: nat)
    requires multiset(a) == multiset(b) && a != []
    ensures i < |b| && b[i] == a[0] && multiset(a[1..]) == multiset(Without(b, i))
  {
    assert a[0] in multiset(b);
    i :| 0 <= i < |b| && b[i] == a[0];
    assert Without(a, 0) == a[1..];
    WithoutOne(a, 0);
    WithoutOne(b, i);
  }

  /** Counts do not depend on the order of the samples. */
  lemma {:induction false} CountIgnoresOrder(a: seq<nat>, b: seq<nat>, v: nat)
    requires multiset(a) == multiset(b)
    ensures CountAtMost(a, v) == CountAtMost(b, v) && |a| == |b|
    decreases |a|
  {
    if a == [] {
      assert |multiset(b)| == 0;
    } else {
      var i := WithoutFirstAlike(a, b);
      CountIgnoresOrder(a[1..], Without(b, i), v);
      assert b == b[..i] + ([b[i]] + b[i + 1..]);
      assert ([b[i]] + b[i + 1..])[1..] == b[i + 1..];
      CountAppend(b[..i], [b[i]] + b[i + 1..], v);
      CountAppend(b[..i], b[i + 1..], v);
    }
  }

  /** So a percentile depends only on which samples there are, and there is only one. */
  lemma PercentileIgnoresOrder(a: seq<nat>, b: seq<nat>, p: nat, v: nat, w: nat)
    requires multiset(a) == multiset(b) && IsPercentile(a, p, v) && IsPercentile(b, p, w)
    ensures v == w
  {
    SameMembers(a, b);
    CountIgnoresOrder(a, b, v);
    CountIgnoresOrder(a, b, w);
  }

  lemma SameMembers(a: seq<nat>, b: seq<nat>)
    requires multiset(a) == multiset(b)
    ensures forall x :: x in a <==> x in b
  {
    forall x ensures x in a <==> x in b {
      assert x in a <==> x in multiset(a);
      assert x in b <==> x in multiset(b);
    }
  }

  lemma PercentileOfPermutation(a: seq<nat>, b: seq<nat>, p: nat, v: nat)
    requires multiset(a) == multiset(b) && IsPercentile(a, p, v)
    ensures IsPercentile(b, p, v)
  {
    SameMembers(a, b);
    CountIgnoresOrder(a, b, v);
    forall w | w in b && 10000 * CountAtMost(b, w) >= p * |b| ensures v <= w {
      CountIgnoresOrder(a, b, w);
    }
  }

  // The summary.

  datatype Stats = Stats(count: nat, min: nat, max: nat, mean: real, p50: nat, p90: nat, p99: nat, p999: nat, p9999: nat)

  function Sum(s: seq<nat>): nat {
    if s == [] then 0 else s[|s| - 1] + Sum(s[..|s| - 1])
  }

  /** What the summary of at least one sample promises, whatever the order of the samples. */
  ghost predicate Summarizes(samples: seq<nat>, r: Stats) {
    && r.count == |samples|
    && r.min in samples && r.max in samples && (forall x :: x in samples ==> r.min <= x <= r.max)
    && IsPercentile(samples, 5000, r.p50) && IsPercentile(samples, 9000, r.p90) && IsPercentile(samples, 9900, r.p99)
    && IsPercentile(samples, 9990, r.p999) && IsPercentile(samples, 9999, r.p9999)
    && r.min <= r.p50 <= r.p90 <= r.p99 <= r.p999 <= r.p9999 <= r.max
  }

  lemma ExactPercents()
    ensures ScaledPercent(50.0) == 5000 && ScaledPercent(90.0) == 9000 && ScaledPercent(99.0) == 9900
    ensures ScaledPercent(99.9) == 9990 && ScaledPercent(99.99) == 9999
  {
  }

  /** A nearest-rank sample of the sorted copy is the percentile of the samples themselves. */
  lemma SamplePercentile(samples: seq<nat>, p: real)
    requires samples != []
    ensures Sorted(samples) != [] && IsPercentile(samples, ScaledPercent(p), NearestRankPercentile(Sorted(samples), p))
  {
    SortedIs(samples);
    assert |multiset(Sorted(samples))| == |multiset(samples)|;
    NearestRankIsPercentile(Sorted(samples), p);
    PercentileOfPermutation(Sorted(samples), samples, ScaledPercent(p), NearestRankPercentile(Sorted(samples), p));
  }

  /** Higher percentages never give smaller samples, and all lie between the first and the last. */
  lemma PercentilesAscend(sorted: seq<nat>, p: real, q: real)
    requires Ascending(sorted) && sorted != [] && p <= q
    ensures sorted[0] <= NearestRankPercentile(sorted, p) <= NearestRankPercentile(sorted, q) <= sorted[|sorted| - 1]
  {
    RankIsCeiling(|sorted|, ScaledPercent(p));
    RankIsCeiling(|sorted|, ScaledPercent(q));
    RankGrows(|sorted|, ScaledPercent(p), ScaledPercent(q));
  }

  /** What the summary reads off the sorted copy. */
  function Summary(sorted: seq<nat>, mean: real): Stats
    requires sorted != []
  {
    Stats(|sorted|, sorted[0], sorted[|sorted| - 1], mean,
          NearestRankPercentile(sorted, 50.0), NearestRankPercentile(sorted, 90.0),
          NearestRankPercentile(sorted, 99.0), NearestRankPercentile(sorted, 99.9), NearestRankPercentile(sorted, 99.99))
  }

  lemma SummaryOfSorted(samples: seq<nat>, mean: real)
    requires samples != []
    ensures Sorted(samples) != [] && |Sorted(samples)| == |samples| && Summarizes(samples, Summary(Sorted(samples), mean))
  {
    hide IsPercentile, ScaledPercent, NearestRankPercentile, Sorted;
    var sorted := Sorted(samples);
    SortedIs(samples);
    SameMembers(sorted, samples);
    SortedLength(samples);
    ExactPercents();
    SamplePercentile(samples, 50.0);
    SamplePercentile(samples, 90.0);
    SamplePercentile(samples, 99.0);
    SamplePercentile(samples, 99.9);
    SamplePercentile(samples, 99.99);
    PercentilesAscend(sorted, 50.0, 90.0);
    PercentilesAscend(sorted, 90.0, 99.0);
    PercentilesAscend(sorted, 99.0, 99.9);
    PercentilesAscend(sorted, 99.9, 99.99);
    assert sorted[0] in sorted && sorted[|sorted| - 1] in sorted;
    AscendingBounds(sorted);
  }

  lemma AscendingBounds(s: seq<nat>)
    requires Ascending(s) && s != []
    ensures forall x :: x in s ==> s[0] <= x <= s[|s| - 1]
  {
  }

  lemma {:induction false} SumAppend(s: seq<nat>, v: nat)
    ensures Sum(s + [v]) == Sum(s) + v
  {
    assert (s + [v])[..|s|] == s;
  }

  method ComputeLatencyStats(samples: seq<nat>) returns (r: Stats)
    ensures samples == [] ==> r == Stats(0, 0, 0, 0.0, 0, 0, 0, 0, 0)
    ensures samples != [] ==> Summarizes(samples, r)
    ensures samples != [] ==> r.mean * (|samples| as real) == Sum(samples) as real
  {
    hide Summarizes, NearestRankPercentile, Sorted, Sum;
    if samples == [] {
      return Stats(0, 0, 0, 0.0, 0, 0, 0, 0, 0);
    }
    var sorted := Sorted(samples);
    var sum, i := 0.0, 0;
    SumOfNone();
    while i < |sorted|
      invariant 0 <= i <= |sorted| && sum == Sum(sorted[..i]) as real
    {
      SumAppend(sorted[..i], sorted[i]);
      assert sorted[..i + 1] == sorted[..i] + [sorted[i]];
      sum := sum + sorted[i] as real;
      i := i + 1;
    }
    assert sorted[..i] == sorted;
    SortedLength(samples);
    SortedIs(samples);
    SumIgnoresOrder(sorted, samples);
    SummaryOfSorted(samples, sum / (|sorted| as real));
    r := Summary(sorted, sum / (|sorted| as real));
  }

  lemma SortedLength(samples: seq<nat>)
    ensures |Sorted(samples)| == |samples|
  {
    SortedIs(samples);
    CountIgnoresOrder(Sorted(samples), samples, 0);
  }

  lemma SumOfNone()
    ensures Sum([]) == 0
  {
  }

  lemma {:induction false} SumOfParts(a: seq<nat>, b: seq<nat>)
    ensures Sum(a + b) == Sum(a) + Sum(b)
    decreases |b|
  {
    if b == [] {
      assert a + b == a;
    } else {
      SumOfParts(a, b[..|b| - 1]);
      assert (a + b)[..|a + b| - 1] == a + b[..|b| - 1];
    }
  }

  /** The sum of the sorted samples is that of the samples. */
  lemma {:induction false} SumIgnoresOrder(a: seq<nat>, b: seq<nat>)
    requires multiset(a) == multiset(b)
    ensures Sum(a) == Sum(b)
    decreases |a|
  {
    if a == [] {
      assert |multiset(b)| == 0;
    } else {
      var i := WithoutFirstAlike(a, b);
      SumIgnoresOrder(a[1..], Without(b, i));
      assert a == [a[0]] + a[1..] && b == b[..i] + ([a[0]] + b[i + 1..]);
      SumOfParts([a[0]], a[1..]);
      SumOfParts(b[..i], [a[0]] + b[i + 1..]);
      SumOfParts([a[0]], b[i + 1..]);
      SumOfParts(b[..i], b[i + 1..]);
    }
  }
}
