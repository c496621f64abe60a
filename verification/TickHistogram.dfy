/**
 * The fixed-bucket histogram of tick times (benchmark/common/src/metrics.cpp): its
 * quantiles against sorting all samples.
 */
module TickHistograms {
  /** The linear range in microseconds; larger samples share the last bucket. */
  const LINEAR_US: nat := 20000
  const BUCKETS: nat := LINEAR_US + 1

  function Clamp(us: nat): (b: nat)
    ensures b < BUCKETS && b <= us
  {
    if us >= LINEAR_US then LINEAR_US else us
  }

  // ----- samples and their order -----

  predicate Ascending(s: seq<nat>) {
    forall i, j :: 0 <= i < j < |s| ==> s[i] <= s[j]
  }

  /** s with x put where it belongs. */
  function Insert(s: seq<nat>, x: nat): (r: seq<nat>)
    requires Ascending(s)
    ensures |r| == |s| + 1 && Ascending(r) && multiset(r) == multiset(s) + multiset{x}
  {
    if |s| == 0 || s[|s| - 1] <= x then s + [x]
    else
      var n := |s| - 1;
      var r := Insert(s[..n], x) + [s[n]];
      assert s == s[..n] + [s[n]];
      assert forall k :: 0 <= k < n + 1 ==> r[k] in multiset(s[..n]) + multiset{x} by {
        assert forall k :: 0 <= k < n + 1 ==> r[k] in multiset(Insert(s[..n], x));
      }
      assert forall k :: 0 <= k < n + 1 ==> r[k] <= s[n];
      r
  }

  function Sort(s: seq<nat>): (r: seq<nat>)
    ensures |r| == |s| && Ascending(r) && multiset(r) == multiset(s)
  {
    if |s| == 0 then []
    else
      assert s == s[..|s| - 1] + [s[|s| - 1]];
      Insert(Sort(s[..|s| - 1]), s[|s| - 1])
  }

  /** The number of samples in bucket b, and in the buckets below b. */
  function InBucket(s: seq<nat>, b: nat): nat {
    if |s| == 0 then 0 else InBucket(s[..|s| - 1], b) + if Clamp(s[|s| - 1]) == b then 1 else 0
  }

  function BelowBucket(s: seq<nat>, b: nat): (n: nat)
    ensures n <= |s|
  {
    if |s| == 0 then 0 else BelowBucket(s[..|s| - 1], b) + if Clamp(s[|s| - 1]) < b then 1 else 0
  }

  lemma {:induction false} NextBucket(s: seq<nat>, b: nat)
    ensures BelowBucket(s, b + 1) == BelowBucket(s, b) + InBucket(s, b)
  {
    if |s| == 0 {
    } else {
      NextBucket(s[..|s| - 1], b);
    }
  }

  lemma {:induction false} NothingBelow(s: seq<nat>)
    ensures BelowBucket(s, 0) == 0 && BelowBucket(s, BUCKETS) == |s|
  {
    if |s| == 0 {
    } else {
      NothingBelow(s[..|s| - 1]);
    }
  }

  lemma BelowAppended(s: seq<nat>, x: nat, b: nat)
    ensures BelowBucket(s + [x], b) == BelowBucket(s, b) + if Clamp(x) < b then 1 else 0
  {
    assert (s + [x])[..|s|] == s;
  }

  /** How many samples are below a bucket depends only on which samples there are. */
  lemma {:induction false} BelowInserted(s: seq<nat>, x: nat, b: nat)
    requires Ascending(s)
    ensures BelowBucket(Insert(s, x), b) == BelowBucket(s, b) + if Clamp(x) < b then 1 else 0
  {
    hide BelowBucket, Clamp;
    if |s| == 0 || s[|s| - 1] <= x {
      BelowAppended(s, x, b);
    } else {
      var n := |s| - 1;
      BelowInserted(s[..n], x, b);
      assert s == s[..n] + [s[n]];
      BelowAppended(s[..n], s[n], b);
      BelowAppended(Insert(s[..n], x), s[n], b);
    }
  }

  lemma {:induction false} BelowSorted(s: seq<nat>, b: nat)
    ensures BelowBucket(Sort(s), b) == BelowBucket(s, b)
  {
    if |s| == 0 {
    } else {
      BelowSorted(s[..|s| - 1], b);
      BelowInserted(Sort(s[..|s| - 1]), s[|s| - 1], b);
    }
  }

  /** In a sorted list the samples below a bucket come first. */
  lemma {:induction false} BelowAscending(s: seq<nat>, b: nat, k: nat)
    requires Ascending(s) && k < |s|
    ensures k < BelowBucket(s, b) <==> Clamp(s[k]) < b
  {
    var n := |s| - 1;
    if k < n {
      BelowAscending(s[..n], b, k);
    } else if n > 0 {
      BelowAscending(s[..n], b, n - 1);
      assert s[n - 1] <= s[n];
    }
  }

  /** The bucket where the cumulative count reaches k holds the k-th smallest sample. */
  lemma BucketOfRank(s: seq<nat>, b: nat, k: nat)
    requires 0 < k <= |s|
    ensures BelowBucket(s, b) < k <= BelowBucket(s, b + 1) <==> Clamp(Sort(s)[k - 1]) == b
  {
    hide Sort, BelowBucket;
    BelowSorted(s, b);
    BelowSorted(s, b + 1);
    BelowAscending(Sort(s), b, k - 1);
    BelowAscending(Sort(s), b + 1, k - 1);
  }

  // ----- which sample a quantile asks for -----

  /** The rank that is looked for among n samples. */
  function Target(p: real, n: nat): (k: nat)
    requires 0.0 < p < 1.0 && n > 0
    ensures 1 <= k <= n
  {
    assert 0.0 < p * n as real < n as real;
    var t := (p * n as real + 0.999999).Floor;
    if t == 0 then 1 else t
  }

  function Ceiling(x: real): int {
    if x == x.Floor as real then x.Floor else x.Floor + 1
  }

  /**
   * The rank is the ceiling of p*n, which the source promises, unless p*n exceeds a positive whole number by
   * less than a millionth; then it is one less.
   */
  lemma TargetIsCeilingIff(p: real, n: nat)
    requires 0.0 < p < 1.0 && n > 0
    ensures var x := p * n as real;
            Target(p, n) == Ceiling(x) <==> x < 1.0 || x == x.Floor as real || x - x.Floor as real >= 0.000001
    ensures Ceiling(p * n as real) - 1 <= Target(p, n) <= Ceiling(p * n as real)
  {
    var x := p * n as real;
    assert 0.0 < x;
    var whole, rest := x.Floor, x - x.Floor as real;
    if rest >= 0.000001 {
      assert (x + 0.999999).Floor == whole + 1;
    } else {
      assert (x + 0.999999).Floor == whole;
    }
  }

  /** A rank and a number of samples for which it is one less. */
  lemma TargetFallsShort()
    ensures Target(0.5000001, 2) == 1 && Ceiling(0.5000001 * 2 as real) == 2
  {
    var x := 0.5000001 * 2 as real;
    assert x == 1.0000002 && x.Floor == 1;
    TargetIsCeilingIff(0.5000001, 2);
    assert (x + 0.999999).Floor == 1;
  }

  lemma TargetGrows(p: real, q: real, n: nat)
    requires 0.0 < p <= q < 1.0 && n > 0
    ensures Target(p, n) <= Target(q, n)
  {
    var x, y := p * n as real, q * n as real;
    assert x <= y;
    FloorGrows(x + 0.999999, y + 0.999999);
  }

  lemma FloorGrows(x: real, y: real)
    requires x <= y
    ensures x.Floor <= y.Floor
  {
  }

  // ----- quantiles -----

  function Smallest(s: seq<nat>): nat
    requires |s| > 0
  {
    Sort(s)[0]
  }

  function Largest(s: seq<nat>): nat
    requires |s| > 0
  {
    Sort(s)[|s| - 1]
  }

  /** The quantile of the samples by sorting them. */
  function QuantileOf(s: seq<nat>, p: real): nat {
    if |s| == 0 then 0
    else if p <= 0.0 then Smallest(s)
    else if p >= 1.0 then Largest(s)
    else Clamp(Sort(s)[Target(p, |s|) - 1])
  }

  lemma ClampsGrow(r: seq<nat>, i: nat, j: nat)
    requires Ascending(r) && i <= j < |r|
    ensures Clamp(r[i]) <= Clamp(r[j]) <= r[|r| - 1]
  {
  }

  /** Inside (0, 1) quantiles grow with p and are at most the sample asked for; they never exceed the largest sample. */
  lemma QuantilesGrow(s: seq<nat>, p: real, q: real)
    requires |s| > 0 && 0.0 < p <= q
    ensures QuantileOf(s, p) <= QuantileOf(s, q) <= Largest(s)
    ensures p < 1.0 ==> QuantileOf(s, p) <= Sort(s)[Target(p, |s|) - 1]
  {
    hide Sort, Target, Clamp, Ascending;
    if p < 1.0 {
      var i := Target(p, |s|) - 1;
      ClampsGrow(Sort(s), i, |s| - 1);
      if q < 1.0 {
        TargetGrows(p, q, |s|);
        ClampsGrow(Sort(s), i, Target(q, |s|) - 1);
      }
    }
  }

  /**
   * At p = 0 the order can break: the smallest sample is answered unclamped. It does exactly if all samples
   * are beyond the buckets.
   */
  lemma ZeroQuantileFitsIff(s: seq<nat>, p: real)
    requires |s| > 0 && 0.0 < p < 1.0
    ensures QuantileOf(s, 0.0) <= QuantileOf(s, p) <==> Smallest(s) <= LINEAR_US
  {
    assert Sort(s)[0] <= Sort(s)[Target(p, |s|) - 1];
  }

  /** Samples for which the quantile at 0 is above the median. */
  lemma ZeroAboveMedian()
    ensures QuantileOf([30000], 0.0) > QuantileOf([30000], 0.5)
  {
    assert Sort([30000]) == [30000] by {
      assert multiset(Sort([30000])) == multiset{30000};
      assert Sort([30000])[0] in multiset(Sort([30000]));
    }
    ZeroQuantileFitsIff([30000], 0.5);
  }

  // ----- the histogram -----

  function Sum(s: seq<nat>): nat {
    if |s| == 0 then 0 else Sum(s[..|s| - 1]) + s[|s| - 1]
  }

  lemma OneMore(s: seq<nat>, x: nat, b: nat)
    ensures InBucket(s + [x], b) == InBucket(s, b) + if Clamp(x) == b then 1 else 0
    ensures Sum(s + [x]) == Sum(s) + x
  {
    assert (s + [x])[..|s|] == s;
  }

  lemma ExtremesAfter(s: seq<nat>, x: nat)
    ensures Smallest(s + [x]) == if |s| == 0 || x < Smallest(s) then x else Smallest(s)
    ensures Largest(s + [x]) == if |s| == 0 || x > Largest(s) then x else Largest(s)
  {
    assert (s + [x])[..|s|] == s;
    assert Sort(s + [x]) == Insert(Sort(s), x);
    hide Sort, Insert;
    ExtremesOf(Sort(s), x, Sort(s + [x]));
  }

  lemma ExtremesAre(s: seq<nat>)
    ensures |s| > 0 ==> Smallest(s) in s && forall x :: x in s ==> Smallest(s) <= x
    ensures |s| > 0 ==> Largest(s) in s && forall x :: x in s ==> x <= Largest(s)
  {
    var r := Sort(s);
    hide Sort;
    assert forall x :: x in s <==> x in multiset(r) by {
      assert forall x :: x in s <==> x in multiset(s);
    }
    if |s| > 0 {
      assert r[0] in multiset(r) && r[|r| - 1] in multiset(r);
      forall x | x in s ensures r[0] <= x <= r[|r| - 1] {
        assert x in multiset(r);
        var i :| 0 <= i < |r| && r[i] == x;
        assert 0 < i ==> r[0] <= r[i];
        assert i < |r| - 1 ==> r[i] <= r[|r| - 1];
      }
    }
  }

  /** One element more in an ordered list replaces its first one if smaller, and its last one if larger. */
  lemma ExtremesOf(r: seq<nat>, x: nat, u: seq<nat>)
    requires Ascending(r) && Ascending(u) && |u| == |r| + 1 && multiset(u) == multiset(r) + multiset{x}
    ensures u[0] == if |r| == 0 || x < r[0] then x else r[0]
    ensures u[|u| - 1] == if |r| == 0 || x > r[|r| - 1] then x else r[|r| - 1]
  {
    assert u[0] in multiset(u) && u[|u| - 1] in multiset(u) && x in multiset(u);
    if |r| > 0 {
      assert r[0] in multiset(r) && r[|r| - 1] in multiset(r);
      assert r[0] in multiset(u) && r[|r| - 1] in multiset(u);
      assert u[0] in multiset(r) || u[0] == x;
      assert u[|u| - 1] in multiset(r) || u[|u| - 1] == x;
    }
  }

  class TickHistogram {
    const buckets: array<nat>
    var count: nat
    var sum: nat
    var min: nat
    var max: nat
    /** The samples since the last reset. */
    ghost var samples: seq<nat>

    ghost predicate Valid()
      reads this, buckets
    {
      && buckets.Length == BUCKETS
      && (forall b :: 0 <= b < BUCKETS ==> buckets[b] == InBucket(samples, b))
      && count == |samples| && sum == Sum(samples)
      && (count > 0 ==> min == Smallest(samples) && max == Largest(samples))
    }

    constructor ()
      ensures Valid() && fresh(buckets) && |samples| == 0
    {
      buckets := new nat[BUCKETS](_ => 0);
      count := 0;
      sum := 0;
      min := 0;
      max := 0;
      samples := [];
    }

    method Reset()
      requires Valid()
      modifies this, buckets
      ensures Valid() && |samples| == 0
    {
      for i := 0 to buckets.Length
        invariant forall b :: 0 <= b < i ==> buckets[b] == 0
      {
        buckets[i] := 0;
      }
      count := 0;
      sum := 0;
      min := 0;
      max := 0;
      samples := [];
    }

    method Record(us: nat)
      requires Valid()
      modifies this, buckets
      ensures Valid() && samples == old(samples) + [us]
    {
      hide Sort, InBucket, Sum;
      forall b: nat ensures InBucket(samples + [us], b) == InBucket(samples, b) + if Clamp(us) == b then 1 else 0 {
        OneMore(samples, us, b);
      }
      OneMore(samples, us, 0);
      ExtremesAfter(samples, us);
      count := count + 1;
      sum := sum + us;
      if count == 1 {
        min := us;
        max := us;
      } else {
        if us < min {
          min := us;
        }
        if us > max {
          max := us;
        }
      }
      var idx := if us >= LINEAR_US then LINEAR_US else us;
      buckets[idx] := buckets[idx] + 1;
      samples := samples + [us];
    }

    /** The answer behind the loop is never given: the cumulative count reaches the target in some bucket. */
    method Quantile(p: real) returns (q: nat)
      requires Valid()
      ensures q == QuantileOf(samples, p)
      ensures |samples| == 0 ==> q == 0
      ensures |samples| > 0 && p <= 0.0 ==> q in samples && forall x :: x in samples ==> q <= x
      ensures |samples| > 0 && p >= 1.0 ==> q in samples && forall x :: x in samples ==> x <= q
      ensures |samples| > 0 && 0.0 < p < 1.0 ==>
                var x := Sort(samples)[Target(p, |samples|) - 1]; q == if x < LINEAR_US then x else LINEAR_US
    {
      ExtremesAre(samples);
      hide Sort, InBucket, BelowBucket;
      if count == 0 {
        return 0;
      }
      if p <= 0.0 {
        return min;
      }
      if p >= 1.0 {
        return max;
      }
      assert 0.0 < p * count as real;
      var target := (p * count as real + 0.999999).Floor;
      if target == 0 {
        target := 1;
      }
      assert target == Target(p, count);
      hide Target;
      NothingBelow(samples);
      q := max;
      var cum := 0;
      var i: nat := 0;
      while i < BUCKETS
        invariant 0 <= i <= BUCKETS && cum == BelowBucket(samples, i) && cum < target
      {
        NextBucket(samples, i);
        cum := cum + buckets[i];
        if cum >= target {
          BucketOfRank(samples, i, target);
          break;
        }
        i := i + 1;
      }
      if i < BUCKETS {
        q := i;
      }
    }
  }
}
