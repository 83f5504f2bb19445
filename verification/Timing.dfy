/** Fixed-memory duration quantiles: a histogram by bit length against the true
    order statistics of everything that was observed. */
module Timing {
  import opened Arith
  import opened Channelizer

  const MAX64: nat := CLOCK - 1

  function Min(a: nat, b: nat): nat { if a < b then a else b }

  /** 64 minus the number of leading zeros. */
  function BitLength(n: nat): nat {
    if n == 0 then 0 else 1 + BitLength(n / 2)
  }

  /** Largest value of a bucket. */
  function Top(bucket: nat): nat { Pow2(bucket) - 1 }

  lemma {:induction false} BucketRange(n: nat)
    ensures n <= Top(BitLength(n))
    ensures n > 0 ==> BitLength(n) > 0 && Pow2(BitLength(n) - 1) <= n
  {
    if n > 0 { BucketRange(n / 2); }
  }

  /** A value is at most the top of a bucket exactly when its own bucket is. */
  lemma {:induction false} BucketOrder(n: nat, bucket: nat)
    ensures n <= Top(bucket) <==> BitLength(n) <= bucket
    decreases bucket
  {
    if n > 0 && bucket > 0 { BucketOrder(n / 2, bucket - 1); }
  }

  lemma BucketInTable(n: nat)
    requires n <= MAX64
    ensures BitLength(n) <= 64
  {
    Pow2Values();
    BucketOrder(n, 64);
  }

  // ------------------------------------------------------- order statistics

  function CountAtMost(s: seq<nat>, x: int): nat {
    if s == [] then 0 else CountAtMost(s[..|s| - 1], x) + if s[|s| - 1] <= x then 1 else 0
  }

  function CountBucket(s: seq<nat>, b: nat): nat {
    if s == [] then 0 else CountBucket(s[..|s| - 1], b) + if BitLength(s[|s| - 1]) == b then 1 else 0
  }

  lemma AppendBuckets(s: seq<nat>, v: nat)
    ensures forall b :: CountBucket(s + [v], b) == CountBucket(s, b) + if b == BitLength(v) then 1 else 0
  {
    assert (s + [v])[..|s|] == s;
  }

  /** x is the r-th smallest element: the nearest-rank order statistic. */
  predicate IsRank(s: seq<nat>, r: nat, x: nat) {
    CountAtMost(s, x - 1) < r <= CountAtMost(s, x)
  }

  lemma AppendCounts(s: seq<nat>, v: nat, x: int)
    ensures CountAtMost(s + [v], x) == CountAtMost(s, x) + if v <= x then 1 else 0
  {
    assert (s + [v])[..|s|] == s;
  }

  lemma {:induction false} CountBounds(s: seq<nat>, b: nat)
    ensures CountBucket(s, b) <= |s|
    ensures forall x :: CountAtMost(s, x) <= |s|
  {
    if s != [] { CountBounds(s[..|s| - 1], b); }
  }

  lemma {:induction false} CountMonotone(s: seq<nat>, x: int, y: int)
    requires x <= y
    ensures CountAtMost(s, x) <= CountAtMost(s, y)
  {
    if s != [] { CountMonotone(s[..|s| - 1], x, y); }
  }

  /** One bucket adds exactly the values between two tops. */
  lemma {:induction false} BucketAdds(s: seq<nat>, b: nat)
    ensures CountAtMost(s, Top(b)) == CountBucket(s, b) + if b == 0 then 0 else CountAtMost(s, Top(b - 1))
  {
    if s != [] {
      var v := s[|s| - 1];
      BucketAdds(s[..|s| - 1], b);
      BucketOrder(v, b);
      if b > 0 { BucketOrder(v, b - 1); }
    }
  }

  /** In a sorted listing the r-th element is the r-th smallest. */
  lemma {:induction false} SortedRank(s: seq<nat>, r: nat)
    requires forall i, j :: 0 <= i <= j < |s| ==> s[i] <= s[j]
    requires 1 <= r <= |s|
    ensures IsRank(s, r, s[r - 1])
  {
    var x: int := s[r - 1];
    CountPrefix(s, x);
    CountPrefix(s, x - 1);
  }

  /** In a sorted listing the elements at most x are a prefix. */
  lemma {:induction false} CountPrefix(s: seq<nat>, x: int)
    requires forall i, j :: 0 <= i <= j < |s| ==> s[i] <= s[j]
    ensures CountAtMost(s, x) <= |s|
    ensures forall i :: 0 <= i < |s| ==> (s[i] <= x <==> i < CountAtMost(s, x))
  {
    if s != [] { CountPrefix(s[..|s| - 1], x); }
  }

  /** Reordering does not change what a rank is. */
  lemma {:induction false} CountPermuted(s: seq<nat>, t: seq<nat>, x: int)
    requires multiset(s) == multiset(t)
    ensures CountAtMost(s, x) == CountAtMost(t, x)
    decreases |s|
  {
    if s == [] {
      assert |multiset(t)| == 0;
    } else {
      var v := s[|s| - 1];
      assert s == s[..|s| - 1] + [v];
      assert v in multiset(t);
      var i :| 0 <= i < |t| && t[i] == v;
      assert t == t[..i] + [v] + t[i + 1..];
      assert multiset(s) == multiset(s[..|s| - 1]) + multiset{v};
      assert multiset(t) == multiset(t[..i] + t[i + 1..]) + multiset{v};
      WithoutOne(s[..|s| - 1], t[..i] + t[i + 1..], v);
      CountPermuted(s[..|s| - 1], t[..i] + t[i + 1..], x);
      CountJoin(t[..i] + [v], t[i + 1..], x);
      CountJoin(t[..i], [v], x);
      CountJoin(t[..i], t[i + 1..], x);
      AppendCounts([], v, x);
      assert [] + [v] == [v];
    }
  }

  lemma WithoutOne(s: seq<nat>, t: seq<nat>, v: nat)
    requires multiset(s) + multiset{v} == multiset(t) + multiset{v}
    ensures multiset(s) == multiset(t)
  {
    assert multiset(s) == multiset(s) + multiset{v} - multiset{v};
    assert multiset(t) == multiset(t) + multiset{v} - multiset{v};
  }

  lemma {:induction false} CountJoin(s: seq<nat>, t: seq<nat>, x: int)
    ensures CountAtMost(s + t, x) == CountAtMost(s, x) + CountAtMost(t, x)
  {
    if t == [] {
      assert s + t == s;
    } else {
      CountJoin(s, t[..|t| - 1], x);
      assert (s + t)[..|s + t| - 1] == s + t[..|t| - 1];
    }
  }

  /** Every rank in range names exactly one value, and it was observed. */
  lemma RankExists(s: seq<nat>, r: nat) returns (x: nat)
    requires 1 <= r <= |s|
    ensures IsRank(s, r, x) && forall y: nat :: IsRank(s, r, y) ==> y == x
  {
    AllCounted(s);
    var top: int := LeastReaching(s, r, Largest(s));
    NoneBelowZero(s);
    x := top;
    forall y: nat | IsRank(s, r, y)
      ensures y == x
    {
      if y < x { CountMonotone(s, y, x - 1); }
      if x < y { CountMonotone(s, x, y - 1); }
    }
  }

  function Largest(s: seq<nat>): (m: nat)
    ensures forall i :: 0 <= i < |s| ==> s[i] <= m
  {
    if s == [] then 0
    else
      var m := Largest(s[..|s| - 1]);
      if s[|s| - 1] > m then s[|s| - 1] else m
  }

  lemma {:induction false} CountAll(s: seq<nat>, x: int)
    requires forall i :: 0 <= i < |s| ==> s[i] <= x
    ensures CountAtMost(s, x) == |s|
  {
    if s != [] { CountAll(s[..|s| - 1], x); }
  }

  lemma AllCounted(s: seq<nat>)
    ensures CountAtMost(s, Largest(s)) == |s|
  {
    CountAll(s, Largest(s));
  }

  lemma {:induction false} NoneBelowZero(s: seq<nat>)
    ensures CountAtMost(s, -1) == 0
  {
    if s != [] { NoneBelowZero(s[..|s| - 1]); }
  }

  lemma {:induction false} LeastReaching(s: seq<nat>, r: nat, limit: nat) returns (x: nat)
    requires 1 <= r <= CountAtMost(s, limit)
    ensures IsRank(s, r, x)
  {
    NoneBelowZero(s);
    if limit > 0 && CountAtMost(s, limit - 1) >= r {
      x := LeastReaching(s, r, limit - 1);
    } else {
      x := limit;
    }
  }

  // ------------------------------------------------------------- the counter

  function Total(s: seq<nat>): nat {
    if s == [] then 0 else Total(s[..|s| - 1]) + s[|s| - 1]
  }

  lemma AppendTotals(s: seq<nat>, v: nat)
    ensures Total(s + [v]) == Total(s) + v
    ensures Largest(s + [v]) == if v > Largest(s) then v else Largest(s)
  {
    assert (s + [v])[..|s|] == s;
  }

  datatype Snapshot = Snapshot(count: nat, totalNs: nat, maxNs: nat, p50Ns: nat, p99Ns: nat)

  /** What a reported quantile promises about the true order statistic. */
  ghost predicate Reports(seen: seq<nat>, percent: nat, q: nat) {
    if seen == [] then q == 0
    else
      forall x: nat :: IsRank(seen, CeilDiv(|seen| * percent, 100), x) ==>
        x <= q && (if x == 0 then q == 0 else q <= 2 * x - 1) && q == Top(BitLength(x))
  }

  class Timing {
    const bins: array<nat>
    var count: nat
    var totalNs: nat
    var maxNs: nat
    /** Every observation so far, clamped to 64 bits. */
    ghost var seen: seq<nat>

    ghost predicate Valid()
      reads this, bins
    {
      && bins.Length == 65
      && (forall i :: 0 <= i < |seen| ==> seen[i] <= MAX64)
      && (forall b :: 0 <= b < 65 ==> bins[b] == Min(CountBucket(seen, b), MAX64))
      && count == Min(|seen|, MAX64)
      && totalNs == Min(Total(seen), MAX64)
      && maxNs == Largest(seen)
    }

    constructor ()
      ensures Valid() && seen == [] && fresh(bins)
    {
      bins := new nat[65](_ => 0);
      count, totalNs, maxNs := 0, 0, 0;
      seen := [];
    }

    /** Records one duration; every counter saturates. */
    method Observe(elapsed: nat)
      requires Valid()
      modifies this, bins
      ensures Valid() && seen == old(seen) + [Min(elapsed, MAX64)]
    {
      hide BitLength, CountBucket, Total, Largest, Pow2, Top;
      var ns := Min(elapsed, MAX64);
      var bucket := BitLength(ns);
      BucketInTable(ns);
      AppendTotals(seen, ns);
      AppendBuckets(seen, ns);
      bins[bucket] := Min(bins[bucket] + 1, MAX64);
      count := Min(count + 1, MAX64);
      totalNs := Min(totalNs + ns, MAX64);
      maxNs := if ns > maxNs then ns else maxNs;
      seen := seen + [ns];
    }

    /** The scan. With fewer than 2^64 observations nothing has saturated, and
        the answer is the top of the bucket that holds the order statistic. */
    method Quantile(percent: nat) returns (q: nat)
      requires Valid() && 1 <= percent <= 100
      ensures |seen| < CLOCK ==> Reports(seen, percent, q)
      ensures q <= MAX64
    {
      if count == 0 { return 0; }
      var rank := Rank(count, percent);
      var running: nat := 0;
      hide CountAtMost, CountBucket, Largest, Total, Top, BitLength, IsRank, CeilDiv, Pow2, Reports;
      for bucket := 0 to 65
        invariant |seen| < CLOCK ==>
                    running == if bucket == 0 then 0 else CountAtMost(seen, Top(bucket - 1))
        invariant |seen| < CLOCK ==> running < rank
        invariant running <= MAX64
      {
        CountBounds(seen, bucket);
        BucketAdds(seen, bucket);
        running := Min(running + bins[bucket], MAX64);
        if running >= rank {
          q := if bucket == 64 then MAX64 else Pow2(bucket) - 1;
          TopValue(bucket);
          if |seen| < CLOCK { BucketHoldsRank(seen, percent, bucket); }
          return;
        }
      }
      if |seen| < CLOCK { LastBucketHasAll(seen); }
      q := MAX64;
    }

    method Report() returns (s: Snapshot)
      requires Valid()
      ensures s.count == Min(|seen|, MAX64) && s.totalNs == Min(Total(seen), MAX64) && s.maxNs == Largest(seen)
      ensures |seen| < CLOCK ==> Reports(seen, 50, s.p50Ns) && Reports(seen, 99, s.p99Ns)
    {
      var p50 := Quantile(50);
      var p99 := Quantile(99);
      s := Snapshot(count, totalNs, maxNs, p50, p99);
    }
  }

  /** The overflow-safe rank is the ceiling of count * percent / 100. */
  method Rank(count: nat, percent: nat) returns (rank: nat)
    requires 0 < count <= MAX64 && 1 <= percent <= 100
    ensures rank == CeilDiv(count * percent, 100) && 1 <= rank <= count
  {
    var a, b := count / 100, count % 100;
    MulMono(0, a, percent);
    MulMono(0, b, percent);
    MulMono(a, a, percent);
    assert count * percent == b * percent + (a * percent) * 100 by {
      assert count == a * 100 + b;
      assert (a * 100 + b) * percent == (a * 100) * percent + b * percent;
    }
    CeilDivShift(b * percent, a * percent, 100);
    CeilDivLe(b * percent, 100, -1);
    MulMono(1, count, percent);
    MulMono(percent, 100, count);
    CeilDivLe(count * percent, 100, count);
    CeilDivLe(count * percent, 100, 0);
    rank := a * percent + CeilDiv(b * percent, 100);
  }

  lemma TopValue(bucket: nat)
    requires bucket <= 64
    ensures Top(bucket) == (if bucket == 64 then MAX64 else Pow2(bucket) - 1) <= MAX64
  {
    Pow2Values();
    Pow2Mono(bucket, 64);
    hide Pow2;
  }

  /** The first bucket whose running count reaches the rank holds the statistic. */
  lemma BucketHoldsRank(s: seq<nat>, percent: nat, bucket: nat)
    requires s != []
    requires var rank := CeilDiv(|s| * percent, 100);
             && rank <= CountAtMost(s, Top(bucket)) && 1 <= rank
             && (bucket > 0 ==> CountAtMost(s, Top(bucket - 1)) < rank)
    ensures Reports(s, percent, Top(bucket))
  {
    var rank := CeilDiv(|s| * percent, 100);
    hide CeilDiv;
    forall x: nat | IsRank(s, rank, x)
      ensures x <= Top(bucket) && (if x == 0 then Top(bucket) == 0 else Top(bucket) <= 2 * x - 1)
              && Top(bucket) == Top(BitLength(x))
    {
      if x > Top(bucket) { CountMonotone(s, Top(bucket), x - 1); }
      if bucket > 0 && x <= Top(bucket - 1) { CountMonotone(s, x, Top(bucket - 1)); }
      BucketOrder(x, bucket);
      if bucket > 0 { BucketOrder(x, bucket - 1); }
      BucketRange(x);
    }
  }

  lemma LastBucketHasAll(s: seq<nat>)
    requires forall i :: 0 <= i < |s| ==> s[i] <= MAX64
    ensures CountAtMost(s, Top(64)) == |s|
  {
    Pow2Values();
    CountAll(s, Top(64));
  }
}
