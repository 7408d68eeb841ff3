/** Request latency (src/diagnostics.rs): a log2 histogram stands in for the list of
    samples. Times are whole microseconds; counters wrap as the source's atomics do. */
module Latency {
  import opened Wrappers

  const BUCKETS := 26
  const U32 := 0x1_0000_0000
  const U64 := 0x1_0000_0000_0000_0000

  /** `fetch_add` on an `AtomicU32` or `AtomicU64` wraps. */
  function Wrap32(n: nat): nat { n % U32 }

  function Wrap64(n: nat): nat { n % U64 }

  lemma Rem32(q: nat, r: nat)
    requires r < U32
    ensures (q * U32 + r) % U32 == r
  {
  }

  lemma Rem64(q: nat, r: nat)
    requires r < U64
    ensures (q * U64 + r) % U64 == r
  {
  }

  lemma WrapAdd(n: nat, more: nat)
    ensures Wrap32(Wrap32(n) + more) == Wrap32(n + more)
    ensures Wrap64(Wrap64(n) + more) == Wrap64(n + more)
  {
    var x, y := n % U32 + more, n % U64 + more;
    Rem32(n / U32 + x / U32, x % U32);
    Rem64(n / U64 + y / U64, y % U64);
  }

  function Min(a: nat, b: nat): nat { if a < b then a else b }

  function Max(a: nat, b: nat): nat { if a < b then b else a }

  function BitLength(n: nat): nat { if n == 0 then 0 else 1 + BitLength(n / 2) }

  function Bucket(micros: nat): nat { Min(BitLength(micros), BUCKETS - 1) }

  function Pow2(k: nat): nat { if k == 0 then 1 else 2 * Pow2(k - 1) }

  // ----- samples and what is counted of them ----------------------------------------------

  datatype Test = InBucket(k: nat) | BelowBucket(k: nat) | AtMost(x: nat) | Below(x: nat)

  predicate Holds(t: Test, s: nat) {
    match t
    case InBucket(k) => Bucket(s) == k
    case BelowBucket(k) => Bucket(s) < k
    case AtMost(x) => s <= x
    case Below(x) => s < x
  }

  function Count(samples: seq<nat>, t: Test): (n: nat)
    ensures n <= |samples|
  {
    if samples == [] then 0
    else Count(samples[..|samples| - 1], t) + if Holds(t, samples[|samples| - 1]) then 1 else 0
  }

  function Total(samples: seq<nat>): nat {
    if samples == [] then 0 else Total(samples[..|samples| - 1]) + samples[|samples| - 1]
  }

  function Largest(samples: seq<nat>): nat {
    if samples == [] then 0 else Max(Largest(samples[..|samples| - 1]), samples[|samples| - 1])
  }

  lemma CountOne(samples: seq<nat>, s: nat, t: Test)
    ensures Count(samples + [s], t) == Count(samples, t) + if Holds(t, s) then 1 else 0
  {
    assert (samples + [s])[..|samples|] == samples;
  }

  lemma {:induction false} CountImplies(samples: seq<nat>, t: Test, u: Test)
    requires forall s :: s in samples && Holds(t, s) ==> Holds(u, s)
    ensures Count(samples, t) <= Count(samples, u)
  {
    if samples != [] {
      CountImplies(samples[..|samples| - 1], t, u);
    }
  }

  lemma {:induction false} CountAll(samples: seq<nat>, t: Test)
    requires forall s :: s in samples ==> Holds(t, s)
    ensures Count(samples, t) == |samples|
  {
    if samples != [] {
      CountAll(samples[..|samples| - 1], t);
    }
  }

  lemma {:induction false} LargestBounds(samples: seq<nat>)
    ensures forall s :: s in samples ==> s <= Largest(samples)
    ensures samples != [] ==> Largest(samples) in samples
  {
    if samples != [] {
      var front, last := samples[..|samples| - 1], samples[|samples| - 1];
      LargestBounds(front);
      assert last in samples && Largest(samples) == Max(Largest(front), last);
      hide Largest;
      assert front != [] ==> Largest(front) in samples;
      assert front == [] ==> Largest(front) == 0 by { NoneIsLargest(); }
      forall s | s in samples ensures s <= Max(Largest(front), last) {
        var i :| 0 <= i < |samples| && samples[i] == s;
        if i < |front| { assert front[i] in front; }
      }
    }
  }

  lemma NoneIsLargest()
    ensures Largest([]) == 0
  {
  }

  // ----- recording ---------------------------------------------------------------------------

  class Stats {
    var count: nat
    var errors: nat
    var totalUs: nat
    var maxUs: nat
    const buckets: array<nat>
    ghost var samples: seq<nat>
    ghost var failed: nat

    ghost predicate Valid()
      reads this, buckets
    {
      && buckets.Length == BUCKETS
      && count == Wrap64(|samples|) && errors == Wrap64(failed)
      && totalUs == Wrap64(Total(samples)) && maxUs == Largest(samples)
      && forall k :: 0 <= k < BUCKETS ==> buckets[k] == Wrap32(Count(samples, InBucket(k)))
    }

    constructor ()
      ensures Valid() && samples == [] && failed == 0 && fresh(buckets)
    {
      count, errors, totalUs, maxUs, samples, failed := 0, 0, 0, 0, [], 0;
      buckets := new nat[BUCKETS](i => 0);
    }

    method Record(elapsedUs: nat, ok: bool)
      requires Valid()
      modifies this, buckets
      ensures Valid() && samples == old(samples) + [Min(elapsedUs, U64 - 1)]
      ensures failed == old(failed) + if ok then 0 else 1
    {
      hide Count, Total, Largest, Bucket, Wrap32, Wrap64;
      var micros := Min(elapsedUs, U64 - 1);
      var k := Bucket(micros);
      RecordOne(samples, micros);
      WrapAdd(|samples|, 1);
      WrapAdd(failed, 1);
      WrapAdd(Total(samples), micros);
      WrapAdd(Count(samples, InBucket(k)), 1);
      count := Wrap64(count + 1);
      if !ok { errors := Wrap64(errors + 1); failed := failed + 1; }
      totalUs := Wrap64(totalUs + micros);
      maxUs := Max(maxUs, micros);
      buckets[k] := Wrap32(buckets[k] + 1);
      samples := samples + [micros];
    }

    /** One column of the summary, in microseconds: the percentile, clamped to the
        largest sample. Nothing is shown before the first request. */
    method Summary(p: nat) returns (r: Option<nat>)
      requires Valid()
      ensures r.None? <==> count == 0
      ensures samples != [] && Unwrapped(samples) && p <= 100 ==>
                r.Some? && exists x :: Rank(samples, Target(|samples|, p), x)
                                       && r.value == Min(Pow2(Bucket(x)), Largest(samples))
    {
      hide Rank, Count, Bucket, Pow2, Largest, Total, Wrap32, Wrap64, Target, SumTo;
      if count == 0 {
        CountIsExact(samples);
        return None;
      }
      var counts := buckets[..];
      var us := Percentile(counts, count, p);
      if samples != [] && Unwrapped(samples) && p <= 100 {
        CountIsExact(samples);
        PercentileIsRankBucket(samples, counts, p, us);
      }
      return Some(Min(us, maxUs));
    }
  }

  lemma RecordOne(samples: seq<nat>, s: nat)
    ensures var more := samples + [s];
      && Total(more) == Total(samples) + s && Largest(more) == Max(Largest(samples), s)
      && Bucket(s) < BUCKETS
      && forall k :: Count(more, InBucket(k)) == Count(samples, InBucket(k)) + if k == Bucket(s) then 1 else 0
  {
    assert (samples + [s])[..|samples|] == samples;
    forall k
      ensures Count(samples + [s], InBucket(k)) == Count(samples, InBucket(k)) + if k == Bucket(s) then 1 else 0
    {
      CountOne(samples, s, InBucket(k));
    }
  }

  // ----- reporting ------------------------------------------------------------------------------

  function SumTo(counts: seq<nat>, k: nat): nat
    requires k <= |counts|
  {
    if k == 0 then 0 else SumTo(counts, k - 1) + counts[k - 1]
  }

  /** Which sample in order the `p`th percentile is; the product saturates. */
  function Target(total: nat, p: nat): nat { Max((Min(total * p, U64 - 1) + 99) / 100, 1) }

  /** The upper bound of the bucket in which the running count reaches the target; 0
      when it never does. */
  method Percentile(counts: seq<nat>, total: nat, p: nat) returns (us: nat)
    ensures us == 0 ==> SumTo(counts, |counts|) < Target(total, p)
    ensures us != 0 ==> exists k: nat :: k < |counts| && us == Pow2(k)
                          && SumTo(counts, k) < Target(total, p) <= SumTo(counts, k + 1)
  {
    hide Target;
    var target, seen := Target(total, p), 0;
    assert target > 0 by { TargetBounds(total, p); }
    for k := 0 to |counts|
      invariant seen == SumTo(counts, k) < target
    {
      seen := seen + counts[k];
      if seen >= target {
        assert SumTo(counts, k + 1) == seen && Pow2(k) > 0 by { PowIsPositive(k); }
        return Pow2(k);
      }
    }
    return 0;
  }

  lemma PowIsPositive(k: nat)
    ensures Pow2(k) > 0
  {
  }

  lemma TargetBounds(total: nat, p: nat)
    ensures Target(total, p) >= 1
    ensures p <= 100 && total > 0 ==> Target(total, p) <= total
  {
    if p <= 100 { assert total * p <= total * 100; }
  }

  /** Nearest rank: the least number of samples, one at least, that makes `p` percent of them;
      a product past 64 bits counts as the largest number of that width. */
  lemma TargetIsNearestRank(total: nat, p: nat)
    ensures var t, part := Target(total, p), if total * p < U64 then total * p else U64 - 1;
            t >= 1 && 100 * t >= part && (t > 1 ==> 100 * (t - 1) < part)
  {
  }

  lemma TargetIsMonotone(total: nat, p: nat, q: nat)
    requires p <= q
    ensures Target(total, p) <= Target(total, q)
  {
    assert total * p <= total * q;
  }

  /** Nearest rank: `x` is a sample, `target` samples do not exceed it, and fewer are
      below it. */
  ghost predicate Rank(samples: seq<nat>, target: nat, x: nat) {
    x in samples && Count(samples, Below(x)) < target <= Count(samples, AtMost(x))
  }

  /** No counter has wrapped. */
  ghost predicate Unwrapped(samples: seq<nat>) {
    |samples| < U64 && forall k :: 0 <= k < BUCKETS ==> Count(samples, InBucket(k)) < U32
  }

  lemma CountIsExact(samples: seq<nat>)
    ensures |samples| < U64 ==> Wrap64(|samples|) == |samples|
    ensures forall k :: 0 <= k < BUCKETS && Count(samples, InBucket(k)) < U32 ==>
              Wrap32(Count(samples, InBucket(k))) == Count(samples, InBucket(k))
  {
  }

  lemma {:induction false} RankExists(samples: seq<nat>, target: nat, v: nat) returns (x: nat)
    requires 1 <= target <= Count(samples, AtMost(v))
    ensures Rank(samples, target, x) && x <= v
    decreases v
  {
    if v > 0 && target <= Count(samples, AtMost(v - 1)) {
      x := RankExists(samples, target, v - 1);
    } else {
      x := v;
      if v > 0 {
        CountImplies(samples, Below(v), AtMost(v - 1));
      } else {
        CountNone(samples, Below(0));
      }
      if v !in samples { CountImplies(samples, AtMost(v), Below(v)); }
    }
  }

  lemma {:induction false} CountNone(samples: seq<nat>, t: Test)
    requires forall s :: s in samples ==> !Holds(t, s)
    ensures Count(samples, t) == 0
  {
    if samples != [] {
      CountNone(samples[..|samples| - 1], t);
    }
  }

  lemma RankIsMonotone(samples: seq<nat>, target: nat, x: nat, target': nat, y: nat)
    requires Rank(samples, target, x) && Rank(samples, target', y) && target <= target'
    ensures x <= y
  {
    if y < x { CountImplies(samples, AtMost(y), Below(x)); }
  }

  lemma {:induction false} CountSplit(samples: seq<nat>, k: nat)
    ensures Count(samples, BelowBucket(k + 1)) == Count(samples, BelowBucket(k)) + Count(samples, InBucket(k))
  {
    if samples != [] {
      CountSplit(samples[..|samples| - 1], k);
    }
  }

  lemma {:induction false} SumsAreCounts(samples: seq<nat>, counts: seq<nat>, k: nat)
    requires k <= |counts| && forall j :: 0 <= j < k ==> counts[j] == Count(samples, InBucket(j))
    ensures SumTo(counts, k) == Count(samples, BelowBucket(k))
  {
    if k == 0 {
      CountNone(samples, BelowBucket(0));
    } else {
      SumsAreCounts(samples, counts, k - 1);
      CountSplit(samples, k - 1);
    }
  }

  lemma {:induction false} BitLengthIsMonotone(x: nat, y: nat)
    requires x <= y
    ensures BitLength(x) <= BitLength(y)
  {
    if x > 0 { BitLengthIsMonotone(x / 2, y / 2); }
  }

  lemma {:induction false} BitLengthBounds(x: nat)
    ensures x < Pow2(BitLength(x)) && (x > 0 ==> Pow2(BitLength(x)) <= 2 * x)
  {
    if x > 0 { BitLengthBounds(x / 2); }
  }

  lemma {:induction false} PowIsMonotone(j: nat, k: nat)
    requires j <= k
    ensures Pow2(j) <= Pow2(k)
  {
    if j < k { PowIsMonotone(j, k - 1); }
  }

  /** The bound of a sample's bucket exceeds it, by at most its double, exactly below
      the start of the last bucket's upper half, 2^25 microseconds. */
  lemma BucketBounds(x: nat)
    ensures x < Pow2(Bucket(x)) <==> x < Pow2(25)
    ensures 0 < x < Pow2(25) ==> Pow2(Bucket(x)) <= 2 * x
    ensures x >= Pow2(25) ==> Pow2(Bucket(x)) == Pow2(25)
  {
    BitLengthBounds(x);
    if BitLength(x) <= 25 {
      PowIsMonotone(BitLength(x), 25);
    } else {
      PowIsMonotone(26, BitLength(x));
    }
  }

  lemma RankBucket(samples: seq<nat>, target: nat, x: nat, k: nat)
    requires Rank(samples, target, x)
    requires Count(samples, BelowBucket(k)) < target <= Count(samples, BelowBucket(k + 1))
    ensures k == Bucket(x)
  {
    forall s: nat | s <= x ensures Bucket(s) <= Bucket(x) {
      BitLengthIsMonotone(s, x);
    }
    forall s: nat | x <= s ensures Bucket(x) <= Bucket(s) {
      BitLengthIsMonotone(x, s);
    }
    if k < Bucket(x) {
      CountImplies(samples, BelowBucket(k + 1), Below(x));
    } else if k > Bucket(x) {
      CountImplies(samples, AtMost(x), BelowBucket(k));
    }
  }

  lemma EverySampleHasABucket(samples: seq<nat>)
    ensures Count(samples, BelowBucket(BUCKETS)) == |samples|
  {
    CountAll(samples, BelowBucket(BUCKETS));
  }

  /** With no counter wrapped, the loop stops at the bucket of the nearest-rank sample
      and never falls through to 0. */
  lemma PercentileIsRankBucket(samples: seq<nat>, counts: seq<nat>, p: nat, us: nat)
    requires samples != [] && p <= 100 && |counts| == BUCKETS
    requires forall j :: 0 <= j < BUCKETS ==> counts[j] == Count(samples, InBucket(j))
    requires us == 0 ==> SumTo(counts, BUCKETS) < Target(|samples|, p)
    requires us != 0 ==> exists k: nat :: k < BUCKETS && us == Pow2(k)
                           && SumTo(counts, k) < Target(|samples|, p) <= SumTo(counts, k + 1)
    ensures exists x :: Rank(samples, Target(|samples|, p), x) && us == Pow2(Bucket(x))
  {
    hide Target, Rank, Bucket, Pow2, SumTo, Count;
    var target := Target(|samples|, p);
    TargetBounds(|samples|, p);
    SumsAreCounts(samples, counts, BUCKETS);
    EverySampleHasABucket(samples);
    var k: nat :| k < BUCKETS && us == Pow2(k) && SumTo(counts, k) < target <= SumTo(counts, k + 1);
    SumsAreCounts(samples, counts, k);
    SumsAreCounts(samples, counts, k + 1);
    AllAtMostLargest(samples);
    var x := RankExists(samples, target, Largest(samples));
    RankBucket(samples, target, x, k);
  }

  lemma AllAtMostLargest(samples: seq<nat>)
    ensures Count(samples, AtMost(Largest(samples))) == |samples|
  {
    LargestBounds(samples);
    CountAll(samples, AtMost(Largest(samples)));
  }

  /** The figure shown against the true percentile `x`: never above the maximum; at
      least `x` exactly when `x` is at most 2^25; below that within a factor of two. */
  lemma FigureBounds(samples: seq<nat>, target: nat, x: nat)
    requires Rank(samples, target, x)
    ensures var shown := Min(Pow2(Bucket(x)), Largest(samples));
      && shown <= Largest(samples)
      && (x <= shown <==> x <= Pow2(25))
      && (1 <= x < Pow2(25) ==> x <= shown <= 2 * x)
  {
    hide Rank, Bucket, Pow2, Largest;
    assert x in samples by { RankIsSample(samples, target, x); }
    LargestBounds(samples);
    BucketBounds(x);
  }

  /** One request of just over 2^25 microseconds: every percentile is that sample, and the
      figure shown is below it. */
  lemma SlowRequestIsUnderstated(p: nat)
    requires p <= 100
    ensures var slow := Pow2(25) + 1;
            && Rank([slow], Target(1, p), slow)
            && Min(Pow2(Bucket(slow)), Largest([slow])) == Pow2(25) < slow
  {
    hide Pow2, Bucket;
    var slow := Pow2(25) + 1;
    TargetBounds(1, p);
    hide Target;
    BucketBounds(slow);
    CountOne([], slow, AtMost(slow));
    CountOne([], slow, Below(slow));
    assert [] + [slow] == [slow] && [slow][..0] == [];
    assert Largest([]) == 0 by { NoneIsLargest(); }
  }

  lemma RankIsSample(samples: seq<nat>, target: nat, x: nat)
    requires Rank(samples, target, x)
    ensures x in samples
  {
  }

  /** Larger percentiles never show a smaller figure. */
  lemma FigureIsMonotone(samples: seq<nat>, p: nat, x: nat, q: nat, y: nat)
    requires p <= q && Rank(samples, Target(|samples|, p), x) && Rank(samples, Target(|samples|, q), y)
    ensures Min(Pow2(Bucket(x)), Largest(samples)) <= Min(Pow2(Bucket(y)), Largest(samples))
  {
    hide Target, Rank, Pow2, Largest, BitLength;
    TargetIsMonotone(|samples|, p, q);
    RankIsMonotone(samples, Target(|samples|, p), x, Target(|samples|, q), y);
    BitLengthIsMonotone(x, y);
    PowIsMonotone(Bucket(x), Bucket(y));
  }

  lemma {:induction false} SumsAreBelow(samples: seq<nat>, counts: seq<nat>, k: nat)
    requires k <= |counts| && forall j :: 0 <= j < k ==> counts[j] == Wrap32(Count(samples, InBucket(j)))
    ensures SumTo(counts, k) <= Count(samples, BelowBucket(k))
    ensures SumTo(counts, k) == Count(samples, BelowBucket(k)) <==>
              forall j :: 0 <= j < k ==> Count(samples, InBucket(j)) < U32
  {
    if k == 0 {
      CountNone(samples, BelowBucket(0));
    } else {
      SumsAreBelow(samples, counts, k - 1);
      CountSplit(samples, k - 1);
    }
  }

  /** The buckets sum to the number of requests exactly as long as none has wrapped. */
  lemma BucketsSumToCount(samples: seq<nat>, counts: seq<nat>)
    requires |counts| == BUCKETS
    requires forall j :: 0 <= j < BUCKETS ==> counts[j] == Wrap32(Count(samples, InBucket(j)))
    ensures SumTo(counts, BUCKETS) == |samples| <==> forall j :: 0 <= j < BUCKETS ==> Count(samples, InBucket(j)) < U32
  {
    SumsAreBelow(samples, counts, BUCKETS);
    EverySampleHasABucket(samples);
  }
}
