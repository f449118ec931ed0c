/**
 Percentage rollouts: how the 100 buckets fall over a rule's distribution entries, and what
 validation of the weights is worth when their sum is taken in 32 bits.
 */
module FlagRollout {
  import opened Basics
  import opened FlagModel
  import opened FlagSemantics

  /** The true sum of the first `n` weights. */
  function PrefixSum(ds: seq<Distribution>, n: nat): nat
    requires n <= |ds|
  {
    if n == 0 then 0 else PrefixSum(ds, n - 1) + ds[n - 1].weight
  }

  function WeightSum(ds: seq<Distribution>): nat {
    PrefixSum(ds, |ds|)
  }

  /** How many of the buckets below `n` entry `i` is served to. */
  function Count(ds: seq<Distribution>, i: nat, n: nat): nat
    requires i < |ds|
  {
    if n == 0 then 0 else Count(ds, i, n - 1) + if PickIndex(ds, n - 1) == i then 1 else 0
  }

  /** Every entry is served to exactly as many of the 100 buckets as its weight says. */
  ghost predicate SplitIsExact(ds: seq<Distribution>) {
    forall i | 0 <= i < |ds| :: Count(ds, i, 100) == ds[i].weight
  }

  lemma {:induction false} PrefixSumMonotone(ds: seq<Distribution>, m: nat, n: nat)
    requires m <= n <= |ds|
    ensures PrefixSum(ds, m) <= PrefixSum(ds, n)
    decreases n
  {
    if m < n {
      PrefixSumMonotone(ds, m, n - 1);
    }
  }

  /** With no overflow the walk stops at the entry whose interval of running totals holds the bucket. */
  lemma {:induction false} PickFindsInterval(ds: seq<Distribution>, b: nat, from: nat, cumulative: U32)
    requires from < |ds| && cumulative == PrefixSum(ds, from) <= b < WeightSum(ds) < U32_MODULUS
    ensures var i := PickIndex(ds, b, from, cumulative);
            PrefixSum(ds, i) <= b < PrefixSum(ds, i + 1)
    decreases |ds| - from
  {
    PrefixSumMonotone(ds, from + 1, |ds|);
    var sum := WrappingAdd(cumulative, ds[from].weight);
    assert sum == PrefixSum(ds, from + 1);
    if b >= sum {
      PickFindsInterval(ds, b, from + 1, sum);
    }
  }

  lemma {:induction false} CountIsIntervalLength(ds: seq<Distribution>, i: nat, n: nat)
    requires i < |ds| && n <= WeightSum(ds) < U32_MODULUS
    ensures var lo, hi := PrefixSum(ds, i), PrefixSum(ds, i + 1);
            Count(ds, i, n) == if n <= lo then 0 else if n <= hi then n - lo else hi - lo
  {
    if n > 0 {
      CountIsIntervalLength(ds, i, n - 1);
      PickFindsInterval(ds, n - 1, 0, 0);
      var j := PickIndex(ds, n - 1);
      if j < i {
        PrefixSumMonotone(ds, j + 1, i);
      } else if i < j {
        PrefixSumMonotone(ds, i + 1, j);
      }
    }
  }

  function CountSum(ds: seq<Distribution>, k: nat, n: nat): nat
    requires k <= |ds|
  {
    if k == 0 then 0 else CountSum(ds, k - 1, n) + Count(ds, k - 1, n)
  }

  lemma {:induction false} CountSumStep(ds: seq<Distribution>, k: nat, n: nat)
    requires 0 < n && k <= |ds| && ds != []
    ensures CountSum(ds, k, n) == CountSum(ds, k, n - 1) + if PickIndex(ds, n - 1) < k then 1 else 0
  {
    if k > 0 {
      CountSumStep(ds, k - 1, n);
    }
  }

  lemma {:induction false} EveryBucketIsServedOnce(ds: seq<Distribution>, n: nat)
    requires ds != []
    ensures CountSum(ds, |ds|, n) == n
  {
    if n == 0 {
      CountSumZero(ds, |ds|);
    } else {
      EveryBucketIsServedOnce(ds, n - 1);
      CountSumStep(ds, |ds|, n);
    }
  }

  lemma {:induction false} CountSumZero(ds: seq<Distribution>, k: nat)
    requires k <= |ds|
    ensures CountSum(ds, k, 0) == 0
  {
    if k > 0 {
      CountSumZero(ds, k - 1);
    }
  }

  lemma {:induction false} ExactCountsSumToWeights(ds: seq<Distribution>, k: nat)
    requires k <= |ds| && SplitIsExact(ds)
    ensures CountSum(ds, k, 100) == PrefixSum(ds, k)
  {
    if k > 0 {
      ExactCountsSumToWeights(ds, k - 1);
    }
  }

  /** A split is honoured exactly when its true weights sum to 100. */
  lemma SplitIsExactIff(ds: seq<Distribution>)
    requires ds != []
    ensures SplitIsExact(ds) <==> WeightSum(ds) == 100
  {
    if WeightSum(ds) == 100 {
      forall i | 0 <= i < |ds|
        ensures Count(ds, i, 100) == ds[i].weight
      {
        PrefixSumMonotone(ds, i + 1, |ds|);
        CountIsIntervalLength(ds, i, 100);
      }
    }
    if SplitIsExact(ds) {
      EveryBucketIsServedOnce(ds, 100);
      ExactCountsSumToWeights(ds, |ds|);
    }
  }

  /** When the weights sum to 100, no bucket falls through to the last entry for want of another. */
  lemma FallbackNeverUsed(ds: seq<Distribution>, bucket: nat)
    requires ds != [] && WeightSum(ds) == 100 && bucket < 100
    ensures var i := PickIndex(ds, bucket);
            PrefixSum(ds, i) <= bucket < PrefixSum(ds, i + 1)
  {
    PickFindsInterval(ds, bucket, 0, 0);
  }

  /** Moving every running total up never moves a bucket to a later entry. */
  lemma RaisingWeightsKeepsEarlierEntries(ds: seq<Distribution>, es: seq<Distribution>, bucket: nat)
    requires |ds| == |es| && bucket < WeightSum(ds) < U32_MODULUS && bucket < WeightSum(es) < U32_MODULUS
    requires forall n | 0 <= n <= |ds| :: PrefixSum(ds, n) <= PrefixSum(es, n)
    ensures PickIndex(es, bucket) <= PickIndex(ds, bucket)
  {
    PickFindsInterval(ds, bucket, 0, 0);
    PickFindsInterval(es, bucket, 0, 0);
    var i, j := PickIndex(ds, bucket), PickIndex(es, bucket);
    if i < j {
      PrefixSumMonotone(es, i + 1, j);
    }
  }

  /** In a two-entry split, raising the first weight only ever adds buckets to the first entry. */
  lemma RampUpIsMonotone(a: Distribution, b: Distribution, a': Distribution, b': Distribution, bucket: nat)
    requires WeightSum([a, b]) == 100 == WeightSum([a', b']) && a.weight <= a'.weight && bucket < 100
    ensures PickIndex([a, b], bucket) == 0 ==> PickIndex([a', b'], bucket) == 0
  {
    var ds, es := [a, b], [a', b'];
    assert PrefixSum(ds, 1) == a.weight && PrefixSum(es, 1) == a'.weight;
    RaisingWeightsKeepsEarlierEntries(ds, es, bucket);
  }

  // ---- What validation sees ----

  /** The sum `validate_rules` takes: left to right, in 32 bits. */
  function WrappedTotal(ds: seq<Distribution>, n: nat): U32
    requires n <= |ds|
  {
    if n == 0 then 0 else WrappingAdd(WrappedTotal(ds, n - 1), ds[n - 1].weight)
  }

  lemma WrapEarly(a: nat, b: nat)
    ensures (a % U32_MODULUS + b) % U32_MODULUS == (a + b) % U32_MODULUS
  {
    var (q, x) := (a / U32_MODULUS, a % U32_MODULUS + b);
    assert a + b == (q + x / U32_MODULUS) * U32_MODULUS + x % U32_MODULUS;
  }

  lemma {:induction false} WrappedTotalIsSumModulo(ds: seq<Distribution>, n: nat)
    requires n <= |ds|
    ensures WrappedTotal(ds, n) == PrefixSum(ds, n) % U32_MODULUS
  {
    if n > 0 {
      WrappedTotalIsSumModulo(ds, n - 1);
      WrapEarly(PrefixSum(ds, n - 1), ds[n - 1].weight);
    }
  }

  /** An accepted split is honoured exactly when its sum did not overflow. */
  lemma AcceptedSplitIsExactIffNoOverflow(ds: seq<Distribution>)
    requires ds != [] && WrappedTotal(ds, |ds|) == 100
    ensures SplitIsExact(ds) <==> WeightSum(ds) < U32_MODULUS
  {
    WrappedTotalIsSumModulo(ds, |ds|);
    SplitIsExactIff(ds);
  }

  /** Overflow does slip through the check: this split is accepted, yet its first entry takes every bucket. */
  lemma OverflowingSplitIsAccepted()
    ensures var ds := [Distribution("a", 101), Distribution("b", 4294967295)];
            WrappedTotal(ds, 2) == 100 && !SplitIsExact(ds) && forall b | 0 <= b < 100 :: PickIndex(ds, b) == 0
  {
    var ds := [Distribution("a", 101), Distribution("b", 4294967295)];
    assert PrefixSum(ds, 1) == 101;
    assert WrappedTotal(ds, 1) == 101;
    SplitIsExactIff(ds);
  }
}
