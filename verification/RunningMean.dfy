/** A statistic that is updated sample by sample: minimum, maximum and a running mean whose 64-bit
    accumulator restarts from the mean when the next sample would overflow it. */
module RunningMean {
  import opened Basics

  predicate IsU64(x: nat) {
    x < U64_RANGE
  }

  /** BOF_STAT_VARIABLE */
  datatype Stat = Stat(min: nat, max: nat, mean: nat, acc: nat, items: nat, total: nat)

  /** Bof_InitStatVar: all zero but the minimum. */
  const INIT := Stat(U64_RANGE - 1, 0, 0, 0, 0, 0)

  /** Bof_UpdateStatMean. A sample of zero does not count. The sum is taken modulo 2^64, and a sum
      below the accumulator is the sign of an overflow. The item count needs no wrap-around and is no
      zero divisor because it never exceeds the accumulator. */
  function UpdateMean(s: Stat, x: nat): Stat
    requires s.items <= s.acc && IsU64(s.acc) && IsU64(x)
  {
    if x == 0 then s
    else
      var temp := (s.acc + x) % U64_RANGE;
      if temp >= s.acc then s.(acc := temp, items := s.items + 1, mean := temp / (s.items + 1))
      else s.(acc := s.mean, items := 1)
  }

  /** Bof_UpdateStatVar */
  function Update(s: Stat, x: nat): Stat
    requires s.items <= s.acc && IsU64(s.acc) && IsU64(x)
  {
    UpdateMean(s.(
      total := (s.total + 1) % U64_RANGE,
      min := if x < s.min then x else s.min,
      max := if x > s.max then x else s.max), x)
  }

  // ---- The samples, without the statistic ---------------------------------------------------------------

  ghost predicate AllU64(samples: seq<nat>) {
    forall i :: 0 <= i < |samples| ==> IsU64(samples[i])
  }

  function Minimum(samples: seq<nat>): (m: nat)
    ensures m < U64_RANGE
  {
    if samples == [] then U64_RANGE - 1
    else
      var m, last := Minimum(samples[..|samples| - 1]), samples[|samples| - 1];
      if last < m then last else m
  }

  function Maximum(samples: seq<nat>): nat {
    if samples == [] then 0
    else
      var m, last := Maximum(samples[..|samples| - 1]), samples[|samples| - 1];
      if last > m then last else m
  }

  /** The samples that count for the mean. */
  function NonZero(samples: seq<nat>): seq<nat> {
    if samples == [] then []
    else
      var rest, last := NonZero(samples[..|samples| - 1]), samples[|samples| - 1];
      if last == 0 then rest else rest + [last]
  }

  function Sum(samples: seq<nat>): nat {
    if samples == [] then 0 else Sum(samples[..|samples| - 1]) + samples[|samples| - 1]
  }

  lemma {:induction false} BoundsOf(samples: seq<nat>, i: nat)
    requires i < |samples|
    ensures Minimum(samples) <= samples[i] <= Maximum(samples)
  {
    var n := |samples| - 1;
    if i < n {
      BoundsOf(samples[..n], i);
    }
  }

  /** A sample that counts is a sample, so the bounds of those that count are the tighter ones. */
  lemma {:induction false} NonZeroIsWithin(samples: seq<nat>)
    ensures NonZero(samples) != [] ==>
      Minimum(samples) <= Minimum(NonZero(samples)) && Maximum(NonZero(samples)) <= Maximum(samples)
    ensures NonZero(samples) == [] ==> Maximum(samples) == 0
    ensures NonZero(samples) == [] && samples != [] ==> Minimum(samples) == 0
    ensures NonZero(samples) != [] ==> 0 < Minimum(NonZero(samples))
  {
    if samples != [] {
      var n := |samples| - 1;
      NonZeroIsWithin(samples[..n]);
      if samples[n] != 0 {
        assert NonZero(samples)[..|NonZero(samples)| - 1] == NonZero(samples[..n]);
      }
    }
  }

  // ---- The accumulator -----------------------------------------------------------------------------------

  /** `k` times `a`, as a sum. */
  function Times(k: nat, a: nat): nat {
    if k == 0 then 0 else Times(k - 1, a) + a
  }

  /** The accumulator holds `items` numbers between `lo` and `hi`, and the mean is theirs. */
  ghost predicate Accumulates(acc: nat, items: nat, mean: nat, lo: nat, hi: nat) {
    && Times(items, lo) <= acc <= Times(items, hi)
    && items <= acc
    && (if items == 0 then acc == mean == 0 else mean == acc / items)
  }

  lemma {:induction false} TimesMono(a: nat, b: nat, k: nat)
    requires a <= b
    ensures Times(k, a) <= Times(k, b)
  {
    if k > 0 {
      TimesMono(a, b, k - 1);
    }
  }

  lemma {:induction false} TimesIs(k: nat, a: nat)
    ensures Times(k, a) == k * a
  {
    if k > 0 {
      TimesIs(k - 1, a);
      assert (k - 1) * a + a == k * a;
    }
  }

  lemma MulMono(a: nat, b: nat, k: nat)
    requires a <= b
    ensures k * a <= k * b
  {
  }

  lemma NextMultiple(k: nat, a: nat)
    ensures k * (a + 1) == k * a + k
  {
  }

  lemma QuotientOfProducts(acc: nat, items: nat, lo: nat, hi: nat)
    requires items > 0 && items * lo <= acc <= items * hi
    ensures lo <= acc / items <= hi
  {
    var q := acc / items;
    assert acc == items * q + acc % items;
    if q < lo {
      NextMultiple(items, q);
      MulMono(q + 1, lo, items);
    }
    if q > hi {
      NextMultiple(items, hi);
      MulMono(hi + 1, q, items);
    }
  }

  lemma QuotientBetween(acc: nat, items: nat, lo: nat, hi: nat)
    requires items > 0 && Times(items, lo) <= acc <= Times(items, hi)
    ensures lo <= acc / items <= hi
  {
    TimesIs(items, lo);
    TimesIs(items, hi);
    QuotientOfProducts(acc, items, lo, hi);
  }

  lemma Widen(acc: nat, items: nat, mean: nat, lo: nat, hi: nat, lo': nat, hi': nat)
    requires Accumulates(acc, items, mean, lo, hi) && lo' <= lo && hi <= hi'
    ensures Accumulates(acc, items, mean, lo', hi')
  {
    TimesMono(hi, hi', items);
    TimesMono(lo', lo, items);
  }

  /** One more number within the bounds. */
  lemma AccumulateOne(acc: nat, items: nat, mean: nat, lo: nat, hi: nat, x: nat)
    requires Accumulates(acc, items, mean, lo, hi) && 0 < lo <= x <= hi
    ensures Accumulates(acc + x, items + 1, (acc + x) / (items + 1), lo, hi)
  {
  }

  /** A restart keeps the mean, and the mean was within the bounds. */
  lemma AccumulatorRestarts(acc: nat, items: nat, mean: nat, lo: nat, hi: nat)
    requires Accumulates(acc, items, mean, lo, hi) && items > 0 && lo > 0
    ensures lo <= mean <= hi && Accumulates(mean, 1, mean, lo, hi)
  {
    QuotientBetween(acc, items, lo, hi);
  }

  // ---- The statistic after any number of samples ---------------------------------------------------------

  /** The accumulator stays within the bounds of the samples that count, and is their sum as long as
      that sum fits in 64 bits. */
  ghost predicate Averages(acc: nat, items: nat, mean: nat, counted: seq<nat>) {
    && IsU64(acc) && (items == 0 <==> counted == [])
    && Accumulates(acc, items, mean, Minimum(counted), Maximum(counted))
    && (Sum(counted) < U64_RANGE ==> acc == Sum(counted) && items == |counted|)
  }

  /** The minimum and the maximum are those of all samples, the mean is about those that count. */
  ghost predicate Describes(s: Stat, samples: seq<nat>) {
    && s.min == Minimum(samples) && s.max == Maximum(samples) && IsU64(s.max)
    && s.total == |samples| % U64_RANGE
    && Averages(s.acc, s.items, s.mean, NonZero(samples))
  }

  /** The wrap-around test of the accumulator fires exactly on a true overflow. */
  lemma WrapTestIsExact(acc: nat, x: nat)
    requires IsU64(acc) && IsU64(x)
    ensures (acc + x) % U64_RANGE < acc <==> acc + x >= U64_RANGE
    ensures acc + x < U64_RANGE ==> (acc + x) % U64_RANGE == acc + x
  {
  }

  lemma SnocSample(samples: seq<nat>, x: nat)
    ensures Minimum(samples + [x]) == (if x < Minimum(samples) then x else Minimum(samples))
    ensures Maximum(samples + [x]) == (if x > Maximum(samples) then x else Maximum(samples))
    ensures NonZero(samples + [x]) == if x == 0 then NonZero(samples) else NonZero(samples) + [x]
    ensures Sum(samples + [x]) == Sum(samples) + x
  {
    assert (samples + [x])[..|samples|] == samples;
  }

  /** Without overflow the sample is added, with it the accumulator restarts. */
  lemma UpdateMeanCases(s: Stat, x: nat)
    requires s.items <= s.acc && IsU64(s.acc) && IsU64(x) && x > 0
    ensures UpdateMean(s, x) ==
      if s.acc + x < U64_RANGE then s.(acc := s.acc + x, items := s.items + 1, mean := (s.acc + x) / (s.items + 1))
      else s.(acc := s.mean, items := 1)
  {
    WrapTestIsExact(s.acc, x);
  }

  /** The part about the mean, for a sample that counts: `lo` and `hi` bound it and all before. */
  lemma UpdateMeanAccumulates(s: Stat, lo: nat, hi: nat, x: nat)
    requires IsU64(s.acc) && IsU64(x) && 0 < lo <= x <= hi && IsU64(hi)
    requires Accumulates(s.acc, s.items, s.mean, lo, hi)
    ensures var t := UpdateMean(s, x); t.items > 0 && IsU64(t.acc) && Accumulates(t.acc, t.items, t.mean, lo, hi)
  {
    UpdateMeanCases(s, x);
    if s.acc + x < U64_RANGE {
      AccumulateOne(s.acc, s.items, s.mean, lo, hi, x);
    } else {
      assert s.items > 0;
      AccumulatorRestarts(s.acc, s.items, s.mean, lo, hi);
    }
  }

  lemma UpdateFields(s: Stat, x: nat)
    requires s.items <= s.acc && IsU64(s.acc) && IsU64(x)
    ensures var t := Update(s, x);
      && t.min == (if x < s.min then x else s.min) && t.max == (if x > s.max then x else s.max)
      && t.total == (s.total + 1) % U64_RANGE
      && t.acc == UpdateMean(s, x).acc && t.items == UpdateMean(s, x).items && t.mean == UpdateMean(s, x).mean
  {
  }

  lemma UpdateMeanAverages(s: Stat, counted: seq<nat>, x: nat)
    requires Averages(s.acc, s.items, s.mean, counted) && IsU64(x) && x > 0
    requires IsU64(Maximum(counted)) && (counted != [] ==> 0 < Minimum(counted))
    ensures var t := UpdateMean(s, x); Averages(t.acc, t.items, t.mean, counted + [x])
  {
    var more := counted + [x];
    SnocSample(counted, x);
    Widen(s.acc, s.items, s.mean, Minimum(counted), Maximum(counted), Minimum(more), Maximum(more));
    UpdateMeanAccumulates(s, Minimum(more), Maximum(more), x);
    UpdateMeanCases(s, x);
  }

  lemma TotalStep(n: nat)
    ensures (n % U64_RANGE + 1) % U64_RANGE == (n + 1) % U64_RANGE
  {
  }

  lemma UpdateAverages(s: Stat, samples: seq<nat>, x: nat)
    requires Describes(s, samples) && IsU64(x)
    ensures var t := UpdateMean(s, x); Averages(t.acc, t.items, t.mean, NonZero(samples + [x]))
  {
    SnocSample(samples, x);
    NonZeroIsWithin(samples);
    if x > 0 {
      UpdateMeanAverages(s, NonZero(samples), x);
    }
  }

  lemma DescribesNext(s: Stat, t: Stat, samples: seq<nat>, x: nat)
    requires Describes(s, samples) && IsU64(x)
    requires t.min == (if x < s.min then x else s.min) && t.max == (if x > s.max then x else s.max)
    requires t.total == (s.total + 1) % U64_RANGE
    requires Averages(t.acc, t.items, t.mean, NonZero(samples + [x]))
    ensures Describes(t, samples + [x])
  {
    TotalStep(|samples|);
    SnocSample(samples, x);
  }

  /** One more sample keeps the description. */
  lemma UpdateDescribes(s: Stat, samples: seq<nat>, x: nat)
    requires Describes(s, samples) && IsU64(x)
    ensures Describes(Update(s, x), samples + [x])
  {
    UpdateFields(s, x);
    UpdateAverages(s, samples, x);
    DescribesNext(s, Update(s, x), samples, x);
  }

  /** The statistic after a whole sequence of samples. */
  function Feed(samples: seq<nat>): (s: Stat)
    requires AllU64(samples)
    ensures Describes(s, samples)
  {
    if samples == [] then INIT
    else
      var n := |samples| - 1;
      assert samples == samples[..n] + [samples[n]];
      UpdateDescribes(Feed(samples[..n]), samples[..n], samples[n]);
      Update(Feed(samples[..n]), samples[n])
  }

  lemma {:induction false} BoundsAreSamples(samples: seq<nat>)
    requires AllU64(samples) && samples != []
    ensures Minimum(samples) in samples && Maximum(samples) in samples
  {
    var n := |samples| - 1;
    assert samples[n] in samples;
    if n > 0 {
      BoundsAreSamples(samples[..n]);
    }
  }

  /** After at least one sample the minimum and the maximum are samples, and bound all of them. */
  lemma MinMaxAreTight(samples: seq<nat>)
    requires AllU64(samples) && samples != []
    ensures Feed(samples).min in samples && Feed(samples).max in samples
    ensures forall i :: 0 <= i < |samples| ==> Feed(samples).min <= samples[i] <= Feed(samples).max
  {
    BoundsAreSamples(samples);
    forall i | 0 <= i < |samples| ensures Feed(samples).min <= samples[i] <= Feed(samples).max {
      BoundsOf(samples, i);
    }
  }

  /** After at least one sample the mean lies between the minimum and the maximum, whatever the
      number of restarts, and when a sample counts it lies within the bounds of those that do. */
  lemma MeanInBounds(samples: seq<nat>)
    requires AllU64(samples) && samples != []
    ensures var s, counted := Feed(samples), NonZero(samples);
      && s.min <= s.mean <= s.max
      && (counted != [] ==> Minimum(counted) <= s.mean <= Maximum(counted))
  {
    var s, counted := Feed(samples), NonZero(samples);
    NonZeroIsWithin(samples);
    if counted != [] {
      QuotientBetween(s.acc, s.items, Minimum(counted), Maximum(counted));
    }
  }

  lemma FeedOneMore(samples: seq<nat>, x: nat)
    requires AllU64(samples) && IsU64(x)
    ensures AllU64(samples + [x])
    ensures var s, t := Feed(samples), Feed(samples + [x]);
      && s.items <= s.acc && IsU64(s.acc)
      && t.acc == UpdateMean(s, x).acc && t.items == UpdateMean(s, x).items && t.mean == UpdateMean(s, x).mean
  {
    assert (samples + [x])[..|samples|] == samples;
    UpdateFields(Feed(samples), x);
  }

  /** A sample that would overflow the accumulator is not averaged in, nor is a zero: the mean stays, and
      after an overflow the accumulator holds that mean alone. */
  lemma MeanStays(samples: seq<nat>, x: nat)
    requires AllU64(samples) && IsU64(x) && (x == 0 || Feed(samples).acc + x >= U64_RANGE)
    ensures AllU64(samples + [x])
    ensures var s, t := Feed(samples), Feed(samples + [x]);
      t.mean == s.mean && t.acc == (if x == 0 then s.acc else s.mean) && t.items == if x == 0 then s.items else 1
  {
    FeedOneMore(samples, x);
    if x > 0 {
      UpdateMeanCases(Feed(samples), x);
    }
  }

  lemma AddedToMean(s: Stat, x: nat)
    requires s.items <= s.acc && IsU64(s.acc) && IsU64(x) && x > 0 && s.acc + x < U64_RANGE
    ensures UpdateMean(s, x).acc == s.acc + x && UpdateMean(s, x).items == s.items + 1
  {
    WrapTestIsExact(s.acc, x);
  }

  /** Any other sample is added, and the mean is that of the accumulator, as ever. */
  lemma MeanMoves(samples: seq<nat>, x: nat)
    requires AllU64(samples) && IsU64(x) && x > 0 && Feed(samples).acc + x < U64_RANGE
    ensures AllU64(samples + [x])
    ensures Feed(samples + [x]).acc == Feed(samples).acc + x && Feed(samples + [x]).items == Feed(samples).items + 1
  {
    FeedOneMore(samples, x);
    AddedToMean(Feed(samples), x);
  }

  /** As long as the sum of the samples fits in 64 bits the mean is the true one, rounded down. */
  lemma MeanIsExact(samples: seq<nat>)
    requires AllU64(samples) && Sum(NonZero(samples)) < U64_RANGE && NonZero(samples) != []
    ensures Feed(samples).mean == Sum(NonZero(samples)) / |NonZero(samples)|
  {
  }

  class StatVariable {
    var current: nat
    var min: nat
    var max: nat
    var mean: nat
    var acc: nat
    var items: nat
    var total: nat

    ghost function Model(): Stat
      reads this
    {
      Stat(min, max, mean, acc, items, total)
    }

    constructor ()
      ensures Model() == INIT && Describes(Model(), [])
    {
      current, min, max, mean, acc, items, total := 0, U64_RANGE - 1, 0, 0, 0, 0, 0;
    }

    method UpdateStatMean()
      requires items <= acc && IsU64(acc) && IsU64(current)
      modifies `mean, `acc, `items
      ensures Model() == UpdateMean(old(Model()), current)
    {
      if current != 0 {
        var temp := (acc + current) % U64_RANGE;
        if temp >= acc {
          acc := temp;
          items := items + 1;
          mean := acc / items;
        } else {
          acc := mean;
          items := 1;
          mean := acc / items;
        }
      }
    }

    method UpdateStatVar(value: nat, ghost samples: seq<nat>)
      requires IsU64(value) && Describes(Model(), samples)
      modifies this
      ensures Model() == Update(old(Model()), value) && Describes(Model(), samples + [value])
    {
      UpdateDescribes(Model(), samples, value);
      current := value;
      total := (total + 1) % U64_RANGE;
      if current < min {
        min := current;
      }
      if current > max {
        max := current;
      }
      UpdateStatMean();
    }
  }
}
