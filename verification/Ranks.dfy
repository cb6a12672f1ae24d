/** Nearest-rank percentiles and the benchmark summary (cmd/image-bench/main.go,
  `percentile` and `summarizeProfile`). */
module Ranks {
  import opened Sorting

  function IntLe(): (int, int) -> bool {
    (x: int, y: int) => x <= y
  }

  function CountBelow(s: seq<int>, v: int): nat {
    if s == [] then 0 else CountBelow(s[1..], v) + if s[0] < v then 1 else 0
  }

  function CountUpTo(s: seq<int>, v: int): nat {
    if s == [] then 0 else CountUpTo(s[1..], v) + if s[0] <= v then 1 else 0
  }

  /** Division of Go: towards zero. */
  function Quotient(a: int, b: int): int
    requires b > 0
  {
    if a >= 0 then a / b else -((-a) / b)
  }

  /** The position the program reads in the sorted list. */
  function RankIndex(n: nat, percent: int): int {
    var index := Quotient(n * percent + 99, 100);
    if index - 1 > 0 then index - 1 else 0
  }

  lemma RankInRange(n: nat, percent: int)
    requires n > 0
    ensures 0 <= RankIndex(n, percent)
    ensures percent <= 100 <==> RankIndex(n, percent) < n
  {
    if percent <= 100 {
      assert n * percent <= n * 100;
    } else {
      assert n * percent >= n * 101;
    }
  }

  /** The result as the program computes it; on a non-empty list the index is out of range
      exactly for percentages above 100. */
  function Percentile(values: seq<int>, percent: int): int
    requires values == [] || percent <= 100
  {
    if values == [] then 0
    else
      RankInRange(|values|, percent);
      StableSortSorted(values, IntLe());
      assert |StableSort(values, IntLe())| == |multiset(values)|;
      StableSort(values, IntLe())[RankIndex(|values|, percent)]
  }

  method ComputePercentile(values: seq<int>, percent: int) returns (v: int)
    requires values == [] || percent <= 100
    ensures v == Percentile(values, percent)
    ensures if values == [] then v == 0 else v in values
  {
    if |values| == 0 {
      return 0;
    }
    var ordered := SortSlice(values, IntLe());
    assert |ordered| == |multiset(values)|;
    RankInRange(|values|, percent);
    var index := Quotient(|ordered| * percent + 99, 100);
    v := ordered[if index - 1 > 0 then index - 1 else 0];
    StableSortSorted(values, IntLe());
    SortedUnique(ordered, StableSort(values, IntLe()));
  }

  // ---------------------------------------------------------------- sorted lists

  /** A list of integers has one sorted arrangement. */
  lemma {:induction false} SortedUnique(a: seq<int>, b: seq<int>)
    requires SortedBy(a, IntLe()) && SortedBy(b, IntLe()) && multiset(a) == multiset(b)
    ensures a == b
  {
    assert |a| == |multiset(a)| && |b| == |multiset(b)|;
    if a != [] {
      HeadIsLeast(a, b);
      HeadIsLeast(b, a);
      assert a == [a[0]] + a[1..] && b == [b[0]] + b[1..];
      assert multiset(a[1..]) == multiset(a) - multiset{a[0]} && multiset(b[1..]) == multiset(b) - multiset{b[0]};
      SortedUnique(a[1..], b[1..]);
    }
  }

  lemma HeadIsLeast(a: seq<int>, b: seq<int>)
    requires SortedBy(a, IntLe()) && multiset(a) == multiset(b) && a != [] && b != []
    ensures a[0] <= b[0]
  {
    assert b[0] in multiset(a);
    var i :| 0 <= i < |a| && a[i] == b[0];
    assert i > 0 ==> IntLe()(a[0], a[i]);
  }

  lemma {:induction false} CountInsert(x: int, s: seq<int>, v: int)
    ensures CountBelow(Insert(x, s, IntLe()), v) == CountBelow(s, v) + if x < v then 1 else 0
    ensures CountUpTo(Insert(x, s, IntLe()), v) == CountUpTo(s, v) + if x <= v then 1 else 0
  {
    if s == [] || x <= s[0] {
      assert ([x] + s)[1..] == s;
    } else {
      CountInsert(x, s[1..], v);
    }
  }

  lemma {:induction false} CountSorted(s: seq<int>, v: int)
    ensures CountBelow(StableSort(s, IntLe()), v) == CountBelow(s, v)
    ensures CountUpTo(StableSort(s, IntLe()), v) == CountUpTo(s, v)
  {
    if s != [] {
      CountSorted(s[1..], v);
      CountInsert(s[0], StableSort(s[1..], IntLe()), v);
    }
  }

  lemma {:induction false} CountsAt(s: seq<int>, k: nat)
    requires SortedBy(s, IntLe()) && k < |s|
    ensures CountBelow(s, s[k]) <= k < CountUpTo(s, s[k])
  {
    assert IntLe()(s[0], s[k]) || k == 0;
    var t := s[1..];
    forall i, j | 0 <= i < j < |t| ensures IntLe()(t[i], t[j]) { assert IntLe()(s[i + 1], s[j + 1]); }
    if k > 0 {
      CountsAt(t, k - 1);
    } else {
      forall i | 0 <= i < |t| ensures t[i] >= s[0] { assert IntLe()(s[0], s[i + 1]); }
      NoneBelow(t, s[0]);
    }
  }

  lemma {:induction false} NoneBelow(s: seq<int>, v: int)
    requires forall i :: 0 <= i < |s| ==> s[i] >= v
    ensures CountBelow(s, v) == 0
  {
    if s != [] { NoneBelow(s[1..], v); }
  }

  lemma {:induction false} CountLimits(s: seq<int>, v: int, w: int)
    requires v < w
    ensures CountBelow(s, v) <= CountUpTo(s, v) <= CountBelow(s, w) <= |s|
  {
    if s != [] { CountLimits(s[1..], v, w); }
  }

  // ---------------------------------------------------------------- what a percentile is

  /** The ceiling of n * percent / 100. */
  predicate IsShare(n: nat, percent: nat, share: nat) {
    100 * share >= n * percent > 100 * (share - 1)
  }

  /** `v` sits at the nearest rank: fewer than `rank` values are below it and at least `rank`
      are up to it, where `rank` is the percentage of the values rounded up, but at least 1. */
  lemma PercentileRank(values: seq<int>, percent: nat, share: nat)
    requires values != [] && percent <= 100 && IsShare(|values|, percent, share)
    ensures var v, rank := Percentile(values, percent), if share > 1 then share else 1;
      && v in values
      && CountBelow(values, v) < rank <= CountUpTo(values, v)
  {
    var n := |values|;
    var ordered := StableSort(values, IntLe());
    StableSortSorted(values, IntLe());
    assert |ordered| == |multiset(values)|;
    RankInRange(n, percent);
    var k := RankIndex(n, percent);
    ShareIsIndex(n, percent, share);
    CountsAt(ordered, k);
    CountSorted(values, ordered[k]);
    assert ordered[k] in multiset(ordered);
  }

  lemma ShareIsIndex(n: nat, percent: nat, share: nat)
    requires IsShare(n, percent, share)
    ensures RankIndex(n, percent) == if share > 1 then share - 1 else 0
  {
    var m := n * percent;
    assert (m + 99) / 100 == share;
  }

  /** Those two counts leave one value only. */
  lemma RankIsUnique(values: seq<int>, rank: nat, v: int, w: int)
    requires CountBelow(values, v) < rank <= CountUpTo(values, v)
    requires CountBelow(values, w) < rank <= CountUpTo(values, w)
    ensures v == w
  {
    if v < w { CountLimits(values, v, w); }
    if w < v { CountLimits(values, w, v); }
  }

  lemma PercentileOrderless(a: seq<int>, b: seq<int>, percent: int)
    requires (a == [] || percent <= 100) && multiset(a) == multiset(b)
    ensures Percentile(a, percent) == Percentile(b, percent)
  {
    assert |a| == |multiset(a)| && |b| == |multiset(b)|;
    StableSortSorted(a, IntLe());
    StableSortSorted(b, IntLe());
    SortedUnique(StableSort(a, IntLe()), StableSort(b, IntLe()));
  }

  lemma QuotientMonotone(a: int, b: int)
    requires a <= b
    ensures Quotient(a, 100) <= Quotient(b, 100)
  {
  }

  lemma PercentileMonotone(values: seq<int>, p: int, q: int)
    requires p <= q <= 100
    ensures Percentile(values, p) <= Percentile(values, q)
  {
    if values != [] {
      var n := |values|;
      assert n * p <= n * q;
      QuotientMonotone(n * p + 99, n * q + 99);
      RankInRange(n, p);
      RankInRange(n, q);
      StableSortSorted(values, IntLe());
      var ordered := StableSort(values, IntLe());
      assert |ordered| == |multiset(values)|;
      assert RankIndex(n, p) < RankIndex(n, q) ==> IntLe()(ordered[RankIndex(n, p)], ordered[RankIndex(n, q)]);
    }
  }

  /** The hundredth percentile is the maximum. */
  lemma HundredIsMax(values: seq<int>, x: int)
    requires x in values
    ensures Percentile(values, 100) in values && x <= Percentile(values, 100)
  {
    var n := |values|;
    StableSortSorted(values, IntLe());
    var ordered := StableSort(values, IntLe());
    assert |ordered| == |multiset(values)|;
    RankInRange(n, 100);
    assert RankIndex(n, 100) == n - 1 by { ShareIsIndex(n, 100, n); }
    assert x in multiset(ordered);
    var i :| 0 <= i < n && ordered[i] == x;
    assert i < n - 1 ==> IntLe()(ordered[i], ordered[n - 1]);
    assert ordered[n - 1] in multiset(ordered);
  }

  // ---------------------------------------------------------------- the summary

  datatype Sample = Sample(processes: nat, renditions: nat, outputBytes: int, wallTime: int, peakRSS: int,
                           workerTimes: seq<int>)

  datatype Summary = Summary(processes: nat, renditions: nat, medianWallTime: int, imagesPerMinute: real,
                             renditionsPerMinute: real, p50Worker: int, p95Worker: int, maxWorker: int,
                             medianOutputBytes: int, maxPeakRSS: int)

  function PerMinute(count: nat, duration: int): real {
    if duration <= 0 then 0.0 else (count as real) * 60000.0 / (duration as real)
  }

  /** So many a minute over so many milliseconds; none when no time passed. */
  predicate IsRate(rate: real, count: nat, duration: int) {
    if duration > 0 then rate * (duration as real) == (count as real) * 60000.0 else rate == 0.0
  }

  function WallTimes(samples: seq<Sample>): seq<int> {
    seq(|samples|, i requires 0 <= i < |samples| => samples[i].wallTime)
  }

  function OutputSizes(samples: seq<Sample>): seq<int> {
    seq(|samples|, i requires 0 <= i < |samples| => samples[i].outputBytes)
  }

  function WorkerTimes(samples: seq<Sample>): seq<int> {
    if samples == [] then []
    else WorkerTimes(samples[..|samples| - 1]) + samples[|samples| - 1].workerTimes
  }

  lemma RateIs(count: nat, duration: int)
    ensures IsRate(PerMinute(count, duration), count, duration)
  {
  }

  const EMPTY_SUMMARY := Summary(0, 0, 0, 0.0, 0.0, 0, 0, 0, 0, 0)

  method SummarizeProfile(samples: seq<Sample>) returns (summary: Summary)
    ensures samples == [] ==> summary == Summary(0, 0, 0, 0.0, 0.0, 0, 0, 0, 0, 0)
    ensures samples != [] ==>
      && summary.processes == samples[0].processes && summary.renditions == samples[0].renditions
      && summary.medianWallTime == Percentile(WallTimes(samples), 50)
      && summary.medianOutputBytes == Percentile(OutputSizes(samples), 50)
      && summary.p50Worker == Percentile(WorkerTimes(samples), 50)
      && summary.p95Worker == Percentile(WorkerTimes(samples), 95)
      && summary.maxWorker == Percentile(WorkerTimes(samples), 100)
      && IsRate(summary.imagesPerMinute, samples[0].processes, summary.medianWallTime)
      && IsRate(summary.renditionsPerMinute, samples[0].renditions, summary.medianWallTime)
    ensures summary.p50Worker <= summary.p95Worker <= summary.maxWorker
    ensures forall i :: 0 <= i < |samples| ==> samples[i].peakRSS <= summary.maxPeakRSS
    ensures summary.maxPeakRSS == 0 || exists i :: 0 <= i < |samples| && samples[i].peakRSS == summary.maxPeakRSS
  {
    var wallTimes: seq<int>, outputBytes: seq<int>, workerTimes: seq<int> := [], [], [];
    summary := EMPTY_SUMMARY;
    for i := 0 to |samples|
      invariant wallTimes == WallTimes(samples[..i]) && outputBytes == OutputSizes(samples[..i])
      invariant workerTimes == WorkerTimes(samples[..i])
      invariant summary == EMPTY_SUMMARY.(maxPeakRSS := summary.maxPeakRSS)
      invariant forall k :: 0 <= k < i ==> samples[k].peakRSS <= summary.maxPeakRSS
      invariant summary.maxPeakRSS == 0 || exists k :: 0 <= k < i && samples[k].peakRSS == summary.maxPeakRSS
    {
      var sample := samples[i];
      assert samples[..i + 1][..i] == samples[..i];
      wallTimes := wallTimes + [sample.wallTime];
      outputBytes := outputBytes + [sample.outputBytes];
      workerTimes := workerTimes + sample.workerTimes;
      if sample.peakRSS > summary.maxPeakRSS {
        summary := summary.(maxPeakRSS := sample.peakRSS);
      }
    }
    assert samples[..|samples|] == samples;
    if |samples| == 0 {
      return;
    }
    PercentileMonotone(workerTimes, 50, 95);
    PercentileMonotone(workerTimes, 95, 100);
    var wall := ComputePercentile(wallTimes, 50);
    RateIs(samples[0].processes, wall);
    RateIs(samples[0].renditions, wall);
    var size := ComputePercentile(outputBytes, 50);
    var p50 := ComputePercentile(workerTimes, 50);
    var p95 := ComputePercentile(workerTimes, 95);
    var p100 := ComputePercentile(workerTimes, 100);
    summary := summary.(processes := samples[0].processes, renditions := samples[0].renditions,
      medianWallTime := wall, medianOutputBytes := size, p50Worker := p50, p95Worker := p95, maxWorker := p100,
      imagesPerMinute := PerMinute(samples[0].processes, wall),
      renditionsPerMinute := PerMinute(samples[0].renditions, wall));
  }

  /** At zero percent and below, the result is the least value. */
  lemma NothingIsMin(values: seq<int>, percent: int, x: int)
    requires percent <= 0 && x in values
    ensures Percentile(values, percent) in values && Percentile(values, percent) <= x
  {
    hide StableSort, CountBelow, CountUpTo;
    assert RankIndex(|values|, percent) == 0 == RankIndex(|values|, 0);
    assert IsShare(|values|, 0, 0);
    PercentileRank(values, 0, 0);
    if x < Percentile(values, 0) { BelowCounts(values, Percentile(values, 0), x); }
  }

  lemma {:induction false} BelowCounts(s: seq<int>, v: int, x: int)
    requires x in s && x < v
    ensures CountBelow(s, v) > 0
  {
    if s[0] != x { BelowCounts(s[1..], v, x); }
  }

  /** Which figures the summary is made of: each sample adds one wall time, one size, and all its
      worker times. */
  lemma FiguresOfSamples(samples: seq<Sample>, sample: Sample)
    ensures WallTimes([]) == OutputSizes([]) == WorkerTimes([]) == []
    ensures var more := samples + [sample];
      && WallTimes(more) == WallTimes(samples) + [sample.wallTime]
      && OutputSizes(more) == OutputSizes(samples) + [sample.outputBytes]
      && WorkerTimes(more) == WorkerTimes(samples) + sample.workerTimes
  {
    var more := samples + [sample];
    assert more[..|more| - 1] == samples;
  }
}
