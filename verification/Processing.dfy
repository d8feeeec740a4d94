/** statsgod/metric.go `ProcessMetric`: the statistics computed when a metric is flushed. */
module Processing {
  import opened Wrappers
  import opened Statistics
  import opened Quantiles
  import opened Metrics
  import opened Aggregation

  const SECOND := 1_000_000_000

  /** Percentiles as the configuration allows them, and a flush interval of at least a second: the
      interval is truncated to whole seconds before it divides. */
  predicate Configured(flushDuration: int, percentiles: seq<int>) {
    flushDuration >= SECOND && Percentages(percentiles)
  }

  predicate Percentages(percentiles: seq<int>) {
    forall i :: 0 <= i < |percentiles| ==> 0 <= percentiles[i] <= 100
  }

  /** A timer without values would make `Minmax` index an empty slice. */
  predicate Processable(m: Metric) {
    m.metricType.Timer? ==> m.allValues != []
  }

  /** The statistics of one percentile of sorted values. */
  function PercentileOf(s: seq<real>, p: int): MetricQuantile
    requires Sorted(s) && s != [] && 0 <= p <= 100
  {
    KeptIsSorted(s, p);
    var kept := Kept(s, p);
    MetricQuantile(p, Boundary(s, p), kept, Average(kept), Median(kept), kept[|kept| - 1], Total(kept))
  }

  function PercentilesOf(s: seq<real>, percentiles: seq<int>): (r: seq<MetricQuantile>)
    requires Sorted(s) && s != [] && Percentages(percentiles)
  {
    seq(|percentiles|, i requires 0 <= i < |percentiles| => PercentileOf(s, percentiles[i]))
  }

  /** The metric handed to the backend. */
  ghost function Processed(m: Metric, flushDuration: int, percentiles: seq<int>): Metric
    requires Configured(flushDuration, percentiles) && Processable(m)
  {
    var s := Ascending(m.allValues);
    var seconds := (flushDuration / SECOND) as real;
    var sorted := m.(allValues := s);
    match m.metricType
    case Counter => sorted.(valuesPerSecond := m.lastValue / seconds)
    case Gauge => sorted.(medianValue := Median(s), meanValue := Average(s))
    case Set => sorted.(lastValue := |Distinct(m.allValues)| as real)
    case Timer =>
      sorted.(
        minValue := s[0], maxValue := s[|s| - 1],
        medianValue := Median(s), meanValue := Average(s),
        valuesPerSecond := m.totalHits / seconds,
        quantiles := PercentilesOf(s, percentiles))
  }

  lemma ExtremesOfSorted(s: seq<real>, lo: real, hi: real)
    requires Sorted(s) && IsLeast(lo, s) && IsGreatest(hi, s)
    ensures lo == s[0] && hi == s[|s| - 1]
  {
    assert s[0] in s && s[|s| - 1] in s;
  }

  lemma KeepNext(values: seq<real>, bound: real, i: nat, kept: seq<real>)
    requires i < |values| && KeepUpTo(values, bound) == kept + KeepUpTo(values[i..], bound)
    ensures KeepUpTo(values, bound)
         == if values[i] > bound then kept
            else (kept + [values[i]]) + KeepUpTo(values[i + 1..], bound)
  {
    assert values[i..][1..] == values[i + 1..];
    if values[i] > bound {
      assert KeepUpTo(values[i..], bound) == [];
    } else {
      assert KeepUpTo(values[i..], bound) == [values[i]] + KeepUpTo(values[i + 1..], bound);
    }
  }

  /** The values before the first one above the boundary. */
  method Keep(values: seq<real>, bound: real) returns (kept: seq<real>)
    ensures kept == KeepUpTo(values, bound)
  {
    kept := [];
    var i := 0;
    var above := false;
    assert values[0..] == values;
    while i < |values| && !above
      invariant 0 <= i <= |values|
      invariant above ==> KeepUpTo(values, bound) == kept
      invariant !above ==> KeepUpTo(values, bound) == kept + KeepUpTo(values[i..], bound)
      decreases |values| - i, !above
    {
      KeepNext(values, bound, i, kept);
      if values[i] > bound {
        above := true;
      } else {
        kept := kept + [values[i]];
        i := i + 1;
      }
    }
  }

  lemma KeptIsSorted(s: seq<real>, p: int)
    requires Sorted(s) && s != [] && 0 <= p <= 100
    ensures Kept(s, p) != [] && Sorted(Kept(s, p))
  {
    KeptPrefix(s, p);
  }

  /** The four statistics of the values a percentile keeps. */
  method Summarize(kept: seq<real>) returns (max: real, mean: real, median: real, sum: real)
    requires Sorted(kept) && kept != []
    ensures max == kept[|kept| - 1] && mean == Average(kept) && median == Median(kept) && sum == Total(kept)
  {
    var min;
    min, max := Minmax(kept);
    ExtremesOfSorted(kept, min, max);
    mean := Mean(kept);
    median := Median(kept);
    sum := Sum(kept);
  }

  method ProcessPercentile(values: seq<real>, q: int) returns (quantile: MetricQuantile)
    requires Sorted(values) && values != [] && 0 <= q <= 100
    ensures quantile == PercentileOf(values, q)
  {
    KeptIsSorted(values, q);
    var boundary := Quantile(values, q as real / 100.0);
    assert boundary == Boundary(values, q);
    var kept := Keep(values, boundary);
    var max, mean, median, sum := Summarize(kept);
    quantile := MetricQuantile(q, boundary, kept, mean, median, max, sum);
  }

  method ProcessPercentiles(values: seq<real>, percentiles: seq<int>) returns (r: seq<MetricQuantile>)
    requires Sorted(values) && values != [] && Percentages(percentiles)
    ensures r == PercentilesOf(values, percentiles)
  {
    r := [];
    for i := 0 to |percentiles|
      invariant |r| == i && forall j :: 0 <= j < i ==> r[j] == PercentileOf(values, percentiles[j])
    {
      var quantile := ProcessPercentile(values, percentiles[i]);
      r := r + [quantile];
    }
  }

  /** Sorts the values and writes the derived fields through the pointer. */
  method ProcessMetric(metric: Ref<Metric>, flushDuration: int, percentiles: seq<int>)
    requires Configured(flushDuration, percentiles) && Processable(metric.value)
    modifies metric
    ensures metric.value == Processed(old(metric.value), flushDuration, percentiles)
  {
    var m := metric.value;
    var flushInterval := flushDuration / SECOND;
    var values := new real[|m.allValues|](i requires 0 <= i < |m.allValues| => m.allValues[i]);
    assert values[..] == m.allValues;
    Sort(values);
    var s := values[..];
    metric.value := metric.value.(allValues := s);
    match m.metricType {
      case Counter =>
        metric.value := metric.value.(valuesPerSecond := m.lastValue / flushInterval as real);
      case Gauge =>
        var mean := Mean(s);
        metric.value := metric.value.(medianValue := Median(s), meanValue := mean);
      case Set =>
        var count := UniqueCount(values);
        DistinctPermutation(s, m.allValues);
        SortedUnique(s, values[..]);
        metric.value := metric.value.(lastValue := count as real);
      case Timer =>
        assert s != [] by {
          assert |s| == |m.allValues|;
        }
        var min, max := Minmax(s);
        ExtremesOfSorted(s, min, max);
        var mean := Mean(s);
        var quantiles := ProcessPercentiles(s, percentiles);
        metric.value := metric.value.(
          minValue := min, maxValue := max, medianValue := Median(s), meanValue := mean,
          valuesPerSecond := m.totalHits / flushInterval as real,
          quantiles := quantiles);
    }
  }

  // ---------- What a flush reports ----------

  /** Two metrics that differ only in the order of their values are reported alike. */
  lemma ValueOrderIrrelevant(a: Metric, b: Metric, flushDuration: int, percentiles: seq<int>)
    requires Configured(flushDuration, percentiles) && Processable(a) && Processable(b)
    requires a == b.(allValues := a.allValues) && Permutation(a.allValues, b.allValues)
    ensures Processed(a, flushDuration, percentiles) == Processed(b, flushDuration, percentiles)
  {
    SortedUnique(Ascending(a.allValues), Ascending(b.allValues));
    DistinctPermutation(a.allValues, b.allValues);
  }

  lemma SameQuotientIff(x: real, n: real, d: real)
    requires n > 0.0 && d > 0.0
    ensures x / n == x / d <==> n == d || x == 0.0
  {
    var q := x / n;
    assert q * n == x;
    if x / d == q {
      assert q * d == x;
      assert q * (n - d) == 0.0;
    }
  }

  /** The value a rate divides: a counter's last value, a timer's hits. */
  function Rated(m: Metric): real {
    if m.metricType.Counter? then m.lastValue else m.totalHits
  }

  /** The documented rate of a counter divides by the flush interval in seconds. The code divides by its
      whole seconds, for timers too, so a rate is per second of the interval exactly when the interval
      is whole or the rated value 0. */
  lemma RateIsPerSecondIff(m: Metric, flushDuration: int, percentiles: seq<int>)
    requires Configured(flushDuration, percentiles) && Processable(m)
    requires m.metricType.Counter? || m.metricType.Timer?
    ensures Processed(m, flushDuration, percentiles).valuesPerSecond
            == Rated(m) / (flushDuration as real / SECOND as real)
       <==> flushDuration % SECOND == 0 || Rated(m) == 0.0
  {
    var whole := flushDuration / SECOND;
    var n, d := whole as real, flushDuration as real / SECOND as real;
    assert flushDuration == whole * SECOND + flushDuration % SECOND;
    assert d * SECOND as real == flushDuration as real;
    assert n == d <==> flushDuration % SECOND == 0;
    SameQuotientIff(Rated(m), n, d);
  }

  /** Three counted in one and a half seconds are reported as three a second, not as two. */
  lemma RateOfFractionalInterval()
    ensures Configured(1_500_000_000, [])
    ensures var m := Sample("k", Counter, 3.0, 1.0);
      && Processed(m, 1_500_000_000, []).valuesPerSecond == 3.0
      && Rated(m) / (1_500_000_000 as real / SECOND as real) == 2.0
  {
  }

  lemma SampleValues(ms: seq<Metric>)
    requires ms != [] && forall m :: m in ms ==> m.allValues == [m.lastValue]
    ensures FoldOf(ms).allValues == LastValues(ms)
  {
    FoldClosedForm(ms);
    assert ms[0] in ms;
    assert LastValues(ms) == [ms[0].lastValue] + LastValues(ms[1..]);
  }

  /** A set reports how many different values its key received in the window, in whatever order. */
  lemma SetCountsDistinct(ms: seq<Metric>, flushDuration: int, percentiles: seq<int>)
    requires ms != [] && (forall m :: m in ms ==> m.allValues == [m.lastValue])
    requires AllOfType(ms, Set) && Configured(flushDuration, percentiles)
    ensures FoldOf(ms).metricType == Set
    ensures Processed(FoldOf(ms), flushDuration, percentiles).lastValue
         == |set m | m in ms :: m.lastValue| as real
  {
    FoldClosedForm(ms);
    assert ms[0] in ms;
    SampleValues(ms);
    assert Distinct(LastValues(ms)) == set m | m in ms :: m.lastValue by {
      forall x | x in Distinct(LastValues(ms)) ensures exists m :: m in ms && m.lastValue == x {
        var i :| 0 <= i < |ms| && LastValues(ms)[i] == x;
        assert ms[i] in ms;
      }
      forall m | m in ms ensures m.lastValue in Distinct(LastValues(ms)) {
        var i :| 0 <= i < |ms| && ms[i] == m;
        assert LastValues(ms)[i] == m.lastValue;
      }
    }
  }

  lemma MedianBetween(s: seq<real>)
    requires Sorted(s) && s != []
    ensures s[0] <= Median(s) <= s[|s| - 1]
  {
    var l, r := (|s| - 1) / 2, |s| / 2;
    assert s[0] <= s[l] <= s[|s| - 1] && s[0] <= s[r] <= s[|s| - 1];
  }

  /** A flushed timer: mean and median lie between minimum and maximum, which are the extremes of the
      received values; its percentiles come in configuration order. */
  lemma TimerReport(m: Metric, flushDuration: int, percentiles: seq<int>)
    requires Configured(flushDuration, percentiles) && m.metricType.Timer? && m.allValues != []
    ensures var r := Processed(m, flushDuration, percentiles);
      && IsLeast(r.minValue, m.allValues) && IsGreatest(r.maxValue, m.allValues)
      && r.minValue <= r.meanValue <= r.maxValue
      && r.minValue <= r.medianValue <= r.maxValue
      && r.meanValue == Average(m.allValues)
      && |r.quantiles| == |percentiles|
      && (forall i :: 0 <= i < |percentiles| ==> r.quantiles[i].quantile == percentiles[i])
  {
    var s := Ascending(m.allValues);
    forall x ensures x in s <==> x in m.allValues {
      assert x in multiset(s) <==> x in multiset(m.allValues);
    }
    assert IsLeast(s[0], s) && IsGreatest(s[|s| - 1], s);
    AverageBetween(s, s[0], s[|s| - 1]);
    AveragePermutation(s, m.allValues);
    MedianBetween(s);
  }

  /** Percentile p of a sorted timer against a larger percentile q. */
  ghost predicate Below(p: MetricQuantile, q: MetricQuantile) {
    && p.allValues != [] && p.allValues <= q.allValues
    && p.boundary <= q.boundary && p.max <= q.max && p.mean <= q.mean && p.median <= q.median
  }

  lemma PercentileBelow(s: seq<real>, p: int, q: int)
    requires Sorted(s) && s != [] && 0 <= p <= q <= 100
    ensures Below(PercentileOf(s, p), PercentileOf(s, q))
    ensures s[0] <= PercentileOf(s, p).boundary
    ensures PercentileOf(s, q).boundary <= s[|s| - 1]
  {
    PercentilesNested(s, p, q);
    KeptPrefix(s, p);
    KeptPrefix(s, q);
  }

  /** Between two percentiles of one flushed timer everything but the sum grows with the percentile,
      and every boundary lies between the timer's minimum and maximum. */
  lemma PercentilesReport(m: Metric, flushDuration: int, percentiles: seq<int>, i: nat, j: nat)
    requires Configured(flushDuration, percentiles) && m.metricType.Timer? && m.allValues != []
    requires i < |percentiles| && j < |percentiles| && percentiles[i] <= percentiles[j]
    ensures var r := Processed(m, flushDuration, percentiles);
      && Below(r.quantiles[i], r.quantiles[j])
      && r.minValue <= r.quantiles[i].boundary <= r.maxValue
  {
    var s := Ascending(m.allValues);
    PercentileBelow(s, percentiles[i], percentiles[j]);
  }

  /** The hundredth percentile reports what the whole timer does. */
  lemma HundredthReport(m: Metric, flushDuration: int, percentiles: seq<int>, i: nat)
    requires Configured(flushDuration, percentiles) && m.metricType.Timer? && m.allValues != []
    requires i < |percentiles| && percentiles[i] == 100
    ensures var r := Processed(m, flushDuration, percentiles);
      var q := r.quantiles[i];
      && q.boundary == q.max == r.maxValue && q.mean == r.meanValue && q.median == r.medianValue
      && q.allValues == r.allValues && q.sum == Total(m.allValues)
  {
    var s := Ascending(m.allValues);
    HundredthPercentile(s);
    TotalPermutation(s, m.allValues);
  }

  // ---------- What is reported, in terms of the values received ----------

  /** The values of `all` up to a bound, each as often as it was received. */
  ghost predicate ExactlyUpTo(kept: seq<real>, all: seq<real>, bound: real) {
    forall x :: multiset(kept)[x] == if x <= bound then multiset(all)[x] else 0
  }

  lemma CountsNone(s: seq<real>, x: real)
    requires x !in s
    ensures multiset(s)[x] == 0
  {
    assert x !in multiset(s);
  }

  lemma PrefixUpTo(s: seq<real>, k: nat, bound: real)
    requires k <= |s| && forall i :: 0 <= i < |s| ==> (s[i] <= bound <==> i < k)
    ensures ExactlyUpTo(s[..k], s, bound)
  {
    assert s == s[..k] + s[k..];
    forall x ensures multiset(s[..k])[x] == if x <= bound then multiset(s)[x] else 0 {
      assert multiset(s)[x] == multiset(s[..k])[x] + multiset(s[k..])[x];
      if x <= bound {
        CountsNone(s[k..], x);
      } else {
        CountsNone(s[..k], x);
      }
    }
  }

  /** A percentile's statistics are those of the values it keeps, and it keeps exactly the received values
      up to its boundary. */
  ghost predicate Summarizes(q: MetricQuantile, all: seq<real>) {
    && q.allValues != [] && Sorted(q.allValues) && ExactlyUpTo(q.allValues, all, q.boundary)
    && q.sum == Total(q.allValues) && q.mean == Average(q.allValues) && q.median == Median(q.allValues)
    && IsGreatest(q.max, q.allValues)
  }

  lemma KeptUpTo(s: seq<real>, p: int)
    requires Sorted(s) && s != [] && 0 <= p <= 100
    ensures Kept(s, p) != [] && Sorted(Kept(s, p)) && ExactlyUpTo(Kept(s, p), s, Boundary(s, p))
  {
    KeptPrefix(s, p);
    KeptIsSorted(s, p);
    PrefixUpTo(s, |Kept(s, p)|, Boundary(s, p));
  }

  lemma PercentileSummarizes(s: seq<real>, p: int)
    requires Sorted(s) && s != [] && 0 <= p <= 100
    ensures Summarizes(PercentileOf(s, p), s)
  {
    KeptUpTo(s, p);
    GreatestIsLast(Kept(s, p));
  }

  lemma GreatestIsLast(s: seq<real>)
    requires Sorted(s) && s != []
    ensures IsGreatest(s[|s| - 1], s)
  {
  }

  /** Where a boundary lies among ascending values: with p(n-1) = 100k + r, r hundredths of the way from the
      k-th to the next. */
  ghost predicate BoundaryAmong(boundary: real, s: seq<real>, p: int) {
    var t := p * (|s| - 1);
    var k, r := t / 100, t % 100;
    && 0 <= k < |s|
    && boundary == if k == |s| - 1 then s[k] else s[k] + r as real / 100.0 * (s[k + 1] - s[k])
  }

  lemma BoundaryIsAmong(s: seq<real>, p: int)
    requires s != [] && 0 <= p <= 100
    ensures BoundaryAmong(Boundary(s, p), s, p)
  {
    var t := p * (|s| - 1);
    PercentOf(p, |s| - 1);
    BoundaryIs(s, p, t / 100, t % 100);
  }

  lemma PercentileOfReceived(s: seq<real>, all: seq<real>, p: int)
    requires Sorted(s) && s != [] && Permutation(s, all) && 0 <= p <= 100
    ensures Summarizes(PercentileOf(s, p), all)
    ensures BoundaryAmong(PercentileOf(s, p).boundary, s, p)
  {
    PercentileSummarizes(s, p);
    BoundaryIsAmong(s, p);
    SameCounts(PercentileOf(s, p), s, all);
  }

  lemma ReportedPercentile(m: Metric, flushDuration: int, percentiles: seq<int>, i: nat)
    requires Configured(flushDuration, percentiles) && m.metricType.Timer? && m.allValues != []
    requires i < |percentiles|
    ensures var t, s := Processed(m, flushDuration, percentiles), Ascending(m.allValues);
      t.allValues == s && |t.quantiles| == |percentiles|
      && t.quantiles[i] == PercentileOf(s, percentiles[i])
  {
  }

  /** Every percentile of a flushed timer: what it was computed from, and where its boundary lies among the
      values in ascending order. */
  lemma PercentileReport(m: Metric, flushDuration: int, percentiles: seq<int>, i: nat)
    requires Configured(flushDuration, percentiles) && m.metricType.Timer? && m.allValues != []
    requires i < |percentiles|
    ensures var t := Processed(m, flushDuration, percentiles);
      && i < |t.quantiles| && t.quantiles[i].quantile == percentiles[i]
      && Summarizes(t.quantiles[i], m.allValues)
      && BoundaryAmong(t.quantiles[i].boundary, t.allValues, percentiles[i])
  {
    var s := Ascending(m.allValues);
    ReportedPercentile(m, flushDuration, percentiles, i);
    PercentileOfReceived(s, m.allValues, percentiles[i]);
  }

  lemma SameCounts(q: MetricQuantile, a: seq<real>, b: seq<real>)
    requires Summarizes(q, a) && Permutation(a, b)
    ensures Summarizes(q, b)
  {
  }

  /** What processing never touches, and what it does to the values. */
  lemma ProcessedKeeps(m: Metric, flushDuration: int, percentiles: seq<int>)
    requires Configured(flushDuration, percentiles) && Processable(m)
    ensures var r := Processed(m, flushDuration, percentiles);
      && r.key == m.key && r.metricType == m.metricType && r.totalHits == m.totalHits
      && r.sampleRate == m.sampleRate && r.flushTime == m.flushTime
      && Sorted(r.allValues) && Permutation(r.allValues, m.allValues)
      && (!m.metricType.Set? ==> r.lastValue == m.lastValue)
  {
  }

  /** The median and the mean of a gauge or a timer are those of the values received. */
  lemma MiddleReport(m: Metric, flushDuration: int, percentiles: seq<int>)
    requires Configured(flushDuration, percentiles) && Processable(m)
    requires m.metricType.Gauge? || m.metricType.Timer?
    ensures var r := Processed(m, flushDuration, percentiles);
      && r.medianValue == Median(r.allValues) && r.meanValue == Average(m.allValues)
      && Sorted(r.allValues) && Permutation(r.allValues, m.allValues)
  {
    AveragePermutation(Ascending(m.allValues), m.allValues);
  }
}
