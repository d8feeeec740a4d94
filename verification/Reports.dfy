/** From the samples of one key's window to the requests a flush sends for it, names, values and times
    included, one theorem for each type. */
module Reports {
  import opened Text
  import opened Decimal
  import opened Metrics
  import opened Aggregation
  import opened Statistics
  import opened Quantiles
  import opened Processing
  import opened Carbon
  import opened CarbonNames

  /** Parsed metrics of one key and one type, in order of arrival. */
  ghost predicate Window(ms: seq<Metric>, key: string, t: MetricType) {
    && ms != []
    && forall m :: m in ms ==> m.key == key && m.metricType == t && m.allValues == [m.lastValue]
  }

  /** What a flush sends for a window. */
  ghost function Sent(c: Config, ms: seq<Metric>, time: int, flushDuration: int, percentiles: seq<int>): seq<Request>
    requires ms != [] && FoldOf(ms).allValues != [] && Configured(flushDuration, percentiles)
  {
    RequestsOf(c, Processed(FoldOf(ms).(flushTime := time), flushDuration, percentiles))
  }

  /** The parts of a name that are not empty, joined by dots. */
  function Dotted(c: Config, typePrefix: string, key: string, typeSuffix: string): string {
    Join(NonEmpty([c.prefix, typePrefix, key, typeSuffix, c.suffix]), '.')
  }

  /** Each kind of name takes its own type prefix and type suffix from the configuration. */
  lemma NamesOfTypes(c: Config, key: string)
    requires key != ""
    ensures FullName(c, ForGauge, key) == Dotted(c, c.prefixes.gauges, key, c.suffixes.gauges)
    ensures FullName(c, ForCounter, key) == Dotted(c, c.prefixes.counters, key, c.suffixes.counters)
    ensures FullName(c, ForRate, key) == Dotted(c, c.prefixes.rates, key, c.suffixes.rates)
    ensures FullName(c, ForSet, key) == Dotted(c, c.prefixes.sets, key, c.suffixes.sets)
    ensures FullName(c, ForTimer, key) == Dotted(c, c.prefixes.timers, key, c.suffixes.timers)
  {
    NameIsDotJoin(c, ForGauge, key);
    NameIsDotJoin(c, ForCounter, key);
    NameIsDotJoin(c, ForRate, key);
    NameIsDotJoin(c, ForSet, key);
    NameIsDotJoin(c, ForTimer, key);
  }

  lemma FoldOfWindow(ms: seq<Metric>, key: string, t: MetricType)
    requires Window(ms, key, t)
    ensures var f := FoldOf(ms);
      f.key == key && f.metricType == t && f.totalHits == Hits(ms) && f.allValues == LastValues(ms) != []
  {
    assert ms[0] in ms;
    FoldClosedForm(ms);
    SampleValues(ms);
  }

  // ---------- Gauges, counters and sets ----------

  lemma GaugeRequests(c: Config, f: Metric, flushDuration: int, percentiles: seq<int>)
    requires Configured(flushDuration, percentiles) && f.metricType.Gauge?
    ensures RequestsOf(c, Processed(f, flushDuration, percentiles))
         == [Request(FullName(c, ForGauge, f.key), f.lastValue, f.flushTime)]
  {
  }

  /** A gauge sends the last value received. */
  lemma GaugeSends(c: Config, ms: seq<Metric>, key: string, time: int, flushDuration: int, percentiles: seq<int>)
    requires Window(ms, key, Gauge) && Configured(flushDuration, percentiles)
    ensures FoldOf(ms).allValues != []
    ensures Sent(c, ms, time, flushDuration, percentiles)
         == [Request(FullName(c, ForGauge, key), ms[|ms| - 1].lastValue, time)]
  {
    FoldOfWindow(ms, key, Gauge);
    LastValueKept(ms, Gauge);
    GaugeRequests(c, FoldOf(ms).(flushTime := time), flushDuration, percentiles);
  }

  /** What a counter sends for a sum: the sum per whole second of the flush interval, then the sum. */
  function RateAndSum(c: Config, key: string, sum: real, time: int, flushDuration: int): seq<Request>
    requires flushDuration >= SECOND
  {
    [Request(FullName(c, ForRate, key), sum / (flushDuration / 1_000_000_000) as real, time),
     Request(FullName(c, ForCounter, key), sum, time)]
  }

  lemma CounterRequests(c: Config, f: Metric, flushDuration: int, percentiles: seq<int>)
    requires Configured(flushDuration, percentiles) && f.metricType.Counter?
    ensures RequestsOf(c, Processed(f, flushDuration, percentiles))
         == RateAndSum(c, f.key, f.lastValue, f.flushTime, flushDuration)
  {
  }

  /** The sum a counter reports: the first sample as it came, and the others inflated. */
  function CounterSum(ms: seq<Metric>): real
    requires ms != []
  {
    ms[0].lastValue + Inflated(ms[1..])
  }

  lemma CounterFold(ms: seq<Metric>, key: string)
    requires Window(ms, key, Counter)
    ensures var f := FoldOf(ms);
      && f.key == key && f.metricType == Counter && f.allValues != []
      && f.lastValue == CounterSum(ms)
  {
    FoldOfWindow(ms, key, Counter);
    assert AllOfType(ms, Counter);
    CounterValue(ms);
    InflatedSplit(ms);
  }

  lemma CounterSent(c: Config, f: Metric, key: string, sum: real, time: int, flushDuration: int, percentiles: seq<int>)
    requires Configured(flushDuration, percentiles)
    requires f.metricType.Counter? && f.key == key && f.lastValue == sum
    ensures RequestsOf(c, Processed(f.(flushTime := time), flushDuration, percentiles))
         == RateAndSum(c, key, sum, time, flushDuration)
  {
    CounterRequests(c, f.(flushTime := time), flushDuration, percentiles);
  }

  /** A counter sends its sum, all samples but the first inflated, and first that sum per whole second. */
  lemma CounterSends(c: Config, ms: seq<Metric>, key: string, time: int, flushDuration: int, percentiles: seq<int>)
    requires Window(ms, key, Counter) && Configured(flushDuration, percentiles)
    ensures FoldOf(ms).allValues != []
    ensures Sent(c, ms, time, flushDuration, percentiles) == RateAndSum(c, key, CounterSum(ms), time, flushDuration)
  {
    CounterFold(ms, key);
    CounterSent(c, FoldOf(ms), key, CounterSum(ms), time, flushDuration, percentiles);
  }

  lemma SetRequests(c: Config, f: Metric, flushDuration: int, percentiles: seq<int>)
    requires Configured(flushDuration, percentiles) && f.metricType.Set?
    ensures RequestsOf(c, Processed(f, flushDuration, percentiles))
         == [Request(FullName(c, ForSet, f.key),
                     |Distinct(f.allValues)| as real, f.flushTime)]
  {
  }

  /** A set sends how many different values it received. */
  lemma SetSends(c: Config, ms: seq<Metric>, key: string, time: int, flushDuration: int, percentiles: seq<int>)
    requires Window(ms, key, Set) && Configured(flushDuration, percentiles)
    ensures FoldOf(ms).allValues != []
    ensures Sent(c, ms, time, flushDuration, percentiles)
         == [Request(FullName(c, ForSet, key),
                     |set m | m in ms :: m.lastValue| as real, time)]
  {
    FoldOfWindow(ms, key, Set);
    SetCountsDistinct(ms, flushDuration, percentiles);
    SetRequests(c, FoldOf(ms).(flushTime := time), flushDuration, percentiles);
  }

  // ---------- Timers ----------

  /** The four requests of one percentile. */
  function PercentileRequests(c: Config, key: string, q: MetricQuantile, time: int): seq<Request> {
    var p := FormatInt(q.quantile);
    [Request(FullName(c, ForTimer, key + (".mean_" + p)), q.mean, time),
     Request(FullName(c, ForTimer, key + (".median_" + p)), q.median, time),
     Request(FullName(c, ForTimer, key + (".upper_" + p)), q.max, time),
     Request(FullName(c, ForTimer, key + (".sum_" + p)), q.sum, time)]
  }

  function AllPercentileRequests(c: Config, key: string, qs: seq<MetricQuantile>, time: int): seq<Request> {
    if qs == [] then []
    else AllPercentileRequests(c, key, qs[..|qs| - 1], time) + PercentileRequests(c, key, qs[|qs| - 1], time)
  }

  lemma OnePercentile(c: Config, key: string, q: MetricQuantile, time: int)
    ensures ToRequests(c, TimerPoints(key, StatsOf(q)), time) == PercentileRequests(c, key, q, time)
  {
    OneQuantileRequests(c, key, q, time);
  }

  /** The requests for the timer as a whole. */
  function WholeTimerRequests(c: Config, m: Metric): seq<Request> {
    [Request(FullName(c, ForRate, m.key), m.valuesPerSecond, m.flushTime),
     Request(FullName(c, ForTimer, m.key + ".mean_value"), m.meanValue, m.flushTime),
     Request(FullName(c, ForTimer, m.key + ".median_value"), m.medianValue, m.flushTime),
     Request(FullName(c, ForTimer, m.key + ".max_value"), m.maxValue, m.flushTime),
     Request(FullName(c, ForTimer, m.key + ".min_value"), m.minValue, m.flushTime)]
  }

  lemma WholeTimer(c: Config, m: Metric)
    requires m.metricType.Timer?
    ensures RequestsOf(c, m.(quantiles := m.quantiles[..0])) == WholeTimerRequests(c, m)
  {
    CumulativeRequests(c, m);
  }

  lemma MorePercentiles(c: Config, key: string, qs: seq<MetricQuantile>, n: nat, time: int, whole: seq<Request>)
    requires n < |qs|
    ensures whole + AllPercentileRequests(c, key, qs[..n + 1], time)
         == (whole + AllPercentileRequests(c, key, qs[..n], time)) + PercentileRequests(c, key, qs[n], time)
  {
    assert qs[..n + 1][..n] == qs[..n];
    Associative(whole, AllPercentileRequests(c, key, qs[..n], time), PercentileRequests(c, key, qs[n], time));
  }

  /** The requests when the first `n` percentiles are configured. */
  ghost predicate SendsFirst(c: Config, m: Metric, n: nat)
    requires m.metricType.Timer? && n <= |m.quantiles|
  {
    RequestsOf(c, m.(quantiles := m.quantiles[..n]))
    == WholeTimerRequests(c, m) + AllPercentileRequests(c, m.key, m.quantiles[..n], m.flushTime)
  }

  lemma SendsNone(c: Config, m: Metric)
    requires m.metricType.Timer?
    ensures SendsFirst(c, m, 0)
  {
    WholeTimer(c, m);
    assert WholeTimerRequests(c, m) + [] == WholeTimerRequests(c, m);
  }

  lemma OneMorePercentile(c: Config, m: Metric, n: nat)
    requires m.metricType.Timer? && n < |m.quantiles|
    ensures RequestsOf(c, m.(quantiles := m.quantiles[..n + 1]))
         == RequestsOf(c, m.(quantiles := m.quantiles[..n])) + PercentileRequests(c, m.key, m.quantiles[n], m.flushTime)
  {
    QuantileRequests(c, m, n);
    OnePercentile(c, m.key, m.quantiles[n], m.flushTime);
  }

  lemma SendsNext(c: Config, m: Metric, n: nat)
    requires m.metricType.Timer? && n < |m.quantiles| && SendsFirst(c, m, n)
    ensures SendsFirst(c, m, n + 1)
  {
    OneMorePercentile(c, m, n);
    MorePercentiles(c, m.key, m.quantiles, n, m.flushTime, WholeTimerRequests(c, m));
  }

  lemma {:induction false} SendsAll(c: Config, m: Metric, n: nat)
    requires m.metricType.Timer? && n <= |m.quantiles|
    ensures SendsFirst(c, m, n)
  {
    if n == 0 {
      SendsNone(c, m);
    } else {
      SendsAll(c, m, n - 1);
      SendsNext(c, m, n - 1);
    }
  }

  lemma TimerRequests(c: Config, m: Metric)
    requires m.metricType.Timer?
    ensures RequestsOf(c, m)
         == WholeTimerRequests(c, m) + AllPercentileRequests(c, m.key, m.quantiles, m.flushTime)
  {
    SendsAll(c, m, |m.quantiles|);
    assert m.quantiles[..|m.quantiles|] == m.quantiles;
  }

  /** The records of the configured percentiles of some received values, in configured order. */
  ghost predicate PercentileRecords(qs: seq<MetricQuantile>, all: seq<real>, percentiles: seq<int>) {
    && |qs| == |percentiles|
    && forall i :: 0 <= i < |qs| ==>
         && qs[i].quantile == percentiles[i] && Summarizes(qs[i], all)
         && BoundaryAmong(qs[i].boundary, Ascending(all), percentiles[i])
  }

  lemma TimerRecords(m: Metric, flushDuration: int, percentiles: seq<int>)
    requires Configured(flushDuration, percentiles) && m.metricType.Timer? && m.allValues != []
    ensures PercentileRecords(Processed(m, flushDuration, percentiles).quantiles, m.allValues, percentiles)
  {
    forall i | 0 <= i < |percentiles|
      ensures var q := Processed(m, flushDuration, percentiles).quantiles[i];
        && q.quantile == percentiles[i] && Summarizes(q, m.allValues)
        && BoundaryAmong(q.boundary, Ascending(m.allValues), percentiles[i])
    {
      PercentileReport(m, flushDuration, percentiles, i);
    }
  }

  /** A timer sends the rate of its inflated hits, mean, median, maximum and minimum of the received values,
      and four statistics for each configured percentile. */
  lemma {:induction false} TimerSends(c: Config, ms: seq<Metric>, key: string, time: int, flushDuration: int, percentiles: seq<int>)
    returns (min: real, max: real, qs: seq<MetricQuantile>)
    requires Window(ms, key, Timer) && Configured(flushDuration, percentiles)
    ensures FoldOf(ms).allValues != []
    ensures IsLeast(min, LastValues(ms)) && IsGreatest(max, LastValues(ms))
    ensures PercentileRecords(qs, LastValues(ms), percentiles)
    ensures Sent(c, ms, time, flushDuration, percentiles)
         == [Request(FullName(c, ForRate, key),
                     Hits(ms) / (flushDuration / 1_000_000_000) as real, time),
             Request(FullName(c, ForTimer, key + ".mean_value"), Average(LastValues(ms)), time),
             Request(FullName(c, ForTimer, key + ".median_value"), Median(Ascending(LastValues(ms))), time),
             Request(FullName(c, ForTimer, key + ".max_value"), max, time),
             Request(FullName(c, ForTimer, key + ".min_value"), min, time)]
            + AllPercentileRequests(c, key, qs, time)
  {
    FoldOfWindow(ms, key, Timer);
    var f := FoldOf(ms).(flushTime := time);
    var r := Processed(f, flushDuration, percentiles);
    TimerReport(f, flushDuration, percentiles);
    TimerRecords(f, flushDuration, percentiles);
    TimerRequests(c, r);
    min, max, qs := r.minValue, r.maxValue, r.quantiles;
  }
}
