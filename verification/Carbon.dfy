/** statsgod/relay.go `SetPrefixesAndSuffixes`, `ApplyPrefixAndSuffix`, `CarbonRelay.Relay` and the
    payload of `sendCarbonMetric`. */
module Carbon {
  import opened Wrappers
  import opened Decimal
  import opened Metrics
  import opened Processing

  datatype Namespace = ForCounter | ForGauge | ForRate | ForSet | ForTimer

  const NAMESPACES := {ForCounter, ForGauge, ForRate, ForSet, ForTimer}

  datatype TypeNames = TypeNames(
    counters: string, gauges: string, rates: string, sets: string, timers: string)
  {
    function Of(ns: Namespace): string {
      match ns
      case ForCounter => counters
      case ForGauge => gauges
      case ForRate => rates
      case ForSet => sets
      case ForTimer => timers
    }
  }

  datatype Config = Config(prefix: string, prefixes: TypeNames, suffix: string, suffixes: TypeNames)

  function GlobalPrefix(c: Config): string {
    if c.prefix != "" then c.prefix + "." else ""
  }

  function GlobalSuffix(c: Config): string {
    if c.suffix != "" then "." + c.suffix else ""
  }

  function PrefixOf(c: Config, ns: Namespace): string {
    if c.prefixes.Of(ns) != "" then GlobalPrefix(c) + (c.prefixes.Of(ns) + ".") else GlobalPrefix(c)
  }

  function SuffixOf(c: Config, ns: Namespace): string {
    if c.suffixes.Of(ns) != "" then "." + c.suffixes.Of(ns) + GlobalSuffix(c) else GlobalSuffix(c)
  }

  function FullName(c: Config, ns: Namespace, base: string): string {
    PrefixOf(c, ns) + base + SuffixOf(c, ns)
  }

  /** What one call of `sendCarbonMetric` is asked to send. */
  datatype Request = Request(name: string, value: real, time: int)

  /** The line `sendCarbonMetric` writes; the value text is what `FormatFloat` made of the value. */
  function Payload(key: string, valueText: string, time: string): string {
    key + " " + valueText + " " + time + "\n"
  }

  class CarbonRelay {
    var FlushInterval: int
    var Percentile: seq<int>
    var Prefixes: map<Namespace, string>
    var Suffixes: map<Namespace, string>

    constructor (flushInterval: int, percentile: seq<int>)
      ensures FlushInterval == flushInterval && Percentile == percentile
    {
      FlushInterval, Percentile := flushInterval, percentile;
      Prefixes, Suffixes := map[], map[];
    }

    ghost predicate NamesAs(c: Config)
      reads this
    {
      && Prefixes.Keys == NAMESPACES && Suffixes.Keys == NAMESPACES
      && forall ns :: ns in NAMESPACES ==>
           Prefixes[ns] == PrefixOf(c, ns) && Suffixes[ns] == SuffixOf(c, ns)
    }

    /** The first loop of `SetPrefixesAndSuffixes`. */
    method FillPrefixes(c: Config, prefix: string)
      requires prefix == GlobalPrefix(c)
      modifies this`Prefixes
      ensures Prefixes.Keys == NAMESPACES
      ensures forall ns :: ns in NAMESPACES ==> Prefixes[ns] == PrefixOf(c, ns)
    {
      Prefixes := map[];
      var left := NAMESPACES;
      while left != {}
        invariant left <= NAMESPACES && Prefixes.Keys == NAMESPACES - left
        invariant forall ns :: ns in Prefixes ==> Prefixes[ns] == PrefixOf(c, ns)
        decreases left
      {
        var ns :| ns in left;
        Prefixes := Prefixes[ns := prefix];
        if c.prefixes.Of(ns) != "" {
          Prefixes := Prefixes[ns := prefix + (c.prefixes.Of(ns) + ".")];
        }
        left := left - {ns};
      }
    }

    /** The second loop of `SetPrefixesAndSuffixes`. */
    method FillSuffixes(c: Config, suffix: string)
      requires suffix == GlobalSuffix(c)
      modifies this`Suffixes
      ensures Suffixes.Keys == NAMESPACES
      ensures forall ns :: ns in NAMESPACES ==> Suffixes[ns] == SuffixOf(c, ns)
    {
      Suffixes := map[];
      var left := NAMESPACES;
      while left != {}
        invariant left <= NAMESPACES && Suffixes.Keys == NAMESPACES - left
        invariant forall ns :: ns in Suffixes ==> Suffixes[ns] == SuffixOf(c, ns)
        decreases left
      {
        var ns :| ns in left;
        Suffixes := Suffixes[ns := suffix];
        if c.suffixes.Of(ns) != "" {
          Suffixes := Suffixes[ns := "." + c.suffixes.Of(ns) + suffix];
        }
        left := left - {ns};
      }
    }

    method SetPrefixesAndSuffixes(c: Config)
      modifies this`Prefixes, this`Suffixes
      ensures NamesAs(c)
    {
      var prefix, suffix := "", "";
      if c.prefix != "" {
        prefix := c.prefix + ".";
      }
      FillPrefixes(c, prefix);
      if c.suffix != "" {
        suffix := "." + c.suffix;
      }
      FillSuffixes(c, suffix);
    }

    function ApplyPrefixAndSuffix(namespace: string, ns: Namespace): string
      requires ns in Prefixes && ns in Suffixes
      reads this
    {
      Prefixes[ns] + namespace + Suffixes[ns]
    }

    /** The statistics of a timer, first the cumulative ones, then those of each percentile. */
    method RelayTimer(m: Metric, ghost c: Config) returns (requests: seq<Request>)
      requires NamesAs(c) && m.metricType.Timer?
      ensures requests == RequestsOf(c, m)
    {
      var time := m.flushTime;
      requests := [
        Request(ApplyPrefixAndSuffix(m.key, ForRate), m.valuesPerSecond, time),
        Request(ApplyPrefixAndSuffix(m.key + ".mean_value", ForTimer), m.meanValue, time),
        Request(ApplyPrefixAndSuffix(m.key + ".median_value", ForTimer), m.medianValue, time),
        Request(ApplyPrefixAndSuffix(m.key + ".max_value", ForTimer), m.maxValue, time),
        Request(ApplyPrefixAndSuffix(m.key + ".min_value", ForTimer), m.minValue, time)];
      CumulativeRequests(c, m);
      for i := 0 to |m.quantiles|
        invariant requests == RequestsOf(c, m.(quantiles := m.quantiles[..i]))
      {
        var q := m.quantiles[i];
        var qkey := FormatInt(q.quantile);
        QuantileRequests(c, m, i);
        OneQuantileRequests(c, m.key, q, time);
        requests := requests + [
          Request(ApplyPrefixAndSuffix(m.key + (".mean_" + qkey), ForTimer), q.mean, time),
          Request(ApplyPrefixAndSuffix(m.key + (".median_" + qkey), ForTimer), q.median, time),
          Request(ApplyPrefixAndSuffix(m.key + (".upper_" + qkey), ForTimer), q.max, time),
          Request(ApplyPrefixAndSuffix(m.key + (".sum_" + qkey), ForTimer), q.sum, time)];
      }
      assert m.quantiles[..|m.quantiles|] == m.quantiles;
    }

    /** The requests of one metric, in the order they are sent; the metric itself is the caller's copy. */
    method Relay(metric: Metric, ghost c: Config) returns (requests: seq<Request>)
      requires NamesAs(c) && Configured(FlushInterval, Percentile) && Processable(metric)
      ensures requests == RequestsOf(c, Processed(metric, FlushInterval, Percentile))
    {
      var copy := new Ref(metric);
      ProcessMetric(copy, FlushInterval, Percentile);
      var m := copy.value;
      var time := m.flushTime;
      match m.metricType {
        case Gauge =>
          requests := [Request(ApplyPrefixAndSuffix(m.key, ForGauge), m.lastValue, time)];
        case Counter =>
          requests := [Request(ApplyPrefixAndSuffix(m.key, ForRate), m.valuesPerSecond, time)];
          requests := requests + [Request(ApplyPrefixAndSuffix(m.key, ForCounter), m.lastValue, time)];
        case Set =>
          requests := [Request(ApplyPrefixAndSuffix(m.key, ForSet), m.lastValue, time)];
        case Timer =>
          requests := RelayTimer(m, c);
      }
    }
  }

  // ---------- The requests of a metric ----------

  /** A statistic of a timer; its name after the last dot is word_qualifier. */
  datatype Stat = Stat(word: string, qualifier: string, value: real)

  function StatName(word: string, qualifier: string): string {
    word + "_" + qualifier
  }

  function CumulativeStats(m: Metric): seq<Stat> {
    [Stat("mean", "value", m.meanValue), Stat("median", "value", m.medianValue),
     Stat("max", "value", m.maxValue), Stat("min", "value", m.minValue)]
  }

  function StatsOf(q: MetricQuantile): seq<Stat> {
    var qkey := FormatInt(q.quantile);
    [Stat("mean", qkey, q.mean), Stat("median", qkey, q.median),
     Stat("upper", qkey, q.max), Stat("sum", qkey, q.sum)]
  }

  function QuantileStats(quantiles: seq<MetricQuantile>): (r: seq<Stat>)
    ensures |r| == 4 * |quantiles|
  {
    if quantiles == [] then []
    else QuantileStats(quantiles[..|quantiles| - 1]) + StatsOf(quantiles[|quantiles| - 1])
  }

  /** A namespace and the name inside it. */
  datatype Point = Point(ns: Namespace, base: string, value: real)

  function TimerPoints(key: string, stats: seq<Stat>): seq<Point> {
    seq(|stats|, i requires 0 <= i < |stats| =>
          Point(ForTimer, key + "." + StatName(stats[i].word, stats[i].qualifier), stats[i].value))
  }

  function PointsOf(m: Metric): seq<Point> {
    match m.metricType
    case Gauge => [Point(ForGauge, m.key, m.lastValue)]
    case Counter => [Point(ForRate, m.key, m.valuesPerSecond), Point(ForCounter, m.key, m.lastValue)]
    case Set => [Point(ForSet, m.key, m.lastValue)]
    case Timer =>
      [Point(ForRate, m.key, m.valuesPerSecond)]
      + TimerPoints(m.key, CumulativeStats(m) + QuantileStats(m.quantiles))
  }

  function Map<A, B>(f: A -> B, s: seq<A>): (r: seq<B>)
    ensures |r| == |s| && forall i :: 0 <= i < |s| ==> r[i] == f(s[i])
  {
    seq(|s|, i requires 0 <= i < |s| => f(s[i]))
  }

  lemma MapAppend<A, B>(f: A -> B, a: seq<A>, b: seq<A>)
    ensures Map(f, a + b) == Map(f, a) + Map(f, b)
  {
  }

  function ToRequest(c: Config, time: int): Point -> Request {
    (p: Point) => Request(FullName(c, p.ns, p.base), p.value, time)
  }

  function ToRequests(c: Config, points: seq<Point>, time: int): seq<Request> {
    Map(ToRequest(c, time), points)
  }

  function RequestsOf(c: Config, m: Metric): seq<Request> {
    ToRequests(c, PointsOf(m), m.flushTime)
  }

  lemma StatPath(key: string, path: string, word: string, qualifier: string)
    requires path == "." + word + "_" + qualifier
    ensures key + path == key + "." + StatName(word, qualifier)
  {
  }

  function StatRequest(c: Config, key: string, s: Stat, time: int): Request {
    Request(FullName(c, ForTimer, key + "." + StatName(s.word, s.qualifier)), s.value, time)
  }

  lemma StatRequests(c: Config, key: string, stats: seq<Stat>, time: int)
    requires |stats| == 4
    ensures ToRequests(c, TimerPoints(key, stats), time) == [
              StatRequest(c, key, stats[0], time), StatRequest(c, key, stats[1], time),
              StatRequest(c, key, stats[2], time), StatRequest(c, key, stats[3], time)]
  {
  }

  lemma ToRequestsAppend(c: Config, a: seq<Point>, b: seq<Point>, time: int)
    ensures ToRequests(c, a + b, time) == ToRequests(c, a, time) + ToRequests(c, b, time)
  {
    MapAppend(ToRequest(c, time), a, b);
  }

  lemma TimerPointsAppend(key: string, a: seq<Stat>, b: seq<Stat>)
    ensures TimerPoints(key, a + b) == TimerPoints(key, a) + TimerPoints(key, b)
  {
  }

  lemma CumulativeRequests(c: Config, m: Metric)
    requires m.metricType.Timer?
    ensures RequestsOf(c, m.(quantiles := m.quantiles[..0])) == [
              Request(FullName(c, ForRate, m.key), m.valuesPerSecond, m.flushTime),
              Request(FullName(c, ForTimer, m.key + ".mean_value"), m.meanValue, m.flushTime),
              Request(FullName(c, ForTimer, m.key + ".median_value"), m.medianValue, m.flushTime),
              Request(FullName(c, ForTimer, m.key + ".max_value"), m.maxValue, m.flushTime),
              Request(FullName(c, ForTimer, m.key + ".min_value"), m.minValue, m.flushTime)]
  {
    StatPath(m.key, ".mean_value", "mean", "value");
    StatPath(m.key, ".median_value", "median", "value");
    StatPath(m.key, ".max_value", "max", "value");
    StatPath(m.key, ".min_value", "min", "value");
    var stats := CumulativeStats(m);
    assert stats + QuantileStats(m.quantiles[..0]) == stats;
    ToRequestsAppend(c, [Point(ForRate, m.key, m.valuesPerSecond)], TimerPoints(m.key, stats), m.flushTime);
    StatRequests(c, m.key, stats, m.flushTime);
  }

  lemma QuantileRequests(c: Config, m: Metric, i: nat)
    requires m.metricType.Timer? && i < |m.quantiles|
    ensures RequestsOf(c, m.(quantiles := m.quantiles[..i + 1]))
         == RequestsOf(c, m.(quantiles := m.quantiles[..i]))
            + ToRequests(c, TimerPoints(m.key, StatsOf(m.quantiles[i])), m.flushTime)
  {
    var front, q := m.quantiles[..i], m.quantiles[i];
    assert m.quantiles[..i + 1] == front + [q];
    assert (front + [q])[..i] == front;
    var stats, more := CumulativeStats(m) + QuantileStats(front), StatsOf(q);
    assert CumulativeStats(m) + QuantileStats(front + [q]) == stats + more;
    TimerPointsAppend(m.key, stats, more);
    var rate := [Point(ForRate, m.key, m.valuesPerSecond)];
    assert rate + (TimerPoints(m.key, stats) + TimerPoints(m.key, more))
        == (rate + TimerPoints(m.key, stats)) + TimerPoints(m.key, more);
    ToRequestsAppend(c, rate + TimerPoints(m.key, stats), TimerPoints(m.key, more), m.flushTime);
  }

  lemma OneQuantileRequests(c: Config, key: string, q: MetricQuantile, time: int)
    ensures var qkey := FormatInt(q.quantile);
      ToRequests(c, TimerPoints(key, StatsOf(q)), time) == [
        Request(FullName(c, ForTimer, key + (".mean_" + qkey)), q.mean, time),
        Request(FullName(c, ForTimer, key + (".median_" + qkey)), q.median, time),
        Request(FullName(c, ForTimer, key + (".upper_" + qkey)), q.max, time),
        Request(FullName(c, ForTimer, key + (".sum_" + qkey)), q.sum, time)]
  {
    var qkey := FormatInt(q.quantile);
    StatPath(key, ".mean_" + qkey, "mean", qkey);
    StatPath(key, ".median_" + qkey, "median", qkey);
    StatPath(key, ".upper_" + qkey, "upper", qkey);
    StatPath(key, ".sum_" + qkey, "sum", qkey);
    StatRequests(c, key, StatsOf(q), time);
  }
}
