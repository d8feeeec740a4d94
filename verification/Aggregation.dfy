/** statsgod/metric.go `AggregateMetric`: folding metrics into one entry a key. */
module Aggregation {
  import opened Metrics

  type Store = map<string, Metric>

  /** An existing entry that takes in one more metric. The incoming type decides what happens to the
      last value, the stored type stays. */
  function Merge(existing: Metric, metric: Metric): Metric {
    existing.(
      totalHits := existing.totalHits + metric.totalHits,
      allValues := existing.allValues + [metric.lastValue],
      lastValue :=
        if metric.metricType.Counter? then existing.lastValue + metric.lastValue * metric.totalHits
        else metric.lastValue)
  }

  function Aggregated(metrics: Store, metric: Metric): Store {
    metrics[metric.key := if metric.key in metrics then Merge(metrics[metric.key], metric) else metric]
  }

  class MetricMap {
    var metrics: Store

    constructor ()
      ensures metrics == map[]
    {
      metrics := map[];
    }

    method AggregateMetric(metric: Metric)
      modifies this
      ensures metrics == Aggregated(old(metrics), metric)
    {
      if metric.key in metrics {
        var existing := metrics[metric.key];
        existing := existing.(totalHits := existing.totalHits + metric.totalHits);
        existing := existing.(allValues := existing.allValues + [metric.lastValue]);
        match metric.metricType {
          case Counter =>
            existing := existing.(lastValue := existing.lastValue + metric.lastValue * metric.totalHits);
          case Gauge => existing := existing.(lastValue := metric.lastValue);
          case Set => existing := existing.(lastValue := metric.lastValue);
          case Timer => existing := existing.(lastValue := metric.lastValue);
        }
        assert existing == Merge(metrics[metric.key], metric);
        metrics := metrics[metric.key := existing];
      } else {
        metrics := metrics[metric.key := metric];
      }
    }
  }

  // ---------- The store is a fold of each key's own history ----------

  /** The store after a history of metrics, from empty. */
  function StoreOf(history: seq<Metric>): Store {
    if history == [] then map[]
    else Aggregated(StoreOf(history[..|history| - 1]), history[|history| - 1])
  }

  /** The part of a history that carries one key. */
  function OfKey(history: seq<Metric>, key: string): seq<Metric> {
    if history == [] then []
    else
      var m := history[|history| - 1];
      OfKey(history[..|history| - 1], key) + if m.key == key then [m] else []
  }

  function FoldOf(ms: seq<Metric>): Metric
    requires ms != []
  {
    if |ms| == 1 then ms[0] else Merge(FoldOf(ms[..|ms| - 1]), ms[|ms| - 1])
  }

  /** What is stored under a key depends on that key's metrics alone. */
  lemma {:induction false} StoreIsPerKeyFold(history: seq<Metric>, key: string)
    ensures key in StoreOf(history) <==> OfKey(history, key) != []
    ensures key in StoreOf(history) ==> StoreOf(history)[key] == FoldOf(OfKey(history, key))
  {
    if history != [] {
      var front, m := history[..|history| - 1], history[|history| - 1];
      StoreIsPerKeyFold(front, key);
      if m.key == key {
        var ms := OfKey(front, key);
        assert OfKey(history, key) == ms + [m];
        assert (ms + [m])[..|ms|] == ms;
        assert ms == [] ==> FoldOf(ms + [m]) == m;
      } else {
        assert OfKey(history, key) == OfKey(front, key);
      }
    }
  }

  lemma {:induction false} OfKeyCarries(history: seq<Metric>, key: string)
    ensures forall m :: m in OfKey(history, key) ==> m.key == key && m in history
  {
    if history != [] {
      OfKeyCarries(history[..|history| - 1], key);
    }
  }

  // ---------- The fold in closed form ----------

  function Hits(ms: seq<Metric>): real {
    if ms == [] then 0.0 else Hits(ms[..|ms| - 1]) + ms[|ms| - 1].totalHits
  }

  function LastValues(ms: seq<Metric>): seq<real> {
    seq(|ms|, i requires 0 <= i < |ms| => ms[i].lastValue)
  }

  /** The sum of values inflated by their hits. */
  function Inflated(ms: seq<Metric>): real {
    if ms == [] then 0.0
    else Inflated(ms[..|ms| - 1]) + ms[|ms| - 1].lastValue * ms[|ms| - 1].totalHits
  }

  /** The last metric that set the stored value outright: the first of the window, or a later one that
      is not a counter. */
  function LastSet(ms: seq<Metric>): (j: nat)
    requires ms != []
    ensures j < |ms|
    ensures j == 0 || !ms[j].metricType.Counter?
    ensures forall i :: j < i < |ms| ==> ms[i].metricType.Counter?
  {
    if |ms| == 1 || !ms[|ms| - 1].metricType.Counter? then |ms| - 1 else LastSet(ms[..|ms| - 1])
  }

  /** For any mixture of types: identity from the first metric, every value in arrival order, all hits
      added up, and a last value that is whatever was last set plus the inflated counters since. */
  lemma {:induction false} FoldClosedForm(ms: seq<Metric>)
    requires ms != []
    ensures var f := FoldOf(ms);
      && f.key == ms[0].key && f.metricType == ms[0].metricType && f.sampleRate == ms[0].sampleRate
      && f.quantiles == ms[0].quantiles
      && f.allValues == ms[0].allValues + LastValues(ms[1..])
      && f.totalHits == Hits(ms)
      && f.lastValue == ms[LastSet(ms)].lastValue + Inflated(ms[LastSet(ms) + 1..])
  {
    if |ms| == 1 {
      assert ms[..0] == [];
      assert ms[0].allValues + [] == ms[0].allValues;
    } else {
      var front, m := ms[..|ms| - 1], ms[|ms| - 1];
      FoldClosedForm(front);
      assert LastValues(ms[1..]) == LastValues(front[1..]) + [m.lastValue];
      assert ms[0].allValues + (LastValues(front[1..]) + [m.lastValue])
          == (ms[0].allValues + LastValues(front[1..])) + [m.lastValue];
      LastSetNext(ms);
    }
  }

  lemma LastSetNext(ms: seq<Metric>)
    requires |ms| > 1
    ensures var front, m := ms[..|ms| - 1], ms[|ms| - 1];
      ms[LastSet(ms)].lastValue + Inflated(ms[LastSet(ms) + 1..]) ==
      if m.metricType.Counter?
      then front[LastSet(front)].lastValue + Inflated(front[LastSet(front) + 1..]) + m.lastValue * m.totalHits
      else m.lastValue
  {
    var front, m, j := ms[..|ms| - 1], ms[|ms| - 1], LastSet(ms);
    if m.metricType.Counter? {
      assert ms[j + 1..][..|ms[j + 1..]| - 1] == front[j + 1..];
    }
  }

  ghost predicate AllOfType(ms: seq<Metric>, t: MetricType) {
    forall m :: m in ms ==> m.metricType == t
  }

  /** Gauges, sets and timers keep the last value. */
  lemma LastValueKept(ms: seq<Metric>, t: MetricType)
    requires ms != [] && AllOfType(ms, t) && !t.Counter?
    ensures FoldOf(ms).lastValue == ms[|ms| - 1].lastValue
  {
    if |ms| > 1 {
      assert ms[|ms| - 1] in ms;
    }
  }

  lemma {:induction false} InflatedSplit(ms: seq<Metric>)
    requires ms != []
    ensures Inflated(ms) == ms[0].lastValue * ms[0].totalHits + Inflated(ms[1..])
  {
    if |ms| == 1 {
      assert ms[..0] == [];
    } else {
      var front := ms[..|ms| - 1];
      InflatedSplit(front);
      assert ms[1..][..|ms[1..]| - 1] == front[1..];
    }
  }

  /** Counters add up inflated values, except that the first sample of a window goes in as it came. */
  lemma CounterValue(ms: seq<Metric>)
    requires ms != [] && AllOfType(ms, Counter)
    ensures FoldOf(ms).lastValue + ms[0].lastValue * (ms[0].totalHits - 1.0) == Inflated(ms)
  {
    FoldClosedForm(ms);
    var j := LastSet(ms);
    assert ms[j] in ms;
    assert j == 0;
    InflatedSplit(ms);
  }

  /** The documentation promises the inflated sum. It is what a window holds exactly when its first
      sample was not inflated or was zero. */
  lemma CounterIsInflatedSumIff(ms: seq<Metric>)
    requires ms != [] && AllOfType(ms, Counter)
    ensures FoldOf(ms).lastValue == Inflated(ms) <==> ms[0].totalHits == 1.0 || ms[0].lastValue == 0.0
  {
    CounterValue(ms);
    ExcessIsZero(FoldOf(ms).lastValue, Inflated(ms), ms[0].lastValue, ms[0].totalHits);
  }

  lemma ExcessIsZero(stored: real, inflated: real, v: real, h: real)
    requires stored + v * (h - 1.0) == inflated
    ensures stored == inflated <==> h == 1.0 || v == 0.0
  {
    ZeroProduct(v, h - 1.0);
  }

  lemma ZeroProduct(x: real, y: real)
    ensures x * y == 0.0 <==> x == 0.0 || y == 0.0
  {
    if x * y == 0.0 && y != 0.0 {
      assert x == (x * y) / y;
    }
  }

  /** One counter sent at rate one half is stored as 1, not as 2. */
  lemma FirstSampleNotInflated()
    ensures var ms := [Sample("k", Counter, 1.0, 0.5)];
      FoldOf(ms).lastValue == 1.0 && Inflated(ms) == 2.0
  {
    var ms := [Sample("k", Counter, 1.0, 0.5)];
    assert ms[..0] == [];
  }
}
