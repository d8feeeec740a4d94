/** What the order of arrival within one window changes in the requests a flush sends. */
module ArrivalOrder {
  import opened Metrics
  import opened Aggregation
  import opened Statistics
  import opened Processing
  import opened Carbon
  import opened Reports

  /** Two windows of one key and one type with the same parsed metrics, in any two orders. */
  ghost predicate Reordered(ms: seq<Metric>, other: seq<Metric>, key: string, t: MetricType) {
    Window(ms, key, t) && multiset(ms) == multiset(other)
  }

  lemma ReorderedBack(ms: seq<Metric>, other: seq<Metric>, key: string, t: MetricType)
    requires Reordered(ms, other, key, t)
    ensures Reordered(other, ms, key, t) && |other| == |ms|
  {
    assert |ms| == |multiset(ms)| == |multiset(other)| == |other|;
    forall m ensures m in other <==> m in ms {
      assert m in multiset(other) <==> m in multiset(ms);
    }
  }

  // ---------- Sums over a window do not depend on its order ----------

  lemma MapMiddle(f: Metric -> real, a: seq<Metric>, m: Metric, b: seq<Metric>)
    ensures multiset(Map(f, a + [m] + b)) == multiset(Map(f, a + b)) + multiset{f(m)}
  {
    assert Map(f, a + [m] + b) == Map(f, a) + [f(m)] + Map(f, b);
    assert Map(f, a + b) == Map(f, a) + Map(f, b);
  }

  lemma {:induction false} MapPermutation(f: Metric -> real, a: seq<Metric>, b: seq<Metric>)
    requires multiset(a) == multiset(b)
    ensures Permutation(Map(f, a), Map(f, b))
    decreases |a|
  {
    if a == [] {
      assert |b| == |multiset(b)| == |multiset(a)| == 0;
    } else {
      var front, m := a[..|a| - 1], a[|a| - 1];
      assert a == front + [m] + [];
      assert m in multiset(b);
      var i :| 0 <= i < |b| && b[i] == m;
      var p, q := b[..i], b[i + 1..];
      assert b == p + [m] + q;
      assert front + [] == front;
      RemoveOne(front, [], p, q, m);
      MapPermutation(f, front, p + q);
      MapMiddle(f, front, m, []);
      MapMiddle(f, p, m, q);
    }
  }

  lemma CountMiddle<T>(a: seq<T>, x: T, b: seq<T>)
    ensures multiset(a + [x] + b) == multiset(a + b) + multiset{x}
  {
  }

  lemma CancelOne<T>(p: multiset<T>, q: multiset<T>, one: multiset<T>)
    requires p + one == q + one
    ensures p == q
  {
    assert p == (p + one) - one;
    assert q == (q + one) - one;
  }

  lemma RemoveOne<T>(a: seq<T>, b: seq<T>, p: seq<T>, q: seq<T>, x: T)
    requires multiset(a + [x] + b) == multiset(p + [x] + q)
    ensures multiset(a + b) == multiset(p + q)
  {
    CountMiddle(a, x, b);
    CountMiddle(p, x, q);
    CancelOne(multiset(a + b), multiset(p + q), multiset{x});
  }

  function HitsOf(): Metric -> real {
    (m: Metric) => m.totalHits
  }

  function InflatedOf(): Metric -> real {
    (m: Metric) => m.lastValue * m.totalHits
  }

  function ValueOf(): Metric -> real {
    (m: Metric) => m.lastValue
  }

  lemma {:induction false} HitsTotal(ms: seq<Metric>)
    ensures Hits(ms) == Total(Map(HitsOf(), ms))
  {
    if ms != [] {
      HitsTotal(ms[..|ms| - 1]);
      assert Map(HitsOf(), ms)[..|ms| - 1] == Map(HitsOf(), ms[..|ms| - 1]);
    }
  }

  lemma {:induction false} InflatedTotal(ms: seq<Metric>)
    ensures Inflated(ms) == Total(Map(InflatedOf(), ms))
  {
    if ms != [] {
      InflatedTotal(ms[..|ms| - 1]);
      assert Map(InflatedOf(), ms)[..|ms| - 1] == Map(InflatedOf(), ms[..|ms| - 1]);
    }
  }

  lemma SameHits(ms: seq<Metric>, other: seq<Metric>)
    requires multiset(ms) == multiset(other)
    ensures Hits(ms) == Hits(other)
  {
    MapPermutation(HitsOf(), ms, other);
    TotalPermutation(Map(HitsOf(), ms), Map(HitsOf(), other));
    HitsTotal(ms);
    HitsTotal(other);
  }

  lemma SameInflated(ms: seq<Metric>, other: seq<Metric>)
    requires multiset(ms) == multiset(other)
    ensures Inflated(ms) == Inflated(other)
  {
    MapPermutation(InflatedOf(), ms, other);
    TotalPermutation(Map(InflatedOf(), ms), Map(InflatedOf(), other));
    InflatedTotal(ms);
    InflatedTotal(other);
  }

  lemma SameValues(ms: seq<Metric>, other: seq<Metric>)
    requires multiset(ms) == multiset(other)
    ensures Ascending(LastValues(ms)) == Ascending(LastValues(other))
    ensures Distinct(LastValues(ms)) == Distinct(LastValues(other))
  {
    assert LastValues(ms) == Map(ValueOf(), ms) && LastValues(other) == Map(ValueOf(), other);
    MapPermutation(ValueOf(), ms, other);
    SortedUnique(Ascending(LastValues(ms)), Ascending(LastValues(other)));
    DistinctPermutation(LastValues(ms), LastValues(other));
  }

  /** The part of a fold that no order changes. */
  lemma SameFold(ms: seq<Metric>, other: seq<Metric>, key: string, t: MetricType)
    requires Reordered(ms, other, key, t)
    ensures other != []
    ensures var f, g := FoldOf(ms), FoldOf(other);
      && f.key == g.key == key && f.metricType == g.metricType == t
      && f.totalHits == g.totalHits
      && f.allValues != [] && g.allValues != [] && Ascending(f.allValues) == Ascending(g.allValues)
      && Distinct(f.allValues) == Distinct(g.allValues)
  {
    ReorderedBack(ms, other, key, t);
    FoldOfWindow(ms, key, t);
    FoldOfWindow(other, key, t);
    SameHits(ms, other);
    SameValues(ms, other);
  }

  // ---------- Sets and timers: nothing ----------

  /** The requests of a set or a timer do not depend on the order of arrival. */
  lemma SetsAndTimersIgnoreOrder(c: Config, ms: seq<Metric>, other: seq<Metric>, key: string, t: MetricType,
                                 time: int, flushDuration: int, percentiles: seq<int>)
    requires Reordered(ms, other, key, t) && (t.Set? || t.Timer?)
    requires Configured(flushDuration, percentiles)
    ensures other != [] && FoldOf(ms).allValues != [] && FoldOf(other).allValues != []
    ensures Sent(c, ms, time, flushDuration, percentiles) == Sent(c, other, time, flushDuration, percentiles)
  {
    ReorderedBack(ms, other, key, t);
    SameFold(ms, other, key, t);
    var f, g := FoldOf(ms).(flushTime := time), FoldOf(other).(flushTime := time);
    SamePoints(f, g, flushDuration, percentiles);
  }

  lemma SamePoints(f: Metric, g: Metric, flushDuration: int, percentiles: seq<int>)
    requires Configured(flushDuration, percentiles) && f.allValues != [] && g.allValues != []
    requires f.key == g.key && f.metricType == g.metricType && (f.metricType.Set? || f.metricType.Timer?)
    requires f.totalHits == g.totalHits && Ascending(f.allValues) == Ascending(g.allValues)
    requires Distinct(f.allValues) == Distinct(g.allValues)
    ensures PointsOf(Processed(f, flushDuration, percentiles)) == PointsOf(Processed(g, flushDuration, percentiles))
  {
  }

  // ---------- Gauges: the last value ----------

  /** Two orders of a gauge send the same if and only if they end with the same value. */
  lemma GaugesSendLast(c: Config, ms: seq<Metric>, other: seq<Metric>, key: string,
                       time: int, flushDuration: int, percentiles: seq<int>)
    requires Reordered(ms, other, key, Gauge) && Configured(flushDuration, percentiles)
    ensures other != [] && FoldOf(ms).allValues != [] && FoldOf(other).allValues != []
    ensures Sent(c, ms, time, flushDuration, percentiles) == Sent(c, other, time, flushDuration, percentiles)
       <==> ms[|ms| - 1].lastValue == other[|other| - 1].lastValue
  {
    ReorderedBack(ms, other, key, Gauge);
    GaugeSends(c, ms, key, time, flushDuration, percentiles);
    GaugeSends(c, other, key, time, flushDuration, percentiles);
  }

  // ---------- Counters: the first sample ----------

  /** What the first sample of a window falls short of its inflated value. */
  function Shortfall(ms: seq<Metric>): real
    requires ms != []
  {
    ms[0].lastValue * (ms[0].totalHits - 1.0)
  }

  /** Two orders of a counter send the same if and only if their first samples fall equally short. */
  lemma CountersSendFirstUninflated(c: Config, ms: seq<Metric>, other: seq<Metric>, key: string,
                                    time: int, flushDuration: int, percentiles: seq<int>)
    requires Reordered(ms, other, key, Counter) && Configured(flushDuration, percentiles)
    ensures other != [] && FoldOf(ms).allValues != [] && FoldOf(other).allValues != []
    ensures Sent(c, ms, time, flushDuration, percentiles) == Sent(c, other, time, flushDuration, percentiles)
       <==> Shortfall(ms) == Shortfall(other)
  {
    ReorderedBack(ms, other, key, Counter);
    CounterSends(c, ms, key, time, flushDuration, percentiles);
    CounterSends(c, other, key, time, flushDuration, percentiles);
    SumsDifferByShortfall(ms, other);
    assert Sent(c, ms, time, flushDuration, percentiles)[1].value == CounterSum(ms);
    assert Sent(c, other, time, flushDuration, percentiles)[1].value == CounterSum(other);
  }

  lemma SumsDifferByShortfall(ms: seq<Metric>, other: seq<Metric>)
    requires ms != [] && other != [] && multiset(ms) == multiset(other)
    ensures CounterSum(ms) == CounterSum(other) <==> Shortfall(ms) == Shortfall(other)
  {
    SameInflated(ms, other);
    SumAndShortfall(ms);
    SumAndShortfall(other);
  }

  lemma SumAndShortfall(ms: seq<Metric>)
    requires ms != []
    ensures CounterSum(ms) + Shortfall(ms) == Inflated(ms)
  {
    InflatedSplit(ms);
    assert ms[0].lastValue * (ms[0].totalHits - 1.0) == ms[0].lastValue * ms[0].totalHits - ms[0].lastValue;
  }

  /** Two gauges, and two counters of which one was sampled, that report differently in either order. */
  lemma OrderMatters()
    ensures var a, b := Sample("k", Gauge, 1.0, 1.0), Sample("k", Gauge, 2.0, 1.0);
      FoldOf([a, b]).lastValue == 2.0 && FoldOf([b, a]).lastValue == 1.0
    ensures var a, b := Sample("k", Counter, 1.0, 1.0), Sample("k", Counter, 1.0, 0.5);
      FoldOf([a, b]).lastValue == 3.0 && FoldOf([b, a]).lastValue == 2.0
  {
    var a, b := Sample("k", Gauge, 1.0, 1.0), Sample("k", Gauge, 2.0, 1.0);
    assert [a, b][..1] == [a] && [b, a][..1] == [b];
    var x, y := Sample("k", Counter, 1.0, 1.0), Sample("k", Counter, 1.0, 0.5);
    assert [x, y][..1] == [x] && [y, x][..1] == [y];
  }
}
