/** The `Metric` and `MetricQuantile` structs of statsgod/metric.go. */
module Metrics {
  datatype MetricType = Counter | Gauge | Set | Timer

  datatype MetricQuantile = MetricQuantile(
    quantile: int,
    boundary: real,
    allValues: seq<real>,
    mean: real,
    median: real,
    max: real,
    sum: real)

  datatype Metric = Metric(
    key: string,
    metricType: MetricType,
    totalHits: real,
    lastValue: real,
    allValues: seq<real>,
    sampleRate: real,
    valuesPerSecond: real,
    minValue: real,
    maxValue: real,
    meanValue: real,
    medianValue: real,
    quantiles: seq<MetricQuantile>,
    flushTime: int)

  /** A metric as the parser leaves it: one value, everything derived still zero. */
  function Sample(key: string, metricType: MetricType, value: real, rate: real): Metric
    requires rate > 0.0
  {
    Metric(key, metricType, if rate < 1.0 then 1.0 / rate else 1.0, value, [value], rate,
           0.0, 0.0, 0.0, 0.0, 0.0, [], 0)
  }
}
