# statsgod, modelled and proved in Dafny

statsgod is a metrics daemon. Bytes from sockets are cut into lines; each line is authenticated and
parsed into a metric; relay workers aggregate the metrics by key; at every flush each key's entry is
turned into statistics and sent to carbon over a pool of connections. This project models that path
from the socket read to the payload and proves what it keeps.

| file | models |
|---|---|
| `Wrappers.dfy`, `Text.dfy`, `Decimal.dfy` | options, results and pointers; splitting and joining; integers in base ten |
| `Metrics.dfy` | the `Metric` and `MetricQuantile` structs |
| `Parser.dfy` | `ParseMetricString`: five fixed rune arrays filled in one pass |
| `Auth.dfy` | token authentication and the `ParseMetrics` loop |
| `Sockets.dfy` | `readInput` and `readInputUdp` |
| `Aggregation.dfy` | `AggregateMetric` and the fold it amounts to |
| `Statistics.dfy`, `Quantiles.dfy`, `Processing.dfy` | sorting, counting, averaging, percentiles, `ProcessMetric` |
| `Flushing.dfy` | `RelayAllMetrics` and the `RelayMetrics` loop of one worker |
| `Pipeline.dfy`, `Quitting.dfy` | parser, channels and any number of workers as a protocol; the turns of the loops as runs of it, and when everything can stop |
| `PoolProtocol.dfy`, `ConnectionPools.dfy` | the connection pool: the protocol of its workers, and the code that follows it |
| `Carbon.dfy`, `CarbonNames.dfy`, `NameCollisions.dfy` | `CarbonRelay.Relay`, the name space, the payload |
| `Reports.dfy` | from the samples of one key's window to the requests a flush sends for it |
| `ArrivalOrder.dfy` | what the order of arrival changes in the requests of a flush |

Code that changes state step by step is written as methods and classes proved against specification
functions; what those functions guarantee is proved as lemmas. The two concurrent parts, the pool and
the pipeline, are state machines whose steps are the atomic actions of the code, and their theorems
are about every run of any number of workers in any interleaving.

Values are `real`, so claims about statistics are about exact arithmetic. `strconv.ParseFloat` is a
parameter, an arbitrary partial function from texts to numbers. Reads, dials, writes, ticks, clocks
and the quit flag come in as parameters or as nondeterministic steps. A few of the longer functions
are cut into several methods (`Scan` and `RowText` out of `ParseMetricString`, `ReadOnce`, `Reassemble`
and `Send` out of `readInput`, `Attempt` and `BuildPayload` out of `sendCarbonMetric`, `RelayTimer` out of `Relay`,
`Keep`, `Summarize` and `ProcessPercentile` out of `ProcessMetric`, `TakeTurn` out of `RelayMetrics`).

Where the code and its documentation differ, the model follows the code:

- README.md:35 promises that counters are inflated by their sample rate. The first sample of a key
  after a flush is stored as it came. `CounterIsInflatedSumIff` says exactly when the promise holds.
- README.md:43 and README.md:59 promise several metrics over one TCP or Unix connection, separated by newlines. A line is put
  together again only across full 512-byte reads whose tail does not parse, and what is pending when the
  connection ends is dropped. `ConnectionLossless` says, of the stream and where
  its reads end, exactly when the messages are the lines.
- README.md:80 divides a counter's rate by the flush interval in seconds. The code divides by the whole
  seconds in it. `RateOfFractionalInterval` is an input where the two differ; `RateIsPerSecondIff` says
  exactly when they agree.
- README.md:73-80 and README.md:104-110 promise one sum or unique count per flush. With more than one relay
  worker each hands over its own share of a key. `FlushesCoverIntervalsIff`: the promise holds in every
  run if and only if there is at most one worker, the default (statsgod/config.go:137).
- README.md:114 allows any prefix to be empty. If rates and counters have the same type prefix and the
  same type suffix, every counter sends its rate and its count under one name, and only then
  (`EveryCounterRepeatsIff`). `AlwaysDistinctIff` says for every configuration whether the names of all
  flushes are distinct. The results on distinct names of one given flush ask for separating type prefixes:
  none of the five empty, none with a dot, all different.
- statsgod/connectionpool.go:109-138 hands out a `NilConn` when it times out, and closing that panics.
  `CrashReachableIff` and `FewestFailuresToPanic` say exactly when this can happen.
- README.md:79 shows the time before the value. The payload has the value before the time.
- README.md:90-102 does not list the median of each percentile or the rate of a timer; both are sent.

## Model

| member | source | states |
|---|---|---|
| Parser.Scan | statsgod/metric.go:127-147 | the five 512-rune arrays end up holding the fields of the text without blanks, each cut at the first occurrence of its delimiter or at 512 runes; every array access is in bounds |
| Parser.ParseMetricString | statsgod/metric.go:116-186 | the whole parser, errors included, is the field specification interpreted |
| Parser.ParseAccepts | statsgod/metric.go:116-186 | a string parses to m if and only if, blanks aside, it reads key:value\|type and then nothing or a pipe, with a key and value of 1 to 511 runes free of their delimiter, a numeric value and a known type, and m is that sample |
| Parser.AcceptedKey | statsgod/metric.go:131-153 | every accepted key has 1 to 511 runes of the input, none a space, NUL or colon; a shorter string than five runes is never accepted |
| Parser.ParsePrint | statsgod/metric.go:154-185 | parsing key:value\|type\|@rate, however many blanks were inserted, gives back exactly those parts, and hits times rate is 1 |
| Parser.CleanPrint | statsgod/metric.go:131-134 | a printed metric whose parts have no blanks is not changed by deleting blanks, so ParsePrint applies to it as it stands |
| Parser.BlanksDoNotMatter | statsgod/metric.go:132-134 | spaces and NULs inserted anywhere do not change the result |
| Parser.StripDeletes | statsgod/metric.go:131-134 | spaces and NULs are deleted wherever they are, every other character stays in its place |
| Parser.TypeTexts | statsgod/metric.go:260-272 | the four type texts, and no others |
| Parser.MissingRateCountsOnce | statsgod/metric.go:118-176 | a metric without a sample rate, whatever else follows its type, has rate 1 and one hit |
| Parser.UnusableRateCountsOnce | statsgod/metric.go:165-176 | a sample rate that is no number or not in (0, 1] counts as 1 |
| Parser.ParseErrors | statsgod/metric.go:149-163 | exactly which strings miss an element, have a bad value, or have a bad type, checked in this order |
| Auth.Authenticate | statsgod/auth.go:70-89 | the pointer is overwritten with the rest exactly when the string is admitted, else left alone |
| Auth.AdmitsTokens | statsgod/auth.go:75-89 | a string is admitted with a rest if and only if it is token.rest for an enabled dot-free token |
| Auth.AcceptsTokens | statsgod/metric.go:287-294 | with tokens, a line becomes m if and only if it is token.rest with an enabled token and the rest alone reads as m |
| Auth.AcceptsWithoutToken | statsgod/metric.go:287-294 | without authentication, a line becomes m if and only if it reads as m |
| Auth.ConsumedUpToQuit | statsgod/metric.go:281-306 | what the loop consumes is what its turns received up to the first that finds quit set, that one included |
| Auth.Receive | statsgod/metric.go:285-299 | one string: authenticate, then parse what is left |
| Auth.ParseMetrics | statsgod/metric.go:276-307 | the output is the in-order filter-map of authenticate-then-parse over the strings consumed up to quit; failures never end the loop |
| Sockets.Send | statsgod/socket.go:256-260 | of the first count pieces exactly those longer than one byte are sent, in order |
| Sockets.MessagesAreLongFragments | statsgod/socket.go:256-260 | the messages are the fragments longer than one byte, unchanged and in order |
| Sockets.Reassemble | statsgod/socket.go:239-253 | the tail becomes the overflow exactly when the read was full and the tail does not parse |
| Sockets.ReadInput | statsgod/socket.go:218-268 | the buffered loop sends the emitted fragments of the cut stream and keeps its overflow |
| Sockets.BytesConserved | statsgod/socket.go:239-260 | fragments, dropped ones included, followed by the overflow are all bytes read with newlines removed |
| Sockets.DroppedIsRejected | statsgod/socket.go:257-259 | a fragment that is not sent would have been rejected by the parser |
| Sockets.LosslessIffCleanCuts | statsgod/socket.go:230-267 | for any chunking, messages and pending overflow are exactly the lines longer than one byte if and only if every cut that is not carried over falls on a line boundary |
| Sockets.CleanCutsLossless | statsgod/socket.go:239-260 | clean cuts lose and alter no line |
| Sockets.CleanCutsIffGoodReads | statsgod/socket.go:239-253 | the loop's cuts are clean if and only if the reads end well, told from the stream and the read boundaries alone; its overflow at the end is then the line pending in the stream |
| Sockets.ConnectionLossless | statsgod/socket.go:225-267 | for a whole connection, what is sent is exactly the lines longer than one byte if and only if every read that brings anything ends with a line, or fills the buffer with an unfinished line that does not parse, and no such line longer than one byte is pending when the connection ends |
| Sockets.ShortReadCutsALine | statsgod/socket.go:245-253 | a concrete stream of two short reads whose line is not put together again |
| Sockets.ReadInputUdp | statsgod/socket.go:271-282 | a datagram sends exactly its lines longer than one byte |
| Statistics.Sort | statsgod/statistics.go:29-43 | in-place sort with the slice's own comparison and swap yields the ascending arrangement |
| Statistics.SortedUnique | statsgod/statistics.go:35-43 | there is only one sorted arrangement, so the algorithm behind sort.Sort does not matter |
| Statistics.UniqueCount | statsgod/statistics.go:42-56 | counting changes in sorted order gives the number of different values |
| Statistics.Minmax | statsgod/statistics.go:59-77 | the results are the least and the greatest value |
| Statistics.Sum | statsgod/statistics.go:124-132 | the sum of all values |
| Statistics.Mean | statsgod/statistics.go:99-105 | the incremental mean is the sum divided by the count, 0 for no values |
| Statistics.AverageBetween | statsgod/statistics.go:59-105 | the mean lies between the two results of Minmax |
| Statistics.AveragePermutation | statsgod/statistics.go:99-105 | the mean does not depend on the order |
| Quantiles.MedianIsHalfQuantile | statsgod/statistics.go:80-121 | Median is Quantile at one half for every length and order |
| Quantiles.MedianIs | statsgod/statistics.go:80-96 | the middle value, or the mean of the two in the middle |
| Quantiles.InterpolateLinear | statsgod/statistics.go:108-121 | between two neighbours the interpolation is the straight line through them, both ends included |
| Quantiles.QuantileIs | statsgod/statistics.go:108-121 | quantile q is d of the way from the k-th value to the next when q(n-1) = k + d |
| Quantiles.BoundaryIs | statsgod/metric.go:239-244 | with p(n-1) = 100k + r, percentile p is r hundredths of the way from the k-th value to the next |
| Quantiles.InterpolateBetween | statsgod/statistics.go:108-121 | the interpolated value lies between its neighbours, strictly below the upper one when they differ, and between minimum and maximum |
| Quantiles.InterpolateMonotone | statsgod/statistics.go:108-121 | a larger index interpolates to a larger or equal value |
| Quantiles.KeepUpToSplits | statsgod/metric.go:245-250 | the loop with break keeps exactly the values at most the boundary |
| Quantiles.KeptPrefix | statsgod/metric.go:239-250 | a percentile keeps exactly the values at most its boundary, at least floor(q(n-1)/100)+1 of them, exactly that many when values strictly increase; Minmax never sees an empty slice |
| Quantiles.KeptCount | statsgod/metric.go:239-250 | of n different values percentile p keeps floor(p(n-1)/100) + 1 |
| Quantiles.PercentilesNested | statsgod/metric.go:238-256 | for p <= q the kept prefixes are nested and Boundary, Max, Mean and Median grow |
| Quantiles.HundredthPercentile | statsgod/metric.go:238-256 | the hundredth percentile keeps everything |
| Processing.Keep | statsgod/metric.go:245-250 | the loop computes the kept values |
| Processing.ProcessPercentile | statsgod/metric.go:239-255 | the statistics of one percentile |
| Processing.ProcessMetric | statsgod/metric.go:219-258 | sorts and writes every derived field through the pointer, by type |
| Processing.ValueOrderIrrelevant | statsgod/metric.go:219-258 | two metrics that differ only in the order of their values are reported alike, since the values are sorted first |
| Processing.SetCountsDistinct | statsgod/metric.go:207-230 | a set reports the cardinality of the set of values its key received in the window |
| Processing.TimerReport | statsgod/metric.go:231-255 | reported minimum and maximum are the extremes of the received values, mean and median lie between them, percentiles come in configured order |
| Processing.PercentileReport | statsgod/metric.go:238-256 | every reported percentile keeps exactly the received values up to its boundary, its sum, mean, median and maximum are those of the values it keeps, and its boundary is where linear interpolation puts it |
| Processing.MiddleReport | statsgod/metric.go:224-235 | median and mean of a gauge or a timer are those of the received values |
| Processing.ProcessedKeeps | statsgod/metric.go:219-258 | processing sorts the values and changes neither key, type, hits, sample rate, flush time nor, except for sets, the last value |
| Processing.PercentilesReport | statsgod/metric.go:238-256 | of two reported percentiles the larger reports a superset and no smaller Boundary, Max, Mean or Median |
| Processing.HundredthReport | statsgod/metric.go:238-256 | the hundredth percentile reports the whole timer's Max, Mean, Median and Sum |
| Processing.RateIsPerSecondIff | README.md:73-80 | a counter's rate, and by the same division a timer's, is per second of the flush interval if and only if the interval is a whole number of seconds or the rated value is 0 |
| Processing.RateOfFractionalInterval | statsgod/metric.go:220-225 | a count of three at an interval of 1.5 seconds is reported as three a second, where two is documented |
| Aggregation.MetricMap.AggregateMetric | statsgod/metric.go:190-216 | the map changes at the metric's key only, by merging or inserting |
| Aggregation.StoreIsPerKeyFold | statsgod/metric.go:190-216 | what a map holds under a key is a pure fold of that key's metrics alone |
| Aggregation.FoldClosedForm | statsgod/metric.go:195-212 | for any mixture of types: identity from the first metric, values in arrival order, hits summed, and the last value that was set outright plus the inflated counters since |
| Aggregation.LastValueKept | statsgod/metric.go:204-209 | gauges, sets and timers keep the last value |
| Aggregation.CounterValue | statsgod/metric.go:202-215 | last value plus v0(h0 - 1) is the inflated sum |
| Aggregation.CounterIsInflatedSumIff | README.md:35 | a counter window holds the documented inflated sum if and only if its first sample was not inflated or was zero |
| Aggregation.FirstSampleNotInflated | statsgod/metric.go:213-215 | a concrete counter for which it does not |
| Flushing.RelayAllMetrics | statsgod/relay.go:331-337 | every entry is handed over exactly once, in some order, and the map is empty afterwards |
| Flushing.RelayMetrics | statsgod/relay.go:277-328 | the batch of each tick lists the per-key folds of what was received since the last tick; on quit the map holds the open window's fold |
| Flushing.WindowsPartition | statsgod/relay.go:290-327 | every received metric is in exactly one window, in order |
| Flushing.TickCloses | statsgod/relay.go:297-323 | a tick closes a window after what its own turn received, and the next one starts empty |
| Flushing.OpenSinceTick | statsgod/relay.go:297-323 | everything received since the last tick is in the window still open |
| Flushing.FlushOfWindowSendsDistinctNames | statsgod/relay.go:155-210 | with separating type prefixes, whatever a worker received in a window, the names of its flush are pairwise distinct if and only if no percentile repeats or it holds no timer |
| Pipeline.StepKeepsOrder | statsgod/metric.go:276-307 | received metrics, channel and parser's hand are, in this order, the accepted metrics of the strings consumed |
| Pipeline.StepKeepsWindows | statsgod/relay.go:299-336 | a worker's map is the fold of its window, or during a flush the rest of it, and everything handed over is such a fold |
| Pipeline.StepKeepsBalance | statsgod/relay.go:299-336 | a step moves values and hits between maps and the relay and loses none |
| Pipeline.AcceptorYieldsSamples | statsgod/metric.go:178-183 | parsed metrics carry exactly one value |
| Pipeline.ReachableInv | statsgod/relay.go:277-337 | all of this holds in every reachable state, for any number of workers and any interleaving |
| Pipeline.Conservation | statsgod/relay.go:277-337 | at every moment and for every key, the values and hits accepted are those in the hand, on the channel, in all maps and handed to the relay, and each metric handed over is the fold of its key since its worker's last flush |
| Pipeline.AtQuit | statsgod/relay.go:290-293 | with the parser and all workers stopped the hand is empty, each map is the fold of its worker's unflushed window, and those maps are all that separates what was accepted from what is on the channel or was handed over |
| Quitting.CanStopIff | statsgod/relay.go:290-293 | from a reachable state some run stops the parser and all workers, unless the workers have stopped and the parser holds a metric that the full channel has no room for; then none does |
| Quitting.DeadlockReachable | statsgod/metric.go:294-304 | any acceptable line sent once more than the channel holds, before the workers stop, leads to that state |
| Quitting.ParserTurnIsRun | statsgod/metric.go:281-306 | a turn of the parser's loop that is not interrupted is a run of the protocol that relays what the turn accepts |
| Quitting.WorkerTurnIsRun | statsgod/relay.go:290-328 | a turn of a worker's loop that is not interrupted is a run of the protocol that hands over whatever batch the turn may flush, in its order, and leaves the worker with the open window's fold |
| Quitting.FlushIsRun | statsgod/relay.go:331-337 | flushing a map in any order of its keys is a run that hands over exactly that listing |
| Pipeline.DrainedMeansHanded | statsgod/relay.go:290-337 | with channels and maps empty, everything accepted of what ever arrived has been handed over |
| Pipeline.OneWorkerCovers | statsgod/relay.go:277-337 | with at most one worker each metric handed over is the fold of everything received under its key, by anyone, since the last flush |
| Pipeline.TwoWorkersSplit | statsgod/relay.go:277-337 | with two workers or more, any acceptable line sent twice gives a run whose first flush hands over half of its key |
| Pipeline.FlushesCoverIntervalsIff | README.md:73-110 | every flush of every run accounts for its whole interval if and only if there is at most one worker |
| PoolProtocol.StepKeepsInv | statsgod/connectionpool.go:78-139 | the invariant survives every step |
| PoolProtocol.Accounting | statsgod/connectionpool.go:78-139 | in every reachable state idle connections, busy workers and failed redials add up to Size, nothing was refused for too many connections, and every finished call reported truthfully whether it wrote, wrote at most once and gave up only after two attempts |
| PoolProtocol.SendsNeverBlock | statsgod/connectionpool.go:80-137 | a worker about to send on the channel always can, and the room check always passes |
| PoolProtocol.ExclusiveOwnership | statsgod/connectionpool.go:109-138 | no connection is on the channel twice, none there is closed, and what a worker holds is open, not on the channel and held by no other worker |
| PoolProtocol.NoLeak | statsgod/connectionpool.go:93-138 | every open connection is on the channel or held by a worker |
| PoolProtocol.NoPanicWhileConnectionsSuffice | statsgod/connectionpool.go:109-127 | while failed redials plus workers do not exceed Size, the NilConn panic has not happened and a waiting worker finds a connection and cannot time out |
| PoolProtocol.CrashReachableIff | statsgod/relay.go:217-223 | from any state within the invariant the panic can happen without a further failed redial if and only if failed redials plus workers exceed Size; with as many workers as connections, if and only if some redial has failed |
| PoolProtocol.FewestFailuresToPanic | statsgod/connectionpool.go:109-127 | from a full pool every crash needs at least Size - workers + 1 failed redials, and some run crashes with exactly that many |
| PoolProtocol.PanicReachable | statsgod/relay.go:218-256 | one worker moving alone, with no write and no dial succeeding, can reach the panic from any state within the invariant in which it waits or is between calls |
| PoolProtocol.AllCallsReturn | statsgod/relay.go:213-258 | under every schedule and whatever the network does, if no call begins a run has at most ten steps a worker, one more if it crashed, and one that can go no further without having crashed has every worker out of its call |
| PoolProtocol.SendingAttempt | statsgod/relay.go:235-244 | a successful write is a run that puts the connection back and ends the call with success |
| PoolProtocol.FailingAttempt | statsgod/relay.go:237-255 | a failed write is a run that replaces the connection or counts a failure, then retries once or gives up |
| ConnectionPools.ConnectionPool.CreateConnectionPool | statsgod/connectionpool.go:52-75 | the channel holds the dials that succeeded, in order, and every failure is counted; without failures the pool is the fresh pool of the protocol for any number of workers |
| ConnectionPools.ConnectionPool.CreateConnection | statsgod/connectionpool.go:78-106 | adds a connection exactly when there is room, the type is supported and the dial succeeds; counts a failed dial only; what it adds is open |
| ConnectionPools.ConnectionPool.GetConnection | statsgod/connectionpool.go:109-119 | takes the oldest idle connection, or none from an empty channel |
| ConnectionPools.ConnectionPool.ReleaseConnection | statsgod/connectionpool.go:122-139 | puts the connection back, or closes it and dials another in its place |
| ConnectionPools.FreshIsInitial | statsgod/relay.go:64-69 | the state of a pool with distinct connections, no failures and any number of workers is an initial state of the protocol; `CreateConnectionPool` promises that what it returns without errors is that state |
| ConnectionPools.BuildPayload | statsgod/relay.go:225-233 | the pieces put together in the buffer are the payload of key, value text and time |
| ConnectionPools.Attempt | statsgod/relay.go:213-245 | one attempt panics exactly on an empty channel, writes the payload over the oldest connection once or not at all, as it reports, and leaves the channel, the open connections and the error count as told |
| ConnectionPools.AttemptRun | statsgod/relay.go:213-245 | some run of protocol steps of that worker alone changes the channel, the open connections and the error count just as an attempt does, and ends or retries the call |
| ConnectionPools.SendCarbonMetric | statsgod/relay.go:213-258 | a call takes only protocol steps of its own worker, ends with the result it returns, writes the payload once, over the connection it had checked out, exactly when one of its writes succeeds, and panics exactly when the channel is empty at once or its one connection was lost to a failed redial before the retry |
| Carbon.CarbonRelay.SetPrefixesAndSuffixes | statsgod/relay.go:94-141 | both maps get an entry for every namespace type, in whatever order they are ranged over |
| Carbon.CarbonRelay.RelayTimer | statsgod/relay.go:175-207 | the requests of a timer, cumulative first, then four for each percentile |
| Carbon.CarbonRelay.Relay | statsgod/relay.go:155-210 | the requests sent for a metric are those of the processed metric, in order |
| Reports.NamesOfTypes | statsgod/relay.go:99-152 | each kind of name is the dot-join with its own type prefix and type suffix from the configuration |
| Reports.GaugeSends | statsgod/relay.go:162-165 | a window of a gauge sends its last value under its name, with the flush time |
| Reports.CounterSends | statsgod/relay.go:166-171 | a window of a counter sends its sum per whole second and its sum, the first sample as it came and the others inflated |
| Reports.SetSends | statsgod/relay.go:172-174 | a window of a set sends the number of different values received |
| Reports.TimerSends | statsgod/relay.go:175-207 | a window of a timer sends the rate of its inflated hits, mean, median, maximum and minimum of the received values, and mean, median, maximum and sum of what each configured percentile keeps, in this order under these names |
| ArrivalOrder.SetsAndTimersIgnoreOrder | statsgod/metric.go:190-258 | two windows of one set or timer that hold the same samples in different orders send the same requests |
| ArrivalOrder.GaugesSendLast | README.md:82-88 | two orders of one gauge's samples send the same if and only if they end with the same value |
| ArrivalOrder.CountersSendFirstUninflated | statsgod/metric.go:195-215 | two orders of one counter's samples send the same rate and count if and only if their first samples have equal v0(h0 - 1) |
| ArrivalOrder.OrderMatters | statsgod/metric.go:195-215 | concrete gauges, and concrete counters of which one is sampled, whose two orders aggregate to different values |
| CarbonNames.NameIsDotJoin | statsgod/relay.go:116-152 | a name is the dot-join of the non-empty parts among prefix, type prefix, key, type suffix and suffix |
| CarbonNames.NonEmptyKeeps | statsgod/relay.go:116-141 | every part that is not empty is kept, in its place |
| CarbonNames.NamesAreRequested | statsgod/relay.go:155-210 | the names whose distinctness is proved are those of the requests sent, one by one |
| CarbonNames.FlushNamesAppend | statsgod/relay.go:331-337 | the names of a flush are those of its metrics, one after the other, none left out |
| CarbonNames.FullNameInjective | statsgod/relay.go:116-152 | with separating type prefixes the namespace type and inner name can be read back |
| CarbonNames.OtherKeyOtherName | statsgod/relay.go:162-207 | with separating type prefixes metrics with different keys never send the same name |
| CarbonNames.MetricNamesDistinctIff | statsgod/relay.go:162-207 | with separating type prefixes one metric repeats a name exactly when it is a timer with a repeated percentile |
| CarbonNames.FlushNamesDistinctIff | statsgod/relay.go:155-210 | with separating type prefixes all names of a flush are pairwise distinct if and only if no percentile repeats or no timer is flushed |
| CarbonNames.SameNamesIff | statsgod/relay.go:116-152 | two namespace types give every key the same name if and only if they share type prefix and type suffix |
| CarbonNames.EveryCounterRepeatsIff | statsgod/relay.go:166-171 | whatever the prefixes, every counter sends one name twice if and only if rates and counters share type prefix and type suffix |
| NameCollisions.SameNameOverlaps | statsgod/relay.go:145-152 | two names can only be equal if one of the two prefixes continues the other and one of the two suffixes ends in the other |
| NameCollisions.OverlapCollides | statsgod/relay.go:145-152 | if so, and they are not the same prefix and suffix, two different keys get the same name |
| NameCollisions.NamesAreWrapped | statsgod/relay.go:155-210 | every name of a metric is its key between a prefix and a suffix that depend on type, configuration and percentiles only |
| NameCollisions.AlwaysDistinctIff | statsgod/relay.go:94-210 | for any prefixes, suffixes and percentiles: the names of every flush are pairwise distinct if and only if different prefix-and-suffix pairs never overlap and no type uses one twice |
| NameCollisions.SharedGaugesAndTimersCollide | statsgod/relay.go:162-188 | with the same type prefix and suffix for gauges and timers some flush repeats a name |
| CarbonNames.PayloadIsThreeFields | statsgod/relay.go:225-233 | a payload is one line that splits on spaces into name, value and time |
| CarbonNames.AcceptedLinesMakePlainPayloads | statsgod/relay.go:213-236 | for any line from a socket that is accepted, every payload sent for its key is such a line |
| Decimal.FormatIntInjective | statsgod/relay.go:193-206 | different percentiles are written differently |
| Decimal.FormatIntMeans | statsgod/relay.go:158-160 | an integer is written in digits that mean it, after a minus sign if it is negative, without leading zeros |

## Left out

- Floating point: float64 rounding, NaN, infinities and the digits of `FormatFloat` (a value text is any text without space or newline).
- `strconv.ParseFloat` itself: an arbitrary partial function; the round trip asks that it reads the printed numbers back.
- UTF-8: a string is a sequence of characters, both for the parser's runes and for the socket's bytes.
- Sharing of backing arrays between copies of a `Metric`: values are a sequence, sorted in a fresh array and written back.
- Listening, accepting, socket deadlines, logging, YAML loading, signals, profiling and the tools under `extras/`.
- `PrepareRuntimeMetrics` and `PrepareFlushMetrics`: Debug.Relay is off, its default, so both do nothing.
- `CreateAuth`, `CreateRelay` and `MockRelay`: choices by a configuration string.
- `LastFlushed`, which is never written.
- Delivery to carbon: `Relay` ignores whether a payload was sent, so conservation ends at the hand-over to the relay.
- Lengths and characters of keys in `AlwaysDistinctIff`: the keys that collide are any non-empty texts, also ones the parser would not accept.
- Timing: that a tick or a timeout eventually fires, and the order in which ready workers run.
- The order of a turn inside the pipeline protocol: a tick, or stopping on quit, may come at any point between turns, so the protocol allows more than the loops do; that it allows what they do is proved for a turn that is not interrupted.
- Data races: `ErrorCount++`, the length check of the channel and the quit flag are each one atomic step.
- The timeout of `GetConnection` firing while a connection is on the channel: it fires on an empty channel only.
- A flush interval below one second, which makes the code divide by zero, and percentiles outside 0 to 100, which index out of range.
