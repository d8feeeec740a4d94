/** The loop of one relay worker: statsgod/relay.go `RelayMetrics` and `RelayAllMetrics`, with
    Debug.Relay off. */
module Flushing {
  import opened Wrappers
  import opened Text
  import opened Metrics
  import opened Auth
  import opened Aggregation
  import opened Processing
  import opened Carbon
  import opened CarbonNames

  /** `batch` is the entries of a store in some order of its keys, each with a flush time. */
  ghost predicate Lists(batch: seq<Metric>, keys: seq<string>, store: Store) {
    && |batch| == |keys| && NoDuplicates(keys)
    && (forall key :: key in store <==> key in keys)
    && forall i :: 0 <= i < |keys| ==>
         batch[i] == store[keys[i]].(flushTime := batch[i].flushTime)
  }

  /** Some entries of `was` have been listed, the others are still in the store. */
  ghost predicate PartlyListed(was: Store, store: Store, batch: seq<Metric>, keys: seq<string>) {
    && |batch| == |keys| && NoDuplicates(keys)
    && (forall key :: key in was <==> key in keys || key in store)
    && (forall key :: key in store ==> key !in keys && store[key] == was[key])
    && forall i :: 0 <= i < |keys| ==>
         batch[i] == was[keys[i]].(flushTime := batch[i].flushTime)
  }

  lemma ListOneMore(was: Store, store: Store, batch: seq<Metric>, keys: seq<string>, key: string, now: int)
    requires PartlyListed(was, store, batch, keys) && key in store
    ensures PartlyListed(was, store - {key}, batch + [store[key].(flushTime := now)], keys + [key])
  {
    var keys' := keys + [key];
    forall k ensures k in was <==> k in keys' || k in store - {key} {
      assert k in keys' <==> k in keys || k == key;
    }
  }

  /** Hands every entry to the relay and deletes it, in whatever order the map is ranged over. */
  method RelayAllMetrics(store: MetricMap) returns (batch: seq<Metric>, ghost keys: seq<string>)
    modifies store
    ensures store.metrics == map[]
    ensures Lists(batch, keys, old(store.metrics))
    ensures old(store.metrics) == map[] ==> batch == []
  {
    ghost var was := store.metrics;
    batch, keys := [], [];
    while store.metrics != map[]
      invariant was == map[] ==> store.metrics == map[] && batch == []
      invariant PartlyListed(was, store.metrics, batch, keys)
      decreases |store.metrics|
    {
      var key :| key in store.metrics;
      var now: int := *;
      ListOneMore(was, store.metrics, batch, keys, key, now);
      batch := batch + [store.metrics[key].(flushTime := now)];
      keys := keys + [key];
      store.metrics := store.metrics - {key};
    }
  }

  /** One turn of the loop: whether `quit` is found set at the top, what the channel yields before the
      timeout, and whether a tick is waiting afterwards. */
  datatype Turn = Turn(quit: bool, received: Option<Metric>, tick: bool)

  /** The turns before the loop is left. */
  function Executed(turns: seq<Turn>): (r: seq<Turn>)
    ensures r <= turns
    ensures forall t :: t in r ==> !t.quit
    ensures |r| < |turns| ==> turns[|r|].quit
  {
    if turns == [] || turns[0].quit then [] else [turns[0]] + Executed(turns[1..])
  }

  /** The received metrics, cut at the ticks; the last window is the one still open. */
  function WindowsOf(turns: seq<Turn>): (r: seq<seq<Metric>>)
    ensures r != []
  {
    if turns == [] then [[]]
    else
      var turn := turns[|turns| - 1];
      var before := WindowsOf(turns[..|turns| - 1]);
      var current := before[..|before| - 1] + [before[|before| - 1] + AsSeq(turn.received)];
      if turn.tick then current + [[]] else current
  }

  function ReceivedIn(turns: seq<Turn>): seq<Metric> {
    if turns == [] then []
    else ReceivedIn(turns[..|turns| - 1]) + AsSeq(turns[|turns| - 1].received)
  }

  function Flatten(windows: seq<seq<Metric>>): seq<Metric> {
    if windows == [] then [] else Flatten(windows[..|windows| - 1]) + windows[|windows| - 1]
  }

  /** Every metric a worker receives falls into exactly one window, in order. */
  lemma {:induction false} WindowsPartition(turns: seq<Turn>)
    ensures Flatten(WindowsOf(turns)) == ReceivedIn(turns)
  {
    if turns != [] {
      var turn := turns[|turns| - 1];
      var before := WindowsOf(turns[..|turns| - 1]);
      WindowsPartition(turns[..|turns| - 1]);
      var current := before[..|before| - 1] + [before[|before| - 1] + AsSeq(turn.received)];
      FlattenGrow(before, AsSeq(turn.received));
      if turn.tick {
        FlattenOpen(current);
      }
    }
  }

  lemma FlattenGrow(windows: seq<seq<Metric>>, more: seq<Metric>)
    requires windows != []
    ensures Flatten(windows[..|windows| - 1] + [windows[|windows| - 1] + more]) == Flatten(windows) + more
  {
    var front, last := windows[..|windows| - 1], windows[|windows| - 1];
    assert (front + [last + more])[..|front|] == front;
    Associative(Flatten(front), last, more);
  }

  lemma FlattenOpen(windows: seq<seq<Metric>>)
    ensures Flatten(windows + [[]]) == Flatten(windows)
  {
    assert (windows + [[]])[..|windows|] == windows;
    assert Flatten(windows) + [] == Flatten(windows);
  }

  predicate NoTick(turns: seq<Turn>) {
    forall i :: 0 <= i < |turns| ==> !turns[i].tick
  }

  /** A tick closes a window after what its own turn received, and a new one starts empty. */
  lemma TickCloses(a: seq<Turn>, turn: Turn)
    requires turn.tick
    ensures WindowsOf(a + [turn]) == Front(WindowsOf(a)) + [Last(WindowsOf(a)) + AsSeq(turn.received)] + [[]]
  {
    assert (a + [turn])[..|a|] == a;
  }

  /** After the last tick everything received is in the window still open. */
  lemma {:induction false} OpenSinceTick(a: seq<Turn>, b: seq<Turn>)
    requires NoTick(b)
    ensures WindowsOf(a + b) == Front(WindowsOf(a)) + [Last(WindowsOf(a)) + ReceivedIn(b)]
  {
    if b == [] {
      assert a + b == a && Last(WindowsOf(a)) + [] == Last(WindowsOf(a));
    } else {
      var front, turn := b[..|b| - 1], b[|b| - 1];
      OpenSinceTick(a, front);
      assert (a + b)[..|a + b| - 1] == a + front;
      Associative(Last(WindowsOf(a)), ReceivedIn(front), AsSeq(turn.received));
    }
  }

  /** `batch` is what a worker flushed of a window. */
  ghost predicate FlushedBatch(batch: seq<Metric>, window: seq<Metric>) {
    exists keys :: Lists(batch, keys, StoreOf(window))
  }

  /** Every window but the last has been flushed. */
  ghost predicate AllFlushed(batches: seq<seq<Metric>>, windows: seq<seq<Metric>>) {
    && |batches| == |windows| - 1
    && forall j :: 0 <= j < |batches| ==> FlushedBatch(batches[j], windows[j])
  }

  lemma ExecutedNext(turns: seq<Turn>, i: nat, executed: seq<Turn>)
    requires i < |turns| && !turns[i].quit
    requires Executed(turns) == executed + Executed(turns[i..])
    ensures Executed(turns) == (executed + [turns[i]]) + Executed(turns[i + 1..])
  {
    assert turns[i..][1..] == turns[i + 1..];
  }

  /** The window that is open after a turn, given the one that was open before. */
  function OpenAfter(window: seq<Metric>, turn: Turn): seq<Metric> {
    if turn.tick then [] else window + AsSeq(turn.received)
  }

  lemma WindowsNext(executed: seq<Turn>, turn: Turn, batches: seq<seq<Metric>>, flushed: seq<seq<Metric>>)
    requires AllFlushed(batches, WindowsOf(executed))
    requires |flushed| == if turn.tick then 1 else 0
    requires turn.tick ==> FlushedBatch(flushed[0], Last(WindowsOf(executed)) + AsSeq(turn.received))
    ensures AllFlushed(batches + flushed, WindowsOf(executed + [turn]))
    ensures Last(WindowsOf(executed + [turn])) == OpenAfter(Last(WindowsOf(executed)), turn)
  {
    assert (executed + [turn])[..|executed|] == executed;
  }

  /** The first `select` of a turn: aggregate what arrived, if anything did. */
  method Receive(store: MetricMap, received: Option<Metric>, ghost window: seq<Metric>)
    requires store.metrics == StoreOf(window)
    modifies store
    ensures store.metrics == StoreOf(window + AsSeq(received))
  {
    if received.Some? {
      store.AggregateMetric(received.value);
      assert (window + [received.value])[..|window|] == window;
    } else {
      assert window + [] == window;
    }
  }

  /** The second `select` when a tick is there: flush, and flush again for the metrics about the flush,
      which are off, so that the map is empty then. */
  method Flush(store: MetricMap, ghost window: seq<Metric>) returns (batch: seq<Metric>)
    requires store.metrics == StoreOf(window)
    modifies store
    ensures store.metrics == map[] && FlushedBatch(batch, window)
  {
    ghost var keys;
    batch, keys := RelayAllMetrics(store);
    var more, none := RelayAllMetrics(store);
    batch := batch + more;
    assert Lists(batch, keys, StoreOf(window));
  }

  /** One turn: receive, then flush if there is a tick. */
  method TakeTurn(store: MetricMap, turn: Turn, ghost window: seq<Metric>) returns (flushed: seq<seq<Metric>>)
    requires store.metrics == StoreOf(window)
    modifies store
    ensures |flushed| == if turn.tick then 1 else 0
    ensures turn.tick ==> FlushedBatch(flushed[0], window + AsSeq(turn.received))
    ensures store.metrics == StoreOf(OpenAfter(window, turn))
  {
    flushed := [];
    Receive(store, turn.received, window);
    if turn.tick {
      var batch := Flush(store, window + AsSeq(turn.received));
      flushed := [batch];
    }
  }

  /** The worker hands over, at each tick, the per-key folds of what it received since the last tick;
      on quit its map holds the fold of the window still open, and nothing else is left behind. */
  method RelayMetrics(turns: seq<Turn>) returns (store: MetricMap, batches: seq<seq<Metric>>)
    ensures fresh(store)
    ensures AllFlushed(batches, WindowsOf(Executed(turns)))
    ensures store.metrics == StoreOf(Last(WindowsOf(Executed(turns))))
  {
    store := new MetricMap();
    batches := [];
    ghost var executed: seq<Turn> := [];
    var i := 0;
    assert turns[0..] == turns;
    while i < |turns| && !turns[i].quit
      invariant 0 <= i <= |turns| && fresh(store)
      invariant Executed(turns) == executed + Executed(turns[i..])
      invariant AllFlushed(batches, WindowsOf(executed))
      invariant store.metrics == StoreOf(Last(WindowsOf(executed)))
    {
      var flushed := TakeTurn(store, turns[i], Last(WindowsOf(executed)));
      ExecutedNext(turns, i, executed);
      WindowsNext(executed, turns[i], batches, flushed);
      executed := executed + [turns[i]];
      batches := batches + flushed;
      i := i + 1;
    }
    ExecutedEnd(turns, i, executed);
  }

  lemma ExecutedEnd(turns: seq<Turn>, i: nat, executed: seq<Turn>)
    requires i <= |turns| && (i < |turns| ==> turns[i].quit)
    requires Executed(turns) == executed + Executed(turns[i..])
    ensures Executed(turns) == executed
  {
    assert Executed(turns[i..]) == [];
  }

  // ---------- From a window to the names on the wire ----------

  /** What the parser produces: one value, no percentiles yet. */
  predicate FromParser(m: Metric) {
    m.allValues == [m.lastValue] && m.quantiles == []
  }

  lemma FoldOfWindow(window: seq<Metric>, key: string)
    requires (forall m :: m in window ==> FromParser(m)) && key in StoreOf(window)
    ensures var f := StoreOf(window)[key]; f.key == key && f.allValues != [] && f.quantiles == []
  {
    StoreIsPerKeyFold(window, key);
    var ms := OfKey(window, key);
    FoldClosedForm(ms);
    OfKeyCarries(window, key);
    assert ms[0] in ms;
  }

  lemma ListedEntries(batch: seq<Metric>, keys: seq<string>, window: seq<Metric>)
    requires (forall m :: m in window ==> FromParser(m)) && Lists(batch, keys, StoreOf(window))
    ensures forall i :: 0 <= i < |batch| ==>
      batch[i].key == keys[i] && batch[i].allValues != [] && batch[i].quantiles == []
  {
    forall i | 0 <= i < |batch|
      ensures batch[i].key == keys[i] && batch[i].allValues != [] && batch[i].quantiles == []
    {
      assert keys[i] in keys;
      FoldOfWindow(window, keys[i]);
    }
  }

  ghost function ProcessedBatch(batch: seq<Metric>, flushDuration: int, percentiles: seq<int>): seq<Metric>
    requires Configured(flushDuration, percentiles)
    requires forall i :: 0 <= i < |batch| ==> Processable(batch[i])
  {
    seq(|batch|, i requires 0 <= i < |batch| => Processed(batch[i], flushDuration, percentiles))
  }

  /** Whatever a worker received in a window, the names it sends when it flushes are pairwise distinct,
      provided no percentile is configured twice or the window leaves no timer in the map; otherwise
      two of them are equal. */
  lemma FlushOfWindowSendsDistinctNames(c: Config, window: seq<Metric>, batch: seq<Metric>,
                                        flushDuration: int, percentiles: seq<int>)
    requires SeparatingPrefixes(c) && Configured(flushDuration, percentiles)
    requires (forall m :: m in window ==> FromParser(m)) && FlushedBatch(batch, window)
    ensures forall i :: 0 <= i < |batch| ==> Processable(batch[i])
    ensures NoDuplicates(FlushNames(c, ProcessedBatch(batch, flushDuration, percentiles))) <==>
      NoDuplicates(percentiles) || forall i :: 0 <= i < |batch| ==> !batch[i].metricType.Timer?
  {
    BatchIsReported(batch, window, flushDuration, percentiles);
    var r := ProcessedBatch(batch, flushDuration, percentiles);
    FlushNamesDistinctIff(c, r, percentiles);
    SameTimers(batch, r);
  }

  lemma SameTimers(a: seq<Metric>, b: seq<Metric>)
    requires |a| == |b| && forall i :: 0 <= i < |a| ==> a[i].metricType == b[i].metricType
    ensures (forall i :: 0 <= i < |a| ==> !a[i].metricType.Timer?)
       <==> (forall i :: 0 <= i < |b| ==> !b[i].metricType.Timer?)
  {
    assert (forall i :: 0 <= i < |a| ==> !a[i].metricType.Timer?) ==>
      forall i :: 0 <= i < |b| ==> a[i].metricType == b[i].metricType && !b[i].metricType.Timer?;
    assert (forall i :: 0 <= i < |b| ==> !b[i].metricType.Timer?) ==>
      forall i :: 0 <= i < |a| ==> b[i].metricType == a[i].metricType && !a[i].metricType.Timer?;
  }

  lemma ProcessedReports(m: Metric, flushDuration: int, percentiles: seq<int>)
    requires Configured(flushDuration, percentiles) && Processable(m) && m.quantiles == []
    ensures var r := Processed(m, flushDuration, percentiles);
      && r.key == m.key && r.metricType == m.metricType
      && PercentsOf(r.quantiles) == if r.metricType.Timer? then percentiles else []
  {
  }

  lemma BatchIsReported(batch: seq<Metric>, window: seq<Metric>, flushDuration: int, percentiles: seq<int>)
    requires Configured(flushDuration, percentiles)
    requires (forall m :: m in window ==> FromParser(m)) && FlushedBatch(batch, window)
    ensures forall i :: 0 <= i < |batch| ==> Processable(batch[i])
    ensures var r := ProcessedBatch(batch, flushDuration, percentiles);
      && DistinctKeys(r) && Reported(r, percentiles)
      && forall i :: 0 <= i < |batch| ==> batch[i].metricType == r[i].metricType
  {
    var keys :| Lists(batch, keys, StoreOf(window));
    ListedEntries(batch, keys, window);
    ListIsReported(batch, keys, flushDuration, percentiles);
  }

  lemma ListIsReported(batch: seq<Metric>, keys: seq<string>, flushDuration: int, percentiles: seq<int>)
    requires Configured(flushDuration, percentiles)
    requires |batch| == |keys| && NoDuplicates(keys)
    requires forall i :: 0 <= i < |batch| ==>
      batch[i].key == keys[i] && batch[i].allValues != [] && batch[i].quantiles == []
    ensures var r := ProcessedBatch(batch, flushDuration, percentiles);
      && DistinctKeys(r) && Reported(r, percentiles)
      && forall i :: 0 <= i < |batch| ==> batch[i].metricType == r[i].metricType
  {
    forall i | 0 <= i < |batch| {
      ProcessedReports(batch[i], flushDuration, percentiles);
    }
  }
}
