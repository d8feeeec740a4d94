/** The goroutines between the sockets and the relay: statsgod/metric.go `ParseMetrics`,
    statsgod/relay.go `RelayMetrics` and `RelayAllMetrics`, with the channels of statsgod.go, as a
    protocol. Any number of workers, any interleaving. */
module Pipeline {
  import opened Wrappers
  import opened Text
  import opened Metrics
  import opened Parser
  import opened Auth
  import opened Aggregation

  /** What the parser makes of a string; `Acceptor(pf, auth)` is one. */
  type Acceptance = string -> Option<Metric>

  /** Both channels hold this many elements. */
  const MAX_REQS := (10 * 1024 * 1024) / (10 * 1024)

  /** A worker's map, and the history of what it has received since its last flush ended. */
  datatype Worker = Worker(metrics: Store, flushing: bool, halted: bool, window: seq<Metric>)

  /** A metric handed to the relay, the window its worker was flushing, and what all workers together
      had received since the last flush of any of them ended. */
  datatype Handed = Handed(metric: Metric, window: seq<Metric>, recent: seq<Metric>)

  /** The last four are histories: the strings that arrived and those the parser took off its channel,
      the metrics the workers took off theirs, and those taken since the last flush ended. */
  datatype State = State(
    parseChannel: seq<string>,
    hand: Option<Metric>,
    relayChannel: seq<Metric>,
    workers: seq<Worker>,
    handed: seq<Handed>,
    quit: bool,
    parserHalted: bool,
    arrived: seq<string>,
    consumed: seq<string>,
    received: seq<Metric>,
    recent: seq<Metric>)

  datatype Step =
    | Arrive(s: string)                        // a socket sends a line
    | ParserTake                               // the parser takes a string, authenticates and parses it
    | ParserSend                               // the parser sends the metric it holds
    | WorkerTake(i: nat)                       // a worker takes a metric and aggregates it
    | Tick(i: nat)                             // a worker finds its tick and starts to flush
    | RelayOne(i: nat, key: string, time: int) // a flushing worker relays and deletes one entry
    | FlushDone(i: nat)                        // its map is empty
    | Quit
    | ParserHalt
    | WorkerHalt(i: nat)                       // quit is looked at between turns only

  predicate Enabled(s: State, step: Step) {
    match step
    case Arrive(_) => |s.parseChannel| < MAX_REQS
    case ParserTake => !s.parserHalted && s.hand.None? && s.parseChannel != []
    case ParserSend => s.hand.Some? && |s.relayChannel| < MAX_REQS
    case WorkerTake(i) => Receiving(s, i) && s.relayChannel != []
    case Tick(i) => Receiving(s, i)
    case RelayOne(i, key, _) => Flushing(s, i) && key in s.workers[i].metrics
    case FlushDone(i) => Flushing(s, i) && s.workers[i].metrics == map[]
    case Quit => true
    case ParserHalt => s.quit && s.hand.None?
    case WorkerHalt(i) => s.quit && Receiving(s, i)
  }

  predicate Receiving(s: State, i: nat) {
    i < |s.workers| && !s.workers[i].halted && !s.workers[i].flushing
  }

  predicate Flushing(s: State, i: nat) {
    i < |s.workers| && s.workers[i].flushing
  }

  function SetWorker(s: State, i: nat, w: Worker): State
    requires i < |s.workers|
  {
    s.(workers := s.workers[i := w])
  }

  function Take(w: Worker, m: Metric): Worker {
    w.(metrics := Aggregated(w.metrics, m), window := w.window + [m])
  }

  function Next(accept: Acceptance, s: State, step: Step): State
    requires Enabled(s, step)
  {
    match step
    case Arrive(line) => s.(parseChannel := s.parseChannel + [line], arrived := s.arrived + [line])
    case ParserTake =>
      var line := s.parseChannel[0];
      s.(parseChannel := s.parseChannel[1..], consumed := s.consumed + [line],
         hand := accept(line))
    case ParserSend => s.(hand := None, relayChannel := s.relayChannel + [s.hand.value])
    case WorkerTake(i) =>
      var m := s.relayChannel[0];
      SetWorker(s, i, Take(s.workers[i], m)).(
        relayChannel := s.relayChannel[1..], received := s.received + [m], recent := s.recent + [m])
    case Tick(i) => SetWorker(s, i, s.workers[i].(flushing := true))
    case RelayOne(i, key, time) =>
      var w := s.workers[i];
      SetWorker(s, i, w.(metrics := w.metrics - {key})).(
        handed := s.handed + [Handed(w.metrics[key].(flushTime := time), w.window, s.recent)])
    case FlushDone(i) =>
      SetWorker(s, i, s.workers[i].(flushing := false, window := [])).(recent := [])
    case Quit => s.(quit := true)
    case ParserHalt => s.(parserHalted := true)
    case WorkerHalt(i) => SetWorker(s, i, s.workers[i].(halted := true))
  }

  ghost predicate Run(accept: Acceptance, s: State, steps: seq<Step>, t: State)
    decreases |steps|
  {
    if steps == [] then s == t
    else Enabled(s, steps[0]) && Run(accept, Next(accept, s, steps[0]), steps[1..], t)
  }

  function Start(n: nat): State {
    State([], None, [], seq(n, i => Worker(map[], false, false, [])), [], false, false, [], [], [], [])
  }

  // ---------- Order: the channels lose and reorder nothing ----------

  /** Every string that arrived was consumed or is waiting; every metric accepted from the consumed
      strings was received, is on the relay channel, or is in the parser's hand, in that order. */
  predicate InOrder(accept: Acceptance, s: State) {
    && s.arrived == s.consumed + s.parseChannel
    && s.received + s.relayChannel + AsSeq(s.hand) == FilterMap(accept, s.consumed)
  }

  lemma ParserTakeKeepsOrder(accept: Acceptance, s: State)
    requires InOrder(accept, s) && Enabled(s, ParserTake)
    ensures InOrder(accept, Next(accept, s, ParserTake))
  {
    var line := s.parseChannel[0];
    FilterMapNext(accept, s.consumed, line);
    assert s.received + s.relayChannel + [] == s.received + s.relayChannel;
    assert s.parseChannel == [line] + s.parseChannel[1..];
    Associative(s.consumed, [line], s.parseChannel[1..]);
  }

  lemma ParserSendKeepsOrder(accept: Acceptance, s: State)
    requires InOrder(accept, s) && Enabled(s, ParserSend)
    ensures InOrder(accept, Next(accept, s, ParserSend))
  {
    Associative(s.received, s.relayChannel, [s.hand.value]);
    var sent := s.received + (s.relayChannel + [s.hand.value]);
    assert sent + [] == sent;
  }

  lemma WorkerTakeKeepsOrder(accept: Acceptance, s: State, i: nat)
    requires InOrder(accept, s) && Enabled(s, WorkerTake(i))
    ensures InOrder(accept, Next(accept, s, WorkerTake(i)))
  {
    assert s.relayChannel == [s.relayChannel[0]] + s.relayChannel[1..];
    Associative(s.received, [s.relayChannel[0]], s.relayChannel[1..]);
  }

  lemma StepKeepsOrder(accept: Acceptance, s: State, step: Step)
    requires InOrder(accept, s) && Enabled(s, step)
    ensures InOrder(accept, Next(accept, s, step))
  {
    match step
    case ParserTake => ParserTakeKeepsOrder(accept, s);
    case ParserSend => ParserSendKeepsOrder(accept, s);
    case WorkerTake(i) => WorkerTakeKeepsOrder(accept, s, i);
    case Arrive(line) => Associative(s.consumed, s.parseChannel, [line]);
    case _ =>
  }

  // ---------- Windows: what a flush reports is a fold of what was received since the last ----------

  /** Outside a flush a worker's map is the fold of its window; during one, what is left of it. */
  ghost predicate MirrorsWindow(w: Worker) {
    if w.flushing then forall key :: key in w.metrics ==>
      key in StoreOf(w.window) && w.metrics[key] == StoreOf(w.window)[key]
    else w.metrics == StoreOf(w.window)
  }

  /** A handed metric is, its flush time aside, the fold of its key's metrics in its window. */
  ghost predicate IsFold(h: Handed) {
    var ms := OfKey(h.window, h.metric.key);
    ms != [] && h.metric == FoldOf(ms).(flushTime := h.metric.flushTime)
  }

  ghost predicate Windows(s: State) {
    && (forall i :: 0 <= i < |s.workers| ==> MirrorsWindow(s.workers[i]))
    && (forall h :: h in s.handed ==> IsFold(h))
  }

  /** An entry is stored under its own key. */
  lemma StoredUnderKey(window: seq<Metric>, key: string)
    requires key in StoreOf(window)
    ensures OfKey(window, key) != [] && StoreOf(window)[key] == FoldOf(OfKey(window, key))
    ensures StoreOf(window)[key].key == key
  {
    StoreIsPerKeyFold(window, key);
    var ms := OfKey(window, key);
    FoldClosedForm(ms);
    OfKeyCarries(window, key);
    assert ms[0] in ms;
  }

  lemma TakeMirrors(w: Worker, m: Metric)
    requires MirrorsWindow(w) && !w.flushing
    ensures MirrorsWindow(Take(w, m))
  {
    assert (w.window + [m])[..|w.window|] == w.window;
  }

  lemma RelayedIsFold(w: Worker, key: string, time: int, recent: seq<Metric>)
    requires MirrorsWindow(w) && key in w.metrics
    ensures w.metrics[key].key == key
    ensures IsFold(Handed(w.metrics[key].(flushTime := time), w.window, recent))
  {
    StoredUnderKey(w.window, key);
  }

  lemma WorkerKeepsWindows(s: State, i: nat, t: State)
    requires Windows(s) && i < |s.workers| == |t.workers|
    requires t.workers == s.workers[i := t.workers[i]] && MirrorsWindow(t.workers[i])
    requires t.handed == s.handed || (exists h :: IsFold(h) && t.handed == s.handed + [h])
    ensures Windows(t)
  {
  }

  lemma StepKeepsWindows(accept: Acceptance, s: State, step: Step)
    requires Windows(s) && Enabled(s, step)
    ensures Windows(Next(accept, s, step))
  {
    var t := Next(accept, s, step);
    match step
    case WorkerTake(i) =>
      TakeMirrors(s.workers[i], s.relayChannel[0]);
      WorkerKeepsWindows(s, i, t);
    case Tick(i) =>
      assert MirrorsWindow(s.workers[i]);
      WorkerKeepsWindows(s, i, t);
    case RelayOne(i, key, time) =>
      RelayedIsFold(s.workers[i], key, time, s.recent);
      assert MirrorsWindow(s.workers[i]);
      WorkerKeepsWindows(s, i, t);
    case FlushDone(i) => WorkerKeepsWindows(s, i, t);
    case WorkerHalt(i) => WorkerKeepsWindows(s, i, t);
    case _ =>
  }

  // ---------- Conservation of values and hits ----------

  /** The values and the hits counted under one key. */
  datatype Tally = Tally(values: multiset<real>, hits: real)

  function Plus(a: Tally, b: Tally): Tally {
    Tally(a.values + b.values, a.hits + b.hits)
  }

  const NOTHING := Tally(multiset{}, 0.0)

  function TallyOf(m: Metric, key: string): Tally {
    if m.key == key then Tally(multiset(m.allValues), m.totalHits) else NOTHING
  }

  function TallyAll(ms: seq<Metric>, key: string): Tally {
    if ms == [] then NOTHING else Plus(TallyAll(ms[..|ms| - 1], key), TallyOf(ms[|ms| - 1], key))
  }

  function Stored(w: Worker, key: string): Tally {
    if key in w.metrics then Tally(multiset(w.metrics[key].allValues), w.metrics[key].totalHits) else NOTHING
  }

  function StoredAll(ws: seq<Worker>, key: string): Tally {
    if ws == [] then NOTHING else Plus(StoredAll(ws[..|ws| - 1], key), Stored(ws[|ws| - 1], key))
  }

  function HandedMetrics(handed: seq<Handed>): seq<Metric> {
    seq(|handed|, i requires 0 <= i < |handed| => handed[i].metric)
  }

  /** Adding the same to both sides, past the last term. */
  lemma PlusSwap(a: Tally, b: Tally, c: Tally, d: Tally, more: Tally)
    requires Plus(a, b) == Plus(c, d)
    ensures Plus(Plus(a, more), b) == Plus(Plus(c, more), d)
  {
    assert (a.values + more.values) + b.values == (a.values + b.values) + more.values;
    assert (c.values + more.values) + d.values == (c.values + d.values) + more.values;
  }

  lemma PlusExchange(a: Tally, b: Tally, c: Tally)
    ensures Plus(Plus(a, b), c) == Plus(Plus(a, c), b)
  {
    assert (a.values + b.values) + c.values == (a.values + c.values) + b.values;
  }

  lemma PlusAssociative(a: Tally, b: Tally, c: Tally)
    ensures Plus(Plus(a, b), c) == Plus(a, Plus(b, c))
  {
    assert (a.values + b.values) + c.values == a.values + (b.values + c.values);
  }

  lemma PlusNothing(a: Tally)
    ensures Plus(a, NOTHING) == a && Plus(NOTHING, a) == a
  {
    assert a.values + multiset{} == a.values && multiset{} + a.values == a.values;
  }

  lemma {:induction false} StoredUpdate(ws: seq<Worker>, i: nat, w: Worker, key: string)
    requires i < |ws|
    ensures Plus(StoredAll(ws[i := w], key), Stored(ws[i], key)) == Plus(StoredAll(ws, key), Stored(w, key))
  {
    var n := |ws| - 1;
    if i == n {
      assert ws[i := w][..n] == ws[..n];
      PlusExchange(StoredAll(ws[..n], key), Stored(w, key), Stored(ws[i], key));
    } else {
      StoredUpdate(ws[..n], i, w, key);
      assert ws[i := w][..n] == ws[..n][i := w];
      PlusSwap(StoredAll(ws[..n][i := w], key), Stored(ws[i], key), StoredAll(ws[..n], key), Stored(w, key),
               Stored(ws[n], key));
    }
  }

  /** A metric that carries one value, as parsed ones do. */
  predicate IsSample(m: Metric) {
    m.allValues == [m.lastValue]
  }

  lemma TakeTally(w: Worker, m: Metric, key: string)
    requires IsSample(m)
    ensures Stored(Take(w, m), key) == Plus(Stored(w, key), TallyOf(m, key))
  {
    if m.key == key && key in w.metrics {
      assert multiset(w.metrics[key].allValues + [m.lastValue])
          == multiset(w.metrics[key].allValues) + multiset{m.lastValue};
    } else if m.key == key {
      assert multiset{} + multiset(m.allValues) == multiset(m.allValues);
    } else {
      assert Stored(w, key).values + multiset{} == Stored(w, key).values;
    }
  }

  lemma RelayTally(w: Worker, relayed: string, time: int, key: string)
    requires relayed in w.metrics && w.metrics[relayed].key == relayed
    ensures Stored(w, key)
         == Plus(Stored(w.(metrics := w.metrics - {relayed}), key),
                 TallyOf(w.metrics[relayed].(flushTime := time), key))
  {
    if key == relayed {
      assert multiset{} + multiset(w.metrics[key].allValues) == multiset(w.metrics[key].allValues);
    } else {
      assert Stored(w, key).values + multiset{} == Stored(w, key).values;
    }
  }

  /** For one key: what the workers received is what their maps hold and what was handed over. */
  ghost predicate Balanced(s: State, key: string) {
    TallyAll(s.received, key) == Plus(StoredAll(s.workers, key), TallyAll(HandedMetrics(s.handed), key))
  }

  lemma TallyNext(ms: seq<Metric>, m: Metric, key: string)
    ensures TallyAll(ms + [m], key) == Plus(TallyAll(ms, key), TallyOf(m, key))
  {
    assert (ms + [m])[..|ms|] == ms;
  }

  lemma {:induction false} TallyAppend(a: seq<Metric>, b: seq<Metric>, key: string)
    ensures TallyAll(a + b, key) == Plus(TallyAll(a, key), TallyAll(b, key))
  {
    if b == [] {
      assert a + b == a;
      PlusNothing(TallyAll(a, key));
    } else {
      var front, m := b[..|b| - 1], b[|b| - 1];
      assert a + b == (a + front) + [m];
      TallyNext(a + front, m, key);
      TallyAppend(a, front, key);
      TallyRest(b, key);
      PlusAssociative(TallyAll(a, key), TallyAll(front, key), TallyOf(m, key));
    }
  }

  lemma TallyRest(ms: seq<Metric>, key: string)
    requires ms != []
    ensures TallyAll(ms, key) == Plus(TallyAll(ms[..|ms| - 1], key), TallyOf(ms[|ms| - 1], key))
  {
  }

  lemma TakeBalances(received: Tally, stored: Tally, handed: Tally, before: Tally, after: Tally, stored': Tally,
                     m: Tally)
    requires received == Plus(stored, handed)
    requires Plus(stored', before) == Plus(stored, after) && after == Plus(before, m)
    ensures Plus(received, m) == Plus(stored', handed)
  {
    forall x ensures (received.values + m.values)[x] == (stored'.values + handed.values)[x] {
      assert (stored'.values + before.values)[x] == (stored.values + after.values)[x];
    }
  }

  lemma RelayBalances(received: Tally, stored: Tally, handed: Tally, before: Tally, after: Tally, stored': Tally,
                      m: Tally)
    requires received == Plus(stored, handed)
    requires Plus(stored', before) == Plus(stored, after) && before == Plus(after, m)
    ensures received == Plus(stored', Plus(handed, m))
  {
    forall x ensures received.values[x] == (stored'.values + (handed.values + m.values))[x] {
      assert (stored'.values + before.values)[x] == (stored.values + after.values)[x];
    }
  }

  lemma SameBalances(stored: Tally, before: Tally, after: Tally, stored': Tally)
    requires Plus(stored', before) == Plus(stored, after) && before == after
    ensures stored' == stored
  {
    forall x ensures stored'.values[x] == stored.values[x] {
      assert (stored'.values + before.values)[x] == (stored.values + after.values)[x];
    }
  }

  lemma HandedNext(handed: seq<Handed>, h: Handed)
    ensures HandedMetrics(handed + [h]) == HandedMetrics(handed) + [h.metric]
  {
  }

  lemma TakeKeepsBalance(accept: Acceptance, s: State, i: nat, key: string)
    requires Balanced(s, key) && Enabled(s, WorkerTake(i)) && IsSample(s.relayChannel[0])
    ensures Balanced(Next(accept, s, WorkerTake(i)), key)
  {
    var w, m := s.workers[i], s.relayChannel[0];
    var workers' := s.workers[i := Take(w, m)];
    TakeTally(w, m, key);
    StoredUpdate(s.workers, i, Take(w, m), key);
    TallyNext(s.received, m, key);
    TakeBalances(TallyAll(s.received, key), StoredAll(s.workers, key), TallyAll(HandedMetrics(s.handed), key),
                 Stored(w, key), Stored(Take(w, m), key), StoredAll(workers', key), TallyOf(m, key));
  }

  lemma RelayKeepsBalance(accept: Acceptance, s: State, i: nat, relayed: string, time: int, key: string)
    requires Balanced(s, key) && Enabled(s, RelayOne(i, relayed, time))
    requires s.workers[i].metrics[relayed].key == relayed
    ensures Balanced(Next(accept, s, RelayOne(i, relayed, time)), key)
  {
    var w := s.workers[i];
    var w' := w.(metrics := w.metrics - {relayed});
    var workers' := s.workers[i := w'];
    var h := Handed(w.metrics[relayed].(flushTime := time), w.window, s.recent);
    RelayTally(w, relayed, time, key);
    StoredUpdate(s.workers, i, w', key);
    HandedNext(s.handed, h);
    TallyNext(HandedMetrics(s.handed), h.metric, key);
    RelayBalances(TallyAll(s.received, key), StoredAll(s.workers, key), TallyAll(HandedMetrics(s.handed), key),
                  Stored(w, key), Stored(w', key), StoredAll(workers', key), TallyOf(h.metric, key));
  }

  lemma StepKeepsBalance(accept: Acceptance, s: State, step: Step, key: string)
    requires Balanced(s, key) && Windows(s) && Enabled(s, step)
    requires step.WorkerTake? ==> IsSample(s.relayChannel[0])
    ensures Balanced(Next(accept, s, step), key)
  {
    var t := Next(accept, s, step);
    match step
    case WorkerTake(i) => TakeKeepsBalance(accept, s, i, key);
    case RelayOne(i, relayed, time) =>
      RelayedIsFold(s.workers[i], relayed, time, s.recent);
      RelayKeepsBalance(accept, s, i, relayed, time, key);
    case Tick(i) => OtherWorkerStep(s, i, t, key);
    case FlushDone(i) => OtherWorkerStep(s, i, t, key);
    case WorkerHalt(i) => OtherWorkerStep(s, i, t, key);
    case _ =>
  }

  lemma OtherWorkerStep(s: State, i: nat, t: State, key: string)
    requires i < |s.workers| == |t.workers| && t.workers == s.workers[i := t.workers[i]]
    requires t.workers[i].metrics == s.workers[i].metrics
    ensures StoredAll(t.workers, key) == StoredAll(s.workers, key)
  {
    StoredUpdate(s.workers, i, t.workers[i], key);
    SameBalances(StoredAll(s.workers, key), Stored(s.workers[i], key), Stored(t.workers[i], key),
                 StoredAll(t.workers, key));
  }

  // ---------- Stopping ----------

  /** Neither the parser stops with a metric in its hand nor a worker in the middle of a flush. */
  predicate StopsBetweenTurns(s: State) {
    && (s.parserHalted ==> s.hand.None?)
    && forall i :: 0 <= i < |s.workers| ==> (s.workers[i].halted ==> !s.workers[i].flushing)
  }

  lemma StepStopsBetweenTurns(accept: Acceptance, s: State, step: Step)
    requires StopsBetweenTurns(s) && Enabled(s, step)
    ensures StopsBetweenTurns(Next(accept, s, step))
  {
  }

  // ---------- Whole runs ----------

  ghost predicate Inv(accept: Acceptance, s: State) {
    && InOrder(accept, s) && Windows(s) && StopsBetweenTurns(s)
    && forall key: string :: Balanced(s, key)
  }

  ghost predicate AcceptsSamples(accept: Acceptance) {
    forall line: string :: accept(line).Some? ==> IsSample(accept(line).value)
  }

  /** The parser of this system yields samples. */
  lemma AcceptorYieldsSamples(pf: ParseFloat, auth: Auth)
    ensures AcceptsSamples(Acceptor(pf, auth))
  {
    forall line: string | Acceptor(pf, auth)(line).Some?
      ensures IsSample(Acceptor(pf, auth)(line).value)
    {
      AcceptedKey(pf, Admit(auth, line).value);
    }
  }

  lemma {:induction false} FilterMapSamples(accept: Acceptance, lines: seq<string>)
    requires AcceptsSamples(accept)
    ensures forall i :: 0 <= i < |FilterMap(accept, lines)| ==> IsSample(FilterMap(accept, lines)[i])
  {
    if lines != [] {
      FilterMapSamples(accept, lines[..|lines| - 1]);
    }
  }

  lemma StepKeepsInv(accept: Acceptance, s: State, step: Step)
    requires AcceptsSamples(accept) && Inv(accept, s) && Enabled(s, step)
    ensures Inv(accept, Next(accept, s, step))
  {
    StepKeepsOrder(accept, s, step);
    StepKeepsWindows(accept, s, step);
    StepStopsBetweenTurns(accept, s, step);
    if step.WorkerTake? {
      FilterMapSamples(accept, s.consumed);
      assert FilterMap(accept, s.consumed)[|s.received|] == s.relayChannel[0];
    }
    forall key: string ensures Balanced(Next(accept, s, step), key) {
      StepKeepsBalance(accept, s, step, key);
    }
  }

  lemma {:induction false} RunKeepsInv(accept: Acceptance, s: State, steps: seq<Step>, t: State)
    requires AcceptsSamples(accept) && Inv(accept, s) && Run(accept, s, steps, t)
    ensures Inv(accept, t)
    decreases |steps|
  {
    if steps != [] {
      StepKeepsInv(accept, s, steps[0]);
      RunKeepsInv(accept, Next(accept, s, steps[0]), steps[1..], t);
    }
  }

  lemma {:induction false} StartHoldsNothing(ws: seq<Worker>, key: string)
    requires forall i :: 0 <= i < |ws| ==> ws[i].metrics == map[]
    ensures StoredAll(ws, key) == NOTHING
  {
    if ws != [] {
      StartHoldsNothing(ws[..|ws| - 1], key);
      PlusNothing(NOTHING);
    }
  }

  lemma StartInv(accept: Acceptance, n: nat)
    ensures Inv(accept, Start(n))
  {
    var s := Start(n);
    forall key: string ensures Balanced(s, key) {
      StartHoldsNothing(s.workers, key);
    }
  }

  /** Every state that any interleaving of `n` workers and the parser can reach. */
  lemma ReachableInv(accept: Acceptance, n: nat, steps: seq<Step>, s: State)
    requires AcceptsSamples(accept) && Run(accept, Start(n), steps, s)
    ensures Inv(accept, s)
  {
    StartInv(accept, n);
    RunKeepsInv(accept, Start(n), steps, s);
  }

  /** What is on its way or handed over, under one key. */
  function InFlight(s: State, key: string): Tally {
    Plus(TallyAll(AsSeq(s.hand), key),
         Plus(TallyAll(s.relayChannel, key),
              Plus(StoredAll(s.workers, key), TallyAll(HandedMetrics(s.handed), key))))
  }

  lemma InvConserves(accept: Acceptance, s: State, key: string)
    requires Inv(accept, s)
    ensures TallyAll(FilterMap(accept, s.consumed), key) == InFlight(s, key)
  {
    assert Balanced(s, key);
    TallyAppend(s.received + s.relayChannel, AsSeq(s.hand), key);
    TallyAppend(s.received, s.relayChannel, key);
    PlusReverse(TallyAll(s.received, key), TallyAll(s.relayChannel, key), TallyAll(AsSeq(s.hand), key));
  }

  lemma PlusReverse(a: Tally, b: Tally, c: Tally)
    ensures Plus(Plus(a, b), c) == Plus(c, Plus(b, a))
  {
    assert (a.values + b.values) + c.values == c.values + (b.values + a.values);
  }

  /** In every reachable state, for every key: the values and hits of all metrics accepted so far are
      those in the parser's hand, on the relay channel, in the workers' maps, and handed to the relay.
      And every metric handed over is the fold of its key's metrics since its worker's last flush. */
  lemma Conservation(accept: Acceptance, n: nat, steps: seq<Step>, s: State, key: string)
    requires AcceptsSamples(accept) && Run(accept, Start(n), steps, s)
    ensures TallyAll(FilterMap(accept, s.consumed), key) == InFlight(s, key)
    ensures forall h :: h in s.handed ==> IsFold(h)
  {
    ReachableInv(accept, n, steps, s);
    InvConserves(accept, s, key);
  }

  lemma NothingInFlight(s: State, key: string)
    requires s.hand.None? && s.relayChannel == []
    requires forall i :: 0 <= i < |s.workers| ==> s.workers[i].metrics == map[]
    ensures InFlight(s, key) == TallyAll(HandedMetrics(s.handed), key)
  {
    StartHoldsNothing(s.workers, key);
    PlusNothing(TallyAll(HandedMetrics(s.handed), key));
  }

  /** Once the channels and the maps are empty, everything that ever arrived and was accepted has been
      handed to the relay. */
  lemma DrainedMeansHanded(accept: Acceptance, s: State, key: string)
    requires Inv(accept, s) && s.parseChannel == [] && s.hand.None? && s.relayChannel == []
    requires forall i :: 0 <= i < |s.workers| ==> s.workers[i].metrics == map[]
    ensures TallyAll(FilterMap(accept, s.arrived), key) == TallyAll(HandedMetrics(s.handed), key)
  {
    InvConserves(accept, s, key);
    NothingInFlight(s, key);
    assert s.arrived == s.consumed;
  }

  /** The parser and every worker have stopped. */
  predicate Stopped(s: State) {
    s.parserHalted && forall i :: 0 <= i < |s.workers| ==> s.workers[i].halted
  }

  /** At quit: the parser holds nothing, every map is the fold of a window that was never flushed, and
      those maps are all that is missing between what was accepted and what is on the relay channel or
      was handed over. */
  lemma AtQuit(accept: Acceptance, n: nat, steps: seq<Step>, s: State, key: string)
    requires AcceptsSamples(accept) && Run(accept, Start(n), steps, s) && Stopped(s)
    ensures s.hand.None?
    ensures forall i :: 0 <= i < |s.workers| ==> s.workers[i].metrics == StoreOf(s.workers[i].window)
    ensures TallyAll(FilterMap(accept, s.consumed), key)
         == Plus(TallyAll(s.relayChannel, key),
                 Plus(StoredAll(s.workers, key), TallyAll(HandedMetrics(s.handed), key)))
  {
    ReachableInv(accept, n, steps, s);
    InvConserves(accept, s, key);
    forall i | 0 <= i < |s.workers| ensures s.workers[i].metrics == StoreOf(s.workers[i].window) {
      assert MirrorsWindow(s.workers[i]);
    }
    EmptyHand(s, key);
  }

  lemma EmptyHand(s: State, key: string)
    requires s.hand.None?
    ensures InFlight(s, key)
         == Plus(TallyAll(s.relayChannel, key),
                 Plus(StoredAll(s.workers, key), TallyAll(HandedMetrics(s.handed), key)))
  {
    PlusNothing(Plus(TallyAll(s.relayChannel, key),
                     Plus(StoredAll(s.workers, key), TallyAll(HandedMetrics(s.handed), key))));
  }

  // ---------- One worker, or several ----------

  /** A handed metric accounts for everything received under its key, by any worker, since the last
      flush: what the documentation promises of sums and counts per flush. */
  ghost predicate CoversInterval(h: Handed) {
    var ms := OfKey(h.recent, h.metric.key);
    ms != [] && h.metric == FoldOf(ms).(flushTime := h.metric.flushTime)
  }

  /** A single worker's window is the interval. */
  ghost predicate Lone(s: State) {
    && |s.workers| <= 1
    && (forall i :: 0 <= i < |s.workers| ==> s.workers[i].window == s.recent)
    && forall h :: h in s.handed ==> h.window == h.recent
  }

  lemma {:induction false} RunStaysLone(accept: Acceptance, s: State, steps: seq<Step>, t: State)
    requires Lone(s) && Run(accept, s, steps, t)
    ensures Lone(t)
    decreases |steps|
  {
    if steps != [] {
      RunStaysLone(accept, Next(accept, s, steps[0]), steps[1..], t);
    }
  }

  ghost predicate AllCover(s: State) {
    forall h :: h in s.handed ==> CoversInterval(h)
  }

  lemma OneWorkerCovers(accept: Acceptance, n: nat, steps: seq<Step>, s: State)
    requires n <= 1 && AcceptsSamples(accept) && Run(accept, Start(n), steps, s)
    ensures AllCover(s)
  {
    RunStaysLone(accept, Start(n), steps, s);
    ReachableInv(accept, n, steps, s);
    forall h | h in s.handed ensures CoversInterval(h) {
      assert IsFold(h);
    }
  }

  lemma {:induction false} Then(accept: Acceptance, s: State, steps: seq<Step>, t: State, step: Step)
    returns (more: seq<Step>, u: State)
    requires Run(accept, s, steps, t) && Enabled(t, step)
    ensures u == Next(accept, t, step) && Run(accept, s, more, u)
    decreases |steps|
  {
    u := Next(accept, t, step);
    if steps == [] {
      more := [step];
      assert [step][1..] == [] && Run(accept, u, [], u);
    } else {
      var s1, rest := Next(accept, s, steps[0]), [];
      rest, u := Then(accept, s1, steps[1..], t, step);
      more := [steps[0]] + rest;
      assert more[1..] == rest;
    }
  }

  /** One accepted line makes its way onto an empty relay channel and into a worker's map. */
  lemma {:induction false} Delivery(accept: Acceptance, s0: State, before: seq<Step>, s: State, line: string, i: nat)
    returns (steps: seq<Step>, t: State)
    requires Run(accept, s0, before, s) && accept(line).Some?
    requires s.parseChannel == [] && s.hand.None? && s.relayChannel == [] && !s.parserHalted
    requires Receiving(s, i)
    ensures Run(accept, s0, steps, t)
    ensures t.workers == s.workers[i := Take(s.workers[i], accept(line).value)]
    ensures t.parseChannel == [] && t.hand.None? && t.relayChannel == [] && !t.parserHalted
    ensures t.recent == s.recent + [accept(line).value] && t.handed == s.handed
  {
    var s1, s2, s3;
    steps, s1 := Then(accept, s0, before, s, Arrive(line));
    steps, s2 := Then(accept, s0, steps, s1, ParserTake);
    steps, s3 := Then(accept, s0, steps, s2, ParserSend);
    steps, t := Then(accept, s0, steps, s3, WorkerTake(i));
  }

  /** Two workers each receive the same metric. */
  lemma {:induction false} OneEach(accept: Acceptance, n: nat, line: string) returns (steps: seq<Step>, s: State)
    requires n >= 2 && accept(line).Some?
    ensures Run(accept, Start(n), steps, s) && |s.workers| == n && s.handed == []
    ensures var m, worker := accept(line).value, s.workers[0];
      && !worker.flushing && !worker.halted && s.recent == [m, m]
      && worker.metrics == map[m.key := m] && worker.window == [m]
  {
    var m := accept(line).value;
    var s0 := Start(n);
    assert Run(accept, s0, [], s0);
    var s1;
    steps, s1 := Delivery(accept, s0, [], s0, line, 0);
    steps, s := Delivery(accept, s0, steps, s1, line, 1);
    assert s.workers[0] == Take(s0.workers[0], m);
  }

  /** Two workers each receive one metric of a key; the first to flush hands over half of it. */
  lemma {:induction false} TwoWorkersSplit(accept: Acceptance, n: nat, line: string) returns (steps: seq<Step>, s: State)
    requires n >= 2 && accept(line).Some? && AcceptsSamples(accept)
    ensures Run(accept, Start(n), steps, s)
    ensures !AllCover(s)
  {
    var m := accept(line).value;
    var s1, s2;
    steps, s1 := OneEach(accept, n, line);
    steps, s2 := Then(accept, Start(n), steps, s1, Tick(0));
    steps, s := Then(accept, Start(n), steps, s2, RelayOne(0, m.key, 0));
    var h := Handed(m.(flushTime := 0), [m], [m, m]);
    assert s.handed == [h];
    HalfOfTwo(h, m);
  }

  lemma HalfOfTwo(h: Handed, m: Metric)
    requires IsSample(m) && h.metric == m.(flushTime := 0) && h.recent == [m, m]
    ensures !CoversInterval(h)
  {
    assert [m, m][..1] == [m] && [m][..0] == [];
    assert OfKey([m], m.key) == [m];
    assert OfKey([m, m], m.key) == [m] + [m];
    assert ([m] + [m])[..1] == [m];
    assert FoldOf([m] + [m]).allValues == [m.lastValue] + [m.lastValue];
  }

  ghost predicate AlwaysCover(accept: Acceptance, n: nat) {
    forall steps, s :: Run(accept, Start(n), steps, s) ==> AllCover(s)
  }

  lemma CoverInRun(accept: Acceptance, n: nat, steps: seq<Step>, s: State)
    requires AlwaysCover(accept, n) && Run(accept, Start(n), steps, s)
    ensures AllCover(s)
  {
  }

  /** Everything a flush hands over accounts for its whole interval, in every run, if and only if there
      is at most one worker, which is the configured default. */
  lemma FlushesCoverIntervalsIff(accept: Acceptance, n: nat, line: string)
    requires AcceptsSamples(accept) && accept(line).Some?
    ensures AlwaysCover(accept, n) <==> n <= 1
  {
    if n <= 1 {
      forall steps, s | Run(accept, Start(n), steps, s) ensures AllCover(s) {
        OneWorkerCovers(accept, n, steps, s);
      }
    } else {
      var steps, s := TwoWorkersSplit(accept, n, line);
      if AlwaysCover(accept, n) {
        CoverInRun(accept, n, steps, s);
      }
    }
  }
}
