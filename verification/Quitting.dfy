/** The loops of the parser and of the workers as runs of the protocol, a turn at a time, and when they
    can all stop. */
module Quitting {
  import opened Wrappers
  import opened Text
  import opened Metrics
  import Auth
  import opened Aggregation
  import Workers = Flushing
  import opened CarbonNames
  import opened Pipeline

  lemma {:induction false} RunAppend(accept: Acceptance, s: State, a: seq<Step>, t: State, b: seq<Step>, u: State)
    requires Run(accept, s, a, t) && Run(accept, t, b, u)
    ensures Run(accept, s, a + b, u)
    decreases |a|
  {
    if a == [] {
      assert a + b == b;
    } else {
      RunAppend(accept, Next(accept, s, a[0]), a[1..], t, b, u);
      assert (a + b)[0] == a[0] && (a + b)[1..] == a[1..] + b;
    }
  }

  lemma RunOne(accept: Acceptance, s: State, step: Step)
    requires Enabled(s, step)
    ensures Run(accept, s, [step], Next(accept, s, step))
  {
    assert [step][1..] == [];
    assert Run(accept, Next(accept, s, step), [], Next(accept, s, step));
  }

  /** A step first, then a run. */
  lemma RunAfter(accept: Acceptance, s: State, step: Step, steps: seq<Step>, t: State)
    requires Enabled(s, step) && Run(accept, Next(accept, s, step), steps, t)
    ensures Run(accept, s, [step] + steps, t)
  {
    RunOne(accept, s, step);
    RunAppend(accept, s, [step], Next(accept, s, step), steps, t);
  }

  // ---------- A turn of the parser ----------

  /** The parser is between turns and can take this one without waiting. */
  predicate ParserReady(accept: Acceptance, s: State, turn: Auth.Turn) {
    && !s.parserHalted && s.hand.None? && (turn.quit ==> s.quit)
    && (turn.received.Some? ==>
          && s.parseChannel != [] && s.parseChannel[0] == turn.received.value
          && (accept(turn.received.value).Some? ==> |s.relayChannel| < MAX_REQS))
  }

  /** The `select` of a turn: take a string and send what it makes. */
  lemma {:induction false} ParserReceives(accept: Acceptance, s: State, line: string)
    returns (steps: seq<Step>, t: State)
    requires !s.parserHalted && s.hand.None? && s.parseChannel != [] && s.parseChannel[0] == line
    requires accept(line).Some? ==> |s.relayChannel| < MAX_REQS
    ensures Run(accept, s, steps, t)
    ensures t == s.(parseChannel := s.parseChannel[1..], consumed := s.consumed + [line],
                    relayChannel := s.relayChannel + Auth.AsSeq(accept(line)))
  {
    var s1 := Next(accept, s, ParserTake);
    RunOne(accept, s, ParserTake);
    if accept(line).Some? {
      RunOne(accept, s1, ParserSend);
      t := Next(accept, s1, ParserSend);
      RunAppend(accept, s, [ParserTake], s1, [ParserSend], t);
      steps := [ParserTake] + [ParserSend];
    } else {
      steps, t := [ParserTake], s1;
      assert s.relayChannel + [] == s.relayChannel;
    }
  }

  /** A turn of `ParseMetrics` that is not interrupted is a run of the protocol: what it received is
      consumed, what that makes is on the relay channel, and it has stopped if it found quit set. */
  lemma {:induction false} ParserTurnIsRun(accept: Acceptance, s: State, turn: Auth.Turn)
    returns (steps: seq<Step>, t: State)
    requires ParserReady(accept, s, turn)
    ensures Run(accept, s, steps, t)
    ensures t.hand.None? && t.parserHalted == turn.quit && t.workers == s.workers && t.handed == s.handed
    ensures t.consumed == s.consumed + Auth.AsSeq(turn.received)
    ensures Auth.AsSeq(turn.received) + t.parseChannel == s.parseChannel
    ensures t.relayChannel == s.relayChannel + Auth.FilterMap(accept, Auth.AsSeq(turn.received))
  {
    steps, t := [], s;
    assert Run(accept, s, [], s);
    if turn.received.Some? {
      var line := turn.received.value;
      steps, t := ParserReceives(accept, s, line);
      OneFiltered(accept, line);
      assert [line] + s.parseChannel[1..] == s.parseChannel;
    } else {
      assert s.consumed + [] == s.consumed && s.relayChannel + [] == s.relayChannel;
      assert [] + s.parseChannel == s.parseChannel;
    }
    if turn.quit {
      steps, t := Then(accept, s, steps, t, ParserHalt);
    }
  }

  lemma OneFiltered(accept: Acceptance, line: string)
    ensures Auth.FilterMap(accept, [line]) == Auth.AsSeq(accept(line))
  {
    assert [line] == [] + [line];
    Auth.FilterMapNext(accept, [], line);
    assert [] + Auth.AsSeq(accept(line)) == Auth.AsSeq(accept(line));
  }

  // ---------- A turn of a worker ----------

  /** Only worker `i`, and what it hands over, is different. */
  ghost predicate OnlyWorkerMoved(s: State, i: nat, t: State)
    requires i < |s.workers|
  {
    && |t.workers| == |s.workers|
    && t == s.(workers := s.workers[i := t.workers[i]], handed := t.handed, recent := t.recent)
  }

  lemma KeysRest(keys: seq<string>, store: Store)
    requires keys != [] && NoDuplicates(keys) && forall key :: key in store <==> key in keys
    ensures forall key :: key in store - {keys[0]} <==> key in keys[1..]
    ensures NoDuplicates(keys[1..])
  {
    assert keys == [keys[0]] + keys[1..];
    forall key ensures key in store - {keys[0]} <==> key in keys[1..] {
      assert key in keys <==> key == keys[0] || key in keys[1..];
      assert keys[0] !in keys[1..];
    }
  }

  lemma ListsRest(batch: seq<Metric>, keys: seq<string>, store: Store)
    requires Workers.Lists(batch, keys, store) && keys != []
    ensures keys[0] in store && batch[0] == store[keys[0]].(flushTime := batch[0].flushTime)
    ensures Workers.Lists(batch[1..], keys[1..], store - {keys[0]})
  {
    assert keys[0] in keys;
    KeysRest(keys, store);
    forall i | 0 <= i < |keys[1..]|
      ensures keys[1..][i] in store - {keys[0]}
      ensures batch[1..][i] == (store - {keys[0]})[keys[1..][i]].(flushTime := batch[1..][i].flushTime)
    {
      assert keys[1..][i] in keys[1..];
      assert keys[1..][i] == keys[i + 1] && batch[1..][i] == batch[i + 1];
    }
  }

  /** From `s` to `t` worker `i` has flushed `batch`. */
  ghost predicate HasFlushed(s: State, i: nat, batch: seq<Metric>, t: State)
    requires i < |s.workers|
  {
    && OnlyWorkerMoved(s, i, t)
    && t.workers[i] == s.workers[i].(metrics := map[], flushing := false, window := [])
    && HandedMetrics(t.handed) == HandedMetrics(s.handed) + batch
  }

  lemma {:induction false} FlushOfNothing(accept: Acceptance, s: State, i: nat, batch: seq<Metric>, keys: seq<string>)
    returns (t: State)
    requires Flushing(s, i) && Workers.Lists(batch, keys, s.workers[i].metrics) && keys == []
    ensures Run(accept, s, [FlushDone(i)], t) && HasFlushed(s, i, batch, t)
  {
    assert s.workers[i].metrics == map[] && batch == [];
    t := Next(accept, s, FlushDone(i));
    RunOne(accept, s, FlushDone(i));
    assert HandedMetrics(s.handed) + [] == HandedMetrics(s.handed);
  }

  /** The worker with one entry less, that entry handed over. */
  ghost predicate HasRelayed(s: State, i: nat, key: string, m: Metric, t: State)
    requires i < |s.workers|
  {
    && OnlyWorkerMoved(s, i, t)
    && t.workers[i] == s.workers[i].(metrics := s.workers[i].metrics - {key})
    && HandedMetrics(t.handed) == HandedMetrics(s.handed) + [m]
  }

  lemma {:induction false} RelayOneOf(accept: Acceptance, s: State, i: nat, key: string, m: Metric) returns (t: State)
    requires Flushing(s, i) && key in s.workers[i].metrics
    requires m == s.workers[i].metrics[key].(flushTime := m.flushTime)
    ensures Run(accept, s, [RelayOne(i, key, m.flushTime)], t)
    ensures HasRelayed(s, i, key, m, t)
  {
    t := Next(accept, s, RelayOne(i, key, m.flushTime));
    RunOne(accept, s, RelayOne(i, key, m.flushTime));
    HandedNext(s.handed, Handed(m, s.workers[i].window, s.recent));
    assert t.handed == s.handed + [Handed(m, s.workers[i].window, s.recent)];
  }

  lemma {:induction false} RelayFirst(accept: Acceptance, s: State, i: nat, batch: seq<Metric>, keys: seq<string>) returns (t: State)
    requires Flushing(s, i) && Workers.Lists(batch, keys, s.workers[i].metrics) && keys != []
    ensures Run(accept, s, [RelayOne(i, keys[0], batch[0].flushTime)], t)
    ensures HasRelayed(s, i, keys[0], batch[0], t)
    ensures Flushing(t, i) && Workers.Lists(batch[1..], keys[1..], t.workers[i].metrics)
  {
    ListsRest(batch, keys, s.workers[i].metrics);
    t := RelayOneOf(accept, s, i, keys[0], batch[0]);
  }

  lemma FlushesOn(s: State, i: nat, key: string, batch: seq<Metric>, s1: State, t: State)
    requires i < |s.workers| && batch != []
    requires HasRelayed(s, i, key, batch[0], s1) && HasFlushed(s1, i, batch[1..], t)
    ensures HasFlushed(s, i, batch, t)
  {
    Associative(HandedMetrics(s.handed), [batch[0]], batch[1..]);
    assert [batch[0]] + batch[1..] == batch;
    assert s.workers[i := s1.workers[i]][i := t.workers[i]] == s.workers[i := t.workers[i]];
  }

  /** A flush hands over a listing of the worker's map, entry by entry, and leaves the map empty. */
  lemma {:induction false} FlushIsRun(accept: Acceptance, s: State, i: nat, batch: seq<Metric>, keys: seq<string>)
    returns (steps: seq<Step>, t: State)
    requires Flushing(s, i) && Workers.Lists(batch, keys, s.workers[i].metrics)
    ensures Run(accept, s, steps, t) && HasFlushed(s, i, batch, t)
    decreases |keys|
  {
    if keys == [] {
      steps := [FlushDone(i)];
      t := FlushOfNothing(accept, s, i, batch, keys);
    } else {
      var first := [RelayOne(i, keys[0], batch[0].flushTime)];
      var s1 := RelayFirst(accept, s, i, batch, keys);
      var more;
      more, t := FlushIsRun(accept, s1, i, batch[1..], keys[1..]);
      RunAppend(accept, s, first, s1, more, t);
      steps := first + more;
      FlushesOn(s, i, keys[0], batch, s1, t);
    }
  }

  /** The worker is between turns and what the turn receives is next on the channel. */
  predicate WorkerReady(s: State, i: nat, turn: Workers.Turn) {
    && Receiving(s, i)
    && (turn.received.Some? ==> s.relayChannel != [] && s.relayChannel[0] == turn.received.value)
  }

  /** The first `select` of a turn. */
  lemma {:induction false} WorkerReceives(accept: Acceptance, s: State, i: nat, received: Option<Metric>)
    returns (steps: seq<Step>, t: State)
    requires WorkerReady(s, i, Workers.Turn(false, received, false)) && MirrorsWindow(s.workers[i])
    ensures Run(accept, s, steps, t) && Receiving(t, i) && MirrorsWindow(t.workers[i])
    ensures t.workers == s.workers[i := t.workers[i]] && t.handed == s.handed && t.hand == s.hand
    ensures t.workers[i].window == s.workers[i].window + Auth.AsSeq(received)
    ensures Auth.AsSeq(received) + t.relayChannel == s.relayChannel
  {
    if received.Some? {
      RunOne(accept, s, WorkerTake(i));
      steps, t := [WorkerTake(i)], Next(accept, s, WorkerTake(i));
      TakeMirrors(s.workers[i], received.value);
      assert [received.value] + s.relayChannel[1..] == s.relayChannel;
    } else {
      steps, t := [], s;
      assert s.workers[i := s.workers[i]] == s.workers;
      assert s.workers[i].window + [] == s.workers[i].window && [] + s.relayChannel == s.relayChannel;
      assert Run(accept, s, [], s);
    }
  }

  lemma {:induction false} WorkerFlushes(accept: Acceptance, s: State, i: nat, batch: seq<Metric>)
    returns (steps: seq<Step>, t: State)
    requires Receiving(s, i) && MirrorsWindow(s.workers[i]) && Workers.FlushedBatch(batch, s.workers[i].window)
    ensures Run(accept, s, steps, t) && HasFlushed(s, i, batch, t)
  {
    var s1 := Next(accept, s, Tick(i));
    var keys :| Workers.Lists(batch, keys, StoreOf(s.workers[i].window));
    var more;
    more, t := FlushIsRun(accept, s1, i, batch, keys);
    RunAfter(accept, s, Tick(i), more, t);
    steps := [Tick(i)] + more;
    assert s.workers[i := s1.workers[i]][i := t.workers[i]] == s.workers[i := t.workers[i]];
  }

  /** A turn of `RelayMetrics` that is not interrupted is a run of the protocol: what it received has
      left the channel, and whatever batches `TakeTurn` may flush is what is handed over. */
  lemma {:induction false} WorkerTurnIsRun(accept: Acceptance, s: State, i: nat, turn: Workers.Turn,
                                           flushed: seq<seq<Metric>>)
    returns (steps: seq<Step>, t: State)
    requires WorkerReady(s, i, turn) && MirrorsWindow(s.workers[i])
    requires |flushed| == if turn.tick then 1 else 0
    requires turn.tick ==>
               Workers.FlushedBatch(flushed[0], s.workers[i].window + Auth.AsSeq(turn.received))
    ensures Run(accept, s, steps, t) && Receiving(t, i)
    ensures t.workers == s.workers[i := t.workers[i]] && t.hand == s.hand
    ensures t.workers[i].window == Workers.OpenAfter(s.workers[i].window, turn)
    ensures t.workers[i].metrics == StoreOf(t.workers[i].window)
    ensures Auth.AsSeq(turn.received) + t.relayChannel == s.relayChannel
    ensures HandedMetrics(t.handed) == HandedMetrics(s.handed) + Workers.Flatten(flushed)
  {
    var s1;
    steps, s1 := WorkerReceives(accept, s, i, turn.received);
    t := s1;
    if turn.tick {
      var more;
      more, t := WorkerFlushes(accept, s1, i, flushed[0]);
      RunAppend(accept, s, steps, s1, more, t);
      steps := steps + more;
      OneFlattened(flushed[0]);
      assert flushed == [flushed[0]];
      assert s.workers[i := s1.workers[i]][i := t.workers[i]] == s.workers[i := t.workers[i]];
    } else {
      assert flushed == [];
      assert HandedMetrics(s.handed) + [] == HandedMetrics(s.handed);
    }
  }

  lemma OneFlattened(batch: seq<Metric>)
    ensures Workers.Flatten([batch]) == batch
  {
    assert [batch][..0] == [] && [] + batch == batch;
  }

  // ---------- When everything can stop ----------

  /** The parser holds a metric for which there is no room, and nobody is left to make room. */
  predicate Deadlocked(s: State) {
    && s.hand.Some? && |s.relayChannel| >= MAX_REQS
    && forall i :: 0 <= i < |s.workers| ==> s.workers[i].halted
  }

  ghost predicate CanStop(accept: Acceptance, s: State) {
    exists steps, t :: Run(accept, s, steps, t) && Stopped(t)
  }

  lemma {:induction false} StaysDeadlocked(accept: Acceptance, s: State, steps: seq<Step>, t: State)
    requires Deadlocked(s) && StopsBetweenTurns(s) && Run(accept, s, steps, t)
    ensures Deadlocked(t) && StopsBetweenTurns(t)
    decreases |steps|
  {
    if steps != [] {
      StaysDeadlocked(accept, Next(accept, s, steps[0]), steps[1..], t);
    }
  }

  /** Any worker that has not stopped can get between turns, whatever it was doing. */
  lemma {:induction false} FinishTurn(accept: Acceptance, s: State, i: nat) returns (steps: seq<Step>, t: State)
    requires i < |s.workers| && !s.workers[i].halted
    ensures Run(accept, s, steps, t) && Receiving(t, i) && OnlyWorkerMoved(s, i, t)
    decreases |s.workers[i].metrics|
  {
    if !s.workers[i].flushing {
      steps, t := [], s;
      assert s.workers[i := s.workers[i]] == s.workers;
      assert Run(accept, s, [], s);
    } else if s.workers[i].metrics == map[] {
      RunOne(accept, s, FlushDone(i));
      steps, t := [FlushDone(i)], Next(accept, s, FlushDone(i));
    } else {
      var key :| key in s.workers[i].metrics;
      var s1 := Next(accept, s, RelayOne(i, key, 0));
      var more;
      more, t := FinishTurn(accept, s1, i);
      RunAfter(accept, s, RelayOne(i, key, 0), more, t);
      steps := [RelayOne(i, key, 0)] + more;
      assert s.workers[i := s1.workers[i]][i := t.workers[i]] == s.workers[i := t.workers[i]];
    }
  }

  /** Once the parser has stopped, one worker after the other can. */
  lemma {:induction false} HaltWorkers(accept: Acceptance, s: State, k: nat) returns (steps: seq<Step>, t: State)
    requires s.quit && s.parserHalted && k <= |s.workers|
    requires forall j :: 0 <= j < k ==> s.workers[j].halted
    ensures Run(accept, s, steps, t) && Stopped(t)
    decreases |s.workers| - k
  {
    steps, t := [], s;
    assert Run(accept, s, [], s);
    if k < |s.workers| {
      if !s.workers[k].halted {
        var s1;
        steps, s1 := FinishTurn(accept, s, k);
        steps, t := Then(accept, s, steps, s1, WorkerHalt(k));
      }
      var more, u := HaltWorkers(accept, t, k + 1);
      RunAppend(accept, s, steps, t, more, u);
      steps, t := steps + more, u;
    }
  }

  /** Neither channel holds more than it can. */
  predicate WithinCapacity(s: State) {
    |s.parseChannel| <= MAX_REQS && |s.relayChannel| <= MAX_REQS
  }

  lemma {:induction false} RunKeepsCapacity(accept: Acceptance, s: State, steps: seq<Step>, t: State)
    requires WithinCapacity(s) && StopsBetweenTurns(s) && Run(accept, s, steps, t)
    ensures WithinCapacity(t) && StopsBetweenTurns(t)
    decreases |steps|
  {
    if steps != [] {
      RunKeepsCapacity(accept, Next(accept, s, steps[0]), steps[1..], t);
    }
  }

  /** The parser gets rid of what it holds. */
  lemma {:induction false} EmptyTheHand(accept: Acceptance, s: State) returns (steps: seq<Step>, t: State)
    requires !Deadlocked(s) && WithinCapacity(s)
    ensures Run(accept, s, steps, t) && t.hand.None?
  {
    steps, t := [], s;
    assert Run(accept, s, [], s);
    if s.hand.Some? {
      if |s.relayChannel| >= MAX_REQS {
        var i :| 0 <= i < |s.workers| && !s.workers[i].halted;
        steps, t := MakeRoom(accept, s, i);
      }
      steps, t := Then(accept, s, steps, t, ParserSend);
    }
  }

  lemma {:induction false} MakeRoom(accept: Acceptance, s: State, i: nat) returns (steps: seq<Step>, t: State)
    requires |s.relayChannel| == MAX_REQS && i < |s.workers| && !s.workers[i].halted
    ensures Run(accept, s, steps, t) && |t.relayChannel| < MAX_REQS && t.hand == s.hand
  {
    var s1;
    steps, s1 := FinishTurn(accept, s, i);
    steps, t := Then(accept, s, steps, s1, WorkerTake(i));
  }

  lemma {:induction false} StopRun(accept: Acceptance, s: State) returns (steps: seq<Step>, t: State)
    requires !Deadlocked(s) && WithinCapacity(s)
    ensures Run(accept, s, steps, t) && Stopped(t)
  {
    var s1, s2;
    steps, s1 := EmptyTheHand(accept, s);
    steps, s2 := Then(accept, s, steps, s1, Quit);
    steps, s2 := Then(accept, s, steps, s2, ParserHalt);
    var more;
    more, t := HaltWorkers(accept, s2, 0);
    RunAppend(accept, s, steps, s2, more, t);
    steps := steps + more;
  }

  /** From a reachable state parser and workers can all stop, so that what is said about quitting can
      come to apply, if and only if it is not the case that the workers have stopped already and the
      parser holds a metric for which the full channel has no room. */
  lemma CanStopIff(accept: Acceptance, n: nat, before: seq<Step>, s: State)
    requires Run(accept, Start(n), before, s)
    ensures CanStop(accept, s) <==> !Deadlocked(s)
  {
    RunKeepsCapacity(accept, Start(n), before, s);
    if !Deadlocked(s) {
      var steps, t := StopRun(accept, s);
    } else if CanStop(accept, s) {
      var steps, t :| Run(accept, s, steps, t) && Stopped(t);
      StaysDeadlocked(accept, s, steps, t);
    }
  }

  // ---------- That it can happen ----------

  /** `k` accepted lines fill the channel while no worker takes anything. */
  lemma {:induction false} Filling(accept: Acceptance, n: nat, line: string, k: nat)
    returns (steps: seq<Step>, s: State)
    requires accept(line).Some? && k <= MAX_REQS
    ensures Run(accept, Start(n), steps, s)
    ensures |s.relayChannel| == k && s.parseChannel == [] && s.hand.None? && !s.parserHalted
    ensures s.workers == Start(n).workers
    decreases k
  {
    if k == 0 {
      steps, s := [], Start(n);
      assert Run(accept, s, [], s);
    } else {
      var s1;
      steps, s1 := Filling(accept, n, line, k - 1);
      steps, s := HoldingOne(accept, Start(n), steps, s1, line);
      steps, s := Then(accept, Start(n), steps, s, ParserSend);
    }
  }

  lemma {:induction false} HoldingOne(accept: Acceptance, s0: State, before: seq<Step>, s: State, line: string)
    returns (steps: seq<Step>, t: State)
    requires Run(accept, s0, before, s) && accept(line).Some?
    requires s.parseChannel == [] && s.hand.None? && !s.parserHalted
    ensures Run(accept, s0, steps, t) && t.hand.Some? && t.parseChannel == [] && !t.parserHalted
    ensures t.relayChannel == s.relayChannel && t.workers == s.workers
  {
    var s1;
    steps, s1 := Then(accept, s0, before, s, Arrive(line));
    steps, t := Then(accept, s0, steps, s1, ParserTake);
  }

  lemma {:induction false} HaltIdle(accept: Acceptance, s: State, k: nat) returns (steps: seq<Step>, t: State)
    requires s.quit && k <= |s.workers|
    requires forall j :: 0 <= j < |s.workers| ==> !s.workers[j].flushing && (j < k ==> s.workers[j].halted)
    ensures Run(accept, s, steps, t) && t.hand == s.hand && t.relayChannel == s.relayChannel
    ensures forall j :: 0 <= j < |t.workers| ==> t.workers[j].halted
    decreases |s.workers| - k
  {
    steps, t := [], s;
    assert Run(accept, s, [], s);
    if k < |s.workers| {
      if !s.workers[k].halted {
        steps, t := Then(accept, s, steps, t, WorkerHalt(k));
      }
      var more, u := HaltIdle(accept, t, k + 1);
      RunAppend(accept, s, steps, t, more, u);
      steps, t := steps + more, u;
    }
  }

  /** Any acceptable line, sent once more often than the channel has room before the workers stop, leaves
      the parser waiting for ever. */
  lemma {:induction false} DeadlockReachable(accept: Acceptance, n: nat, line: string) returns (steps: seq<Step>, s: State)
    requires accept(line).Some?
    ensures Run(accept, Start(n), steps, s) && Deadlocked(s) && !CanStop(accept, s)
  {
    var s1, s2;
    steps, s1 := Filling(accept, n, line, MAX_REQS);
    steps, s1 := HoldingOne(accept, Start(n), steps, s1, line);
    steps, s1 := Then(accept, Start(n), steps, s1, Quit);
    var more;
    more, s2 := HaltIdle(accept, s1, 0);
    RunAppend(accept, Start(n), steps, s1, more, s2);
    steps, s := steps + more, s2;
    CanStopIff(accept, n, steps, s);
  }
}
