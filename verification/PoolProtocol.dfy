/** The relay workers and their connection pool as a protocol: statsgod/connectionpool.go and
    `sendCarbonMetric` of statsgod/relay.go, one atomic action a step, in any interleaving.

    The `Connections` channel is a queue of at most `size` connections. A worker that times out gets
    a `NilConn`, and closing that panics, which ends the whole process. */
module PoolProtocol {
  import opened Wrappers

  type Conn = nat

  /** Where a worker is inside `sendCarbonMetric`. */
  datatype Pc =
    | Out                       // not inside a call
    | Waiting                   // at the select of GetConnection
    | Writing(conn: Conn)       // has checked a connection out
    | Returning(conn: Conn)     // has written; about to put the connection back
    | Checking                  // has closed its connection; about to compare len with Size
    | Dialling                  // found room
    | Pushing(conn: Conn)       // has dialled; about to put the new connection on the channel

  /** `retry` is the flag of the current invocation; the counters are about the whole call. */
  datatype Worker = Worker(pc: Pc, retry: bool, attempts: nat, writes: nat)

  /** A finished call: what it returned, and how often it checked out and wrote. */
  datatype Call = Call(sent: bool, attempts: nat, writes: nat)

  datatype Pool = Pool(
    size: nat,
    idle: seq<Conn>,
    open: set<Conn>,
    errorCount: nat,
    refused: nat,
    crashed: bool,
    workers: seq<Worker>,
    calls: seq<Call>)

  datatype Step =
    | Begin(w: nat)
    | Take(w: nat)
    | Timeout(w: nat)
    | WriteOk(w: nat)
    | WriteFail(w: nat)
    | Return(w: nat)
    | Refuse(w: nat)
    | FindRoom(w: nat)
    | DialOk(w: nat, conn: Conn)
    | DialFail(w: nat)
    | Push(w: nat)

  /** A send on the full channel would block, so it is not enabled; a dial yields a connection that is
      not open yet. */
  predicate Enabled(s: Pool, step: Step) {
    && !s.crashed && step.w < |s.workers|
    && var pc := s.workers[step.w].pc;
       match step
       case Begin(_) => pc.Out?
       case Take(_) => pc.Waiting? && s.idle != []
       case Timeout(_) => pc.Waiting? && s.idle == []
       case WriteOk(_) => pc.Writing?
       case WriteFail(_) => pc.Writing?
       case Return(_) => pc.Returning? && |s.idle| < s.size
       case Refuse(_) => pc.Checking? && |s.idle| >= s.size
       case FindRoom(_) => pc.Checking? && |s.idle| < s.size
       case DialOk(_, c) => pc.Dialling? && c !in s.open
       case DialFail(_) => pc.Dialling?
       case Push(_) => pc.Pushing? && |s.idle| < s.size
  }

  function SetWorker(s: Pool, w: nat, worker: Worker): Pool
    requires w < |s.workers|
  {
    s.(workers := s.workers[w := worker])
  }

  /** The end of an invocation that did not send: retry once, then give up. */
  function Failed(s: Pool, w: nat): Pool
    requires w < |s.workers|
  {
    var worker := s.workers[w];
    if worker.retry then SetWorker(s, w, worker.(pc := Waiting, retry := false))
    else
      SetWorker(s, w, worker.(pc := Out)).(
        calls := s.calls + [Call(false, worker.attempts, worker.writes)])
  }

  function Next(s: Pool, step: Step): Pool
    requires Enabled(s, step)
  {
    var w := step.w;
    var worker := s.workers[w];
    match step
    case Begin(_) => SetWorker(s, w, Worker(Waiting, true, 0, 0))
    case Take(_) =>
      SetWorker(s, w, worker.(pc := Writing(s.idle[0]), attempts := worker.attempts + 1)).(
        idle := s.idle[1..])
    case Timeout(_) => s.(crashed := true)
    case WriteOk(_) =>
      SetWorker(s, w, worker.(pc := Returning(worker.pc.conn), writes := worker.writes + 1))
    case WriteFail(_) =>
      SetWorker(s, w, worker.(pc := Checking)).(open := s.open - {worker.pc.conn})
    case Return(_) =>
      SetWorker(s, w, worker.(pc := Out)).(
        idle := s.idle + [worker.pc.conn],
        calls := s.calls + [Call(true, worker.attempts, worker.writes)])
    case Refuse(_) => Failed(s.(refused := s.refused + 1), w)
    case FindRoom(_) => SetWorker(s, w, worker.(pc := Dialling))
    case DialOk(_, c) => SetWorker(s, w, worker.(pc := Pushing(c))).(open := s.open + {c})
    case DialFail(_) => Failed(s.(errorCount := s.errorCount + 1), w)
    case Push(_) => Failed(s.(idle := s.idle + [worker.pc.conn]), w)
  }

  /** `steps` is a possible interleaving that leads from `s` to `t`. */
  ghost predicate Run(s: Pool, steps: seq<Step>, t: Pool)
    decreases |steps|
  {
    if steps == [] then s == t
    else Enabled(s, steps[0]) && Run(Next(s, steps[0]), steps[1..], t)
  }

  /** A pool on which every dial of `CreateConnectionPool` succeeded, and `n` workers. */
  ghost predicate Initial(s: Pool) {
    && |s.idle| == s.size && multiset(s.idle) == multiset(s.open)
    && s.errorCount == 0 && s.refused == 0 && !s.crashed && s.calls == []
    && forall w :: 0 <= w < |s.workers| ==> s.workers[w].pc.Out?
  }

  // ---------- Counting workers ----------

  function Sum(f: Worker -> nat, ws: seq<Worker>): nat {
    if ws == [] then 0 else Sum(f, ws[..|ws| - 1]) + f(ws[|ws| - 1])
  }

  lemma {:induction false} SumUpdate(f: Worker -> nat, ws: seq<Worker>, w: nat, x: Worker)
    requires w < |ws|
    ensures Sum(f, ws[w := x]) + f(ws[w]) == Sum(f, ws) + f(x)
  {
    var n := |ws| - 1;
    if w == n {
      assert ws[w := x][..n] == ws[..n];
    } else {
      SumUpdate(f, ws[..n], w, x);
      assert ws[w := x][..n] == ws[..n][w := x];
    }
  }

  lemma {:induction false} SumAtMost(f: Worker -> nat, ws: seq<Worker>, bound: nat)
    requires forall w :: 0 <= w < |ws| ==> f(ws[w]) <= bound
    ensures Sum(f, ws) <= bound * |ws|
  {
    if ws != [] {
      SumAtMost(f, ws[..|ws| - 1], bound);
    }
  }

  /** A worker accounts for one connection from checking it out until that connection, or the one
      dialled in its place, is back on the channel or the dial has failed. */
  function BusyOf(worker: Worker): nat {
    if worker.pc.Out? || worker.pc.Waiting? then 0 else 1
  }

  function Busy(ws: seq<Worker>): nat {
    Sum(BusyOf, ws)
  }

  function Own(worker: Worker): multiset<Conn> {
    match worker.pc
    case Writing(c) => multiset{c}
    case Returning(c) => multiset{c}
    case Pushing(c) => multiset{c}
    case _ => multiset{}
  }

  /** The connections held by workers. */
  function Held(ws: seq<Worker>): multiset<Conn> {
    if ws == [] then multiset{} else Held(ws[..|ws| - 1]) + Own(ws[|ws| - 1])
  }

  lemma AddBoth(a: multiset<Conn>, b: multiset<Conn>, c: multiset<Conn>, d: multiset<Conn>,
                more: multiset<Conn>)
    requires a + b == c + d
    ensures (a + more) + b == (c + more) + d
  {
    assert (a + more) + b == (a + b) + more;
    assert (c + more) + d == (c + d) + more;
  }

  lemma Exchange(a: multiset<Conn>, b: multiset<Conn>, c: multiset<Conn>)
    ensures (a + b) + c == (a + c) + b
  {
  }

  lemma HeldLast(ws: seq<Worker>, x: Worker)
    requires ws != []
    ensures var n := |ws| - 1; Held(ws[n := x]) == Held(ws[..n]) + Own(x)
  {
    assert ws[|ws| - 1 := x][..|ws| - 1] == ws[..|ws| - 1];
  }

  lemma HeldFront(ws: seq<Worker>, w: nat, x: Worker)
    requires w < |ws| - 1
    ensures var n := |ws| - 1; Held(ws[w := x]) == Held(ws[..n][w := x]) + Own(ws[n])
  {
    assert ws[w := x][..|ws| - 1] == ws[..|ws| - 1][w := x];
  }

  lemma {:induction false} HeldUpdate(ws: seq<Worker>, w: nat, x: Worker)
    requires w < |ws|
    ensures Held(ws[w := x]) + Own(ws[w]) == Held(ws) + Own(x)
  {
    var n := |ws| - 1;
    if w == n {
      HeldLast(ws, x);
      Exchange(Held(ws[..n]), Own(x), Own(ws[w]));
    } else {
      HeldFront(ws, w, x);
      HeldUpdate(ws[..n], w, x);
      AddBoth(Held(ws[..n][w := x]), Own(ws[w]), Held(ws[..n]), Own(x), Own(ws[n]));
    }
  }

  // ---------- The invariant ----------

  /** What the counters of a worker are at each point of its call. */
  predicate Honest(worker: Worker) {
    var round := if worker.retry then 0 else 1;
    match worker.pc
    case Out => true
    case Waiting => worker.attempts == round && worker.writes == 0
    case Returning(_) => worker.attempts == round + 1 && worker.writes == 1
    case _ => worker.attempts == round + 1 && worker.writes == 0
  }

  /** A call returns true exactly when it wrote, it never writes twice, and it gives up only after two
      attempts. */
  predicate HonestCall(call: Call) {
    && 1 <= call.attempts <= 2 && call.writes <= 1
    && (call.sent <==> call.writes == 1)
    && (!call.sent ==> call.attempts == 2)
  }

  ghost predicate Inv(s: Pool) {
    && |s.idle| + Busy(s.workers) + s.errorCount == s.size
    && s.refused == 0
    && multiset(s.idle) + Held(s.workers) == multiset(s.open)
    && (forall w :: 0 <= w < |s.workers| ==> Honest(s.workers[w]))
    && (forall c :: c in s.calls ==> HonestCall(c))
    && (s.crashed ==> s.errorCount + |s.workers| > s.size)
  }

  lemma {:induction false} SumZero(f: Worker -> nat, ws: seq<Worker>)
    requires forall w :: 0 <= w < |ws| ==> f(ws[w]) == 0
    ensures Sum(f, ws) == 0
  {
    SumAtMost(f, ws, 0);
  }

  lemma {:induction false} HeldNone(ws: seq<Worker>)
    requires forall w :: 0 <= w < |ws| ==> Own(ws[w]) == multiset{}
    ensures Held(ws) == multiset{}
  {
    if ws != [] {
      HeldNone(ws[..|ws| - 1]);
    }
  }

  lemma InitialInv(s: Pool)
    requires Initial(s)
    ensures Inv(s)
  {
    SumZero(BusyOf, s.workers);
    HeldNone(s.workers);
  }

  /** A busy worker leaves room on the channel; an idle one leaves a worker uncounted. */
  lemma BusyBounds(ws: seq<Worker>, w: nat)
    requires w < |ws|
    ensures BusyOf(ws[w]) == 1 ==> Busy(ws) >= 1
    ensures BusyOf(ws[w]) == 0 ==> Busy(ws) <= |ws| - 1
  {
    var idle := Worker(Out, false, 0, 0);
    SumUpdate(BusyOf, ws, w, idle);
    var busy := Worker(Checking, false, 0, 0);
    SumUpdate(BusyOf, ws, w, busy);
    SumAtMost(BusyOf, ws[w := busy], 1);
  }

  lemma OwnIsHeld(ws: seq<Worker>, w: nat)
    requires w < |ws|
    ensures Own(ws[w]) <= Held(ws)
  {
    HeldUpdate(ws, w, Worker(Out, false, 0, 0));
  }

  lemma CloseOne(open: set<Conn>, c: Conn)
    requires c in open
    ensures multiset(open) == multiset(open - {c}) + multiset{c}
  {
  }

  lemma OpenOne(open: set<Conn>, c: Conn)
    requires c !in open
    ensures multiset(open + {c}) == multiset(open) + multiset{c}
  {
  }

  lemma TakeOne(idle: seq<Conn>)
    requires idle != []
    ensures multiset(idle) == multiset(idle[1..]) + multiset{idle[0]}
  {
    assert idle == [idle[0]] + idle[1..];
  }

  /** What a step does to the channel, to its worker's connection and to the open connections. */
  ghost predicate Moved(idle: multiset<Conn>, open: multiset<Conn>, own: multiset<Conn>,
                        idle': multiset<Conn>, open': multiset<Conn>, own': multiset<Conn>)
  {
    || (idle == idle' + own' && own == multiset{} && open' == open)   // taken from the channel
    || (idle' == idle + own && own' == multiset{} && open' == open)   // put on the channel
    || (open == open' + own && own' == multiset{} && idle' == idle)   // closed
    || (open' == open + own' && own == multiset{} && idle' == idle)   // dialled
    || (idle' == idle && own' == own && open' == open)
  }

  lemma TakeMoves(s: Pool, step: Step)
    requires Enabled(s, step) && step.Take?
    ensures var t := Next(s, step);
      Moved(multiset(s.idle), multiset(s.open), Own(s.workers[step.w]),
            multiset(t.idle), multiset(t.open), Own(t.workers[step.w]))
  {
    TakeOne(s.idle);
  }

  lemma CloseMoves(s: Pool, step: Step)
    requires Enabled(s, step) && step.WriteFail? && Own(s.workers[step.w]) <= multiset(s.open)
    ensures var t := Next(s, step);
      Moved(multiset(s.idle), multiset(s.open), Own(s.workers[step.w]),
            multiset(t.idle), multiset(t.open), Own(t.workers[step.w]))
  {
    var c := s.workers[step.w].pc.conn;
    assert Own(s.workers[step.w]) == multiset{c};
    assert c in multiset(s.open);
    CloseOne(s.open, c);
  }

  lemma DialMoves(s: Pool, step: Step)
    requires Enabled(s, step) && step.DialOk?
    ensures var t := Next(s, step);
      Moved(multiset(s.idle), multiset(s.open), Own(s.workers[step.w]),
            multiset(t.idle), multiset(t.open), Own(t.workers[step.w]))
  {
    OpenOne(s.open, step.conn);
  }

  lemma PutMoves(s: Pool, step: Step)
    requires Enabled(s, step) && (step.Return? || step.Push?)
    ensures var t := Next(s, step);
      Moved(multiset(s.idle), multiset(s.open), Own(s.workers[step.w]),
            multiset(t.idle), multiset(t.open), Own(t.workers[step.w]))
  {
    var t, c := Next(s, step), s.workers[step.w].pc.conn;
    assert t.idle == s.idle + [c] && t.open == s.open;
    assert Own(t.workers[step.w]) == multiset{};
    assert multiset(t.idle) == multiset(s.idle) + multiset{c};
  }

  lemma FailedMoves(s: Pool, w: nat)
    requires w < |s.workers|
    ensures var t := Failed(s, w);
      t.idle == s.idle && t.open == s.open && Own(t.workers[w]) == multiset{}
  {
  }

  lemma LocalMoves(s: Pool, step: Step)
    requires Enabled(s, step)
    requires step.Begin? || step.Timeout? || step.WriteOk? || step.FindRoom?
    ensures var t := Next(s, step);
      t.idle == s.idle && Own(t.workers[step.w]) == Own(s.workers[step.w]) && t.open == s.open
  {
  }

  lemma OtherMoves(s: Pool, step: Step)
    requires Enabled(s, step) && !step.Take? && !step.WriteFail? && !step.DialOk?
    requires !step.Return? && !step.Push?
    ensures var t := Next(s, step);
      t.idle == s.idle && Own(t.workers[step.w]) == Own(s.workers[step.w]) && t.open == s.open
  {
    match step
    case Refuse(w) => FailedMoves(s.(refused := s.refused + 1), w);
    case DialFail(w) => FailedMoves(s.(errorCount := s.errorCount + 1), w);
    case _ => LocalMoves(s, step);
  }

  /** Connections change hands one at a time, and only closed ones disappear. */
  lemma StepKeepsOwnership(s: Pool, step: Step)
    requires Enabled(s, step) && multiset(s.idle) + Held(s.workers) == multiset(s.open)
    ensures var t := Next(s, step); multiset(t.idle) + Held(t.workers) == multiset(t.open)
  {
    var t, w := Next(s, step), step.w;
    OwnIsHeld(s.workers, w);
    match step {
      case Take(_) => TakeMoves(s, step);
      case WriteFail(_) => CloseMoves(s, step);
      case DialOk(_, _) => DialMoves(s, step);
      case Return(_) => PutMoves(s, step);
      case Push(_) => PutMoves(s, step);
      case _ => OtherMoves(s, step);
    }
    OnlyItsWorker(s, step);
    HeldUpdate(s.workers, w, t.workers[w]);
    Balance(multiset(s.idle), Held(s.workers), multiset(s.open), Own(s.workers[w]),
            multiset(t.idle), Held(t.workers), multiset(t.open), Own(t.workers[w]));
  }

  lemma OnlyItsWorker(s: Pool, step: Step)
    requires Enabled(s, step)
    ensures Next(s, step).workers == s.workers[step.w := Next(s, step).workers[step.w]]
  {
  }

  lemma Balance(idle: multiset<Conn>, held: multiset<Conn>, open: multiset<Conn>, own: multiset<Conn>,
                idle': multiset<Conn>, held': multiset<Conn>, open': multiset<Conn>, own': multiset<Conn>)
    requires idle + held == open
    requires held' + own == held + own'
    requires Moved(idle, open, own, idle', open', own')
    ensures idle' + held' == open'
  {
    forall c ensures (idle' + held')[c] == open'[c] {
      assert (idle + held)[c] == open[c];
      assert (held' + own)[c] == (held + own')[c];
    }
  }

  /** Each step keeps the number of idle connections, busy workers and failures together constant. */
  lemma StepKeepsCount(s: Pool, step: Step)
    requires Enabled(s, step) && !step.Refuse?
    ensures var t := Next(s, step);
      |t.idle| + Busy(t.workers) + t.errorCount == |s.idle| + Busy(s.workers) + s.errorCount
  {
    var t, w := Next(s, step), step.w;
    SumUpdate(BusyOf, s.workers, w, t.workers[w]);
    assert t.workers == s.workers[w := t.workers[w]];
  }

  lemma StepKeepsHonesty(s: Pool, step: Step)
    requires Enabled(s, step)
    requires forall w :: 0 <= w < |s.workers| ==> Honest(s.workers[w])
    requires forall c :: c in s.calls ==> HonestCall(c)
    ensures var t := Next(s, step);
      && (forall w :: 0 <= w < |t.workers| ==> Honest(t.workers[w]))
      && (forall c :: c in t.calls ==> HonestCall(c))
  {
  }

  lemma StepKeepsInv(s: Pool, step: Step)
    requires Inv(s) && Enabled(s, step)
    ensures Inv(Next(s, step))
  {
    BusyBounds(s.workers, step.w);
    assert !step.Refuse?;
    StepKeepsCount(s, step);
    StepKeepsOwnership(s, step);
    StepKeepsHonesty(s, step);
  }

  /** Every state of every interleaving satisfies the invariant. */
  lemma {:induction false} RunKeepsInv(s: Pool, steps: seq<Step>, t: Pool)
    requires Inv(s) && Run(s, steps, t)
    ensures Inv(t)
    decreases |steps|
  {
    if steps != [] {
      StepKeepsInv(s, steps[0]);
      RunKeepsInv(Next(s, steps[0]), steps[1..], t);
    }
  }

  lemma {:induction false} RunKeepsShape(s: Pool, steps: seq<Step>, t: Pool)
    requires Run(s, steps, t)
    ensures t.size == s.size && |t.workers| == |s.workers|
    ensures s.errorCount <= t.errorCount
    decreases |steps|
  {
    if steps != [] {
      RunKeepsShape(Next(s, steps[0]), steps[1..], t);
    }
  }

  // ---------- What holds in every reachable state ----------

  /** From a fully populated pool, whatever the interleaving: idle connections, busy workers and failed
      redials add up to Size, and no release is ever refused for too many connections. */
  lemma Accounting(s0: Pool, steps: seq<Step>, s: Pool)
    requires Initial(s0) && Run(s0, steps, s)
    ensures Inv(s)
    ensures |s.idle| + Busy(s.workers) + s.errorCount == s0.size
    ensures s.refused == 0
    ensures forall c :: c in s.calls ==> HonestCall(c)
  {
    InitialInv(s0);
    RunKeepsInv(s0, steps, s);
    RunKeepsShape(s0, steps, s);
  }

  /** A worker about to send on the channel can, and one about to check for room finds it. */
  lemma SendsNeverBlock(s: Pool, w: nat)
    requires Inv(s) && !s.crashed && w < |s.workers|
    ensures s.workers[w].pc.Returning? ==> Enabled(s, Return(w))
    ensures s.workers[w].pc.Pushing? ==> Enabled(s, Push(w))
    ensures s.workers[w].pc.Checking? ==> Enabled(s, FindRoom(w)) && !Enabled(s, Refuse(w))
  {
    BusyBounds(s.workers, w);
  }

  lemma HeldTwice(ws: seq<Worker>, v: nat, w: nat)
    requires v < |ws| && w < |ws| && v != w
    ensures Own(ws[v]) + Own(ws[w]) <= Held(ws)
  {
    var out := Worker(Out, false, 0, 0);
    HeldUpdate(ws, v, out);
    OwnIsHeld(ws[v := out], w);
    TwoParts(Held(ws[v := out]), Own(ws[v]), Held(ws), Own(ws[w]));
  }

  lemma TwoParts(rest: multiset<Conn>, a: multiset<Conn>, all: multiset<Conn>, b: multiset<Conn>)
    requires rest + a == all + multiset{} && b <= rest
    ensures a + b <= all
  {
    assert all == rest + a;
  }

  lemma HeldIsExclusive(s: Pool, v: nat, c: Conn)
    requires Inv(s) && v < |s.workers| && c in Own(s.workers[v])
    ensures c in s.open && c !in s.idle
    ensures forall w :: 0 <= w < |s.workers| && w != v ==> c !in Own(s.workers[w])
  {
    OwnIsHeld(s.workers, v);
    assert multiset(s.idle)[c] + Held(s.workers)[c] == multiset(s.open)[c];
    forall w | 0 <= w < |s.workers| && w != v ensures c !in Own(s.workers[w]) {
      HeldTwice(s.workers, v, w);
      assert (Own(s.workers[v]) + Own(s.workers[w]))[c] <= Held(s.workers)[c];
    }
  }

  lemma IdleIsExclusive(s: Pool)
    requires Inv(s)
    ensures forall c :: c in s.idle ==> c in s.open
    ensures forall i, j :: 0 <= i < j < |s.idle| ==> s.idle[i] != s.idle[j]
  {
    forall c | c in s.idle ensures c in s.open {
      assert c in multiset(s.idle) && c in multiset(s.open);
    }
    forall i, j | 0 <= i < j < |s.idle| ensures s.idle[i] != s.idle[j] {
      IdleOnce(s, i, j);
    }
  }

  lemma IdleOnce(s: Pool, i: nat, j: nat)
    requires Inv(s) && i < j < |s.idle|
    ensures s.idle[i] != s.idle[j]
  {
    var front, back := s.idle[..j], s.idle[j..];
    assert s.idle == front + back && front[i] in front && back[0] in back;
    assert multiset(s.idle)[s.idle[j]] <= multiset(s.open)[s.idle[j]];
    assert multiset(s.idle) == multiset(front) + multiset(back);
  }

  /** No two workers hold the same connection, nobody holds one that is also on the channel, no
      connection is on the channel twice, and none of them is closed. */
  lemma ExclusiveOwnership(s: Pool)
    requires Inv(s)
    ensures forall c :: c in s.idle ==> c in s.open
    ensures forall i, j :: 0 <= i < j < |s.idle| ==> s.idle[i] != s.idle[j]
    ensures forall v, c :: 0 <= v < |s.workers| && c in Own(s.workers[v]) ==> c in s.open && c !in s.idle
    ensures forall v, w, c :: 0 <= v < w < |s.workers| && c in Own(s.workers[v]) ==> c !in Own(s.workers[w])
  {
    IdleIsExclusive(s);
    forall v, c | 0 <= v < |s.workers| && c in Own(s.workers[v])
      ensures c in s.open && c !in s.idle
    {
      HeldIsExclusive(s, v, c);
    }
    forall v, w, c | 0 <= v < w < |s.workers| && c in Own(s.workers[v])
      ensures c !in Own(s.workers[w])
    {
      HeldIsExclusive(s, v, c);
    }
  }

  lemma {:induction false} HeldBySomeone(ws: seq<Worker>, c: Conn) returns (w: nat)
    requires c in Held(ws)
    ensures w < |ws| && c in Own(ws[w])
  {
    if c in Own(ws[|ws| - 1]) {
      w := |ws| - 1;
    } else {
      w := HeldBySomeone(ws[..|ws| - 1], c);
    }
  }

  /** No open connection is ever lost: each is on the channel or held by a worker. */
  lemma NoLeak(s: Pool, c: Conn)
    requires Inv(s) && c in s.open
    ensures c in s.idle || exists w :: 0 <= w < |s.workers| && c in Own(s.workers[w])
  {
    assert c in multiset(s.open);
    if c !in s.idle {
      assert c !in multiset(s.idle);
      var w := HeldBySomeone(s.workers, c);
    }
  }

  // ---------- The timeout and its panic ----------

  /** While no more redials have failed than there are connections beyond one for each worker, the
      process has not crashed and a waiting worker finds a connection. */
  lemma NoPanicWhileConnectionsSuffice(s0: Pool, steps: seq<Step>, s: Pool, w: nat)
    requires Initial(s0) && Run(s0, steps, s) && s.errorCount + |s0.workers| <= s0.size
    ensures !s.crashed
    ensures w < |s.workers| && s.workers[w].pc.Waiting? ==>
              Enabled(s, Take(w)) && !Enabled(s, Timeout(w))
  {
    Accounting(s0, steps, s);
    RunKeepsShape(s0, steps, s);
    if w < |s.workers| {
      BusyBounds(s.workers, w);
    }
  }

  lemma {:induction false} RunAppend(s: Pool, a: seq<Step>, t: Pool, b: seq<Step>, u: Pool)
    requires Run(s, a, t) && Run(t, b, u)
    ensures Run(s, a + b, u)
    decreases |a|
  {
    if a == [] {
      assert a + b == b;
    } else {
      RunAppend(Next(s, a[0]), a[1..], t, b, u);
      assert (a + b)[0] == a[0] && (a + b)[1..] == a[1..] + b;
    }
  }

  lemma RunOne(s: Pool, step: Step)
    requires Enabled(s, step)
    ensures Run(s, [step], Next(s, step))
  {
    assert [step][1..] == [];
    assert Run(Next(s, step), [], Next(s, step));
  }

  lemma {:induction false} Extend(s: Pool, steps: seq<Step>, t: Pool, step: Step) returns (more: seq<Step>, u: Pool)
    requires Run(s, steps, t) && Enabled(t, step) && Inv(t)
    ensures more == steps + [step] && u == Next(t, step)
    ensures Run(s, more, u) && Inv(u)
  {
    more, u := steps + [step], Next(t, step);
    RunOne(t, step);
    RunAppend(s, steps, t, [step], u);
    StepKeepsInv(t, step);
  }

  ghost predicate OnlyWorker(steps: seq<Step>, w: nat) {
    forall step :: step in steps ==> step.w == w
  }

  /** Nothing is written and nothing is dialled successfully. */
  ghost predicate HostDown(steps: seq<Step>) {
    forall step :: step in steps ==> !step.WriteOk? && !step.DialOk?
  }

  ghost predicate NoFailedDial(steps: seq<Step>) {
    forall step :: step in steps ==> !step.DialFail?
  }

  /** A waiting worker takes the oldest connection of the channel. */
  lemma {:induction false} Taking(s: Pool, w: nat) returns (t: Pool)
    requires Inv(s) && !s.crashed && w < |s.workers| && s.workers[w].pc.Waiting? && s.idle != []
    ensures Enabled(s, Take(w)) && t == Next(s, Take(w)) && Inv(t) && Run(s, [Take(w)], t)
    ensures !t.crashed && t.size == s.size && t.errorCount == s.errorCount
    ensures t.idle == s.idle[1..] && t.open == s.open && t.calls == s.calls
    ensures |t.workers| == |s.workers| && t.workers[w].pc == Writing(s.idle[0])
    ensures t.workers[w].retry == s.workers[w].retry
  {
    t := Next(s, Take(w));
    StepKeepsInv(s, Take(w));
    RunOne(s, Take(w));
  }

  lemma {:induction false} Returned(s: Pool, w: nat) returns (steps: seq<Step>, t: Pool)
    requires Inv(s) && !s.crashed && w < |s.workers| && s.workers[w].pc.Writing?
    ensures steps == [WriteOk(w)] + [Return(w)] && Run(s, steps, t) && Inv(t) && t.size == s.size
    ensures t.idle == s.idle + [s.workers[w].pc.conn] && t.errorCount == s.errorCount && !t.crashed
    ensures t.open == s.open
    ensures |t.workers| == |s.workers| && t.workers[w].pc.Out?
    ensures |t.calls| == |s.calls| + 1 && t.calls[|s.calls|].sent
  {
    var s1 := Next(s, WriteOk(w));
    StepKeepsInv(s, WriteOk(w));
    RunOne(s, WriteOk(w));
    SendsNeverBlock(s1, w);
    steps, t := Extend(s, [WriteOk(w)], s1, Return(w));
  }

  /** An attempt whose write succeeds: take, write, put back. */
  lemma {:induction false} SendingAttempt(s: Pool, w: nat) returns (steps: seq<Step>, t: Pool)
    requires Inv(s) && !s.crashed && w < |s.workers| && s.workers[w].pc.Waiting? && s.idle != []
    ensures Run(s, steps, t) && Inv(t) && OnlyWorker(steps, w) && t.size == s.size
    ensures t.idle == s.idle[1..] + [s.idle[0]] && t.errorCount == s.errorCount && !t.crashed
    ensures t.open == s.open
    ensures |t.workers| == |s.workers| && t.workers[w].pc.Out?
    ensures |t.calls| == |s.calls| + 1 && t.calls[|s.calls|].sent
  {
    var s1 := Taking(s, w);
    var more;
    more, t := Returned(s1, w);
    RunAppend(s, [Take(w)], s1, more, t);
    steps := [Take(w)] + more;
  }

  lemma {:induction false} TimingOut(s: Pool, w: nat) returns (steps: seq<Step>, t: Pool)
    requires Inv(s) && !s.crashed && w < |s.workers| && s.workers[w].pc.Waiting? && s.idle == []
    ensures Run(s, steps, t) && Inv(t) && OnlyWorker(steps, w) && steps == [Timeout(w)]
    ensures t == s.(crashed := true)
  {
    assert Run(s, [], s);
    steps, t := Extend(s, [], s, Timeout(w));
  }

  lemma {:induction false} Discarded(s: Pool, w: nat) returns (steps: seq<Step>, t: Pool)
    requires Inv(s) && !s.crashed && w < |s.workers| && s.workers[w].pc.Writing?
    ensures steps == [WriteFail(w)] + [FindRoom(w)] && Run(s, steps, t) && Inv(t) && t.size == s.size
    ensures t.idle == s.idle && t.errorCount == s.errorCount && !t.crashed
    ensures t.open == s.open - {s.workers[w].pc.conn} && t.calls == s.calls && |t.workers| == |s.workers|
    ensures t.workers[w].pc.Dialling? && t.workers[w].retry == s.workers[w].retry
  {
    var s1 := Next(s, WriteFail(w));
    StepKeepsInv(s, WriteFail(w));
    RunOne(s, WriteFail(w));
    SendsNeverBlock(s1, w);
    steps, t := Extend(s, [WriteFail(w)], s1, FindRoom(w));
  }

  lemma {:induction false} ToDialling(s: Pool, w: nat) returns (steps: seq<Step>, t: Pool)
    requires Inv(s) && !s.crashed && w < |s.workers| && s.workers[w].pc.Waiting? && s.idle != []
    ensures Run(s, steps, t) && Inv(t) && OnlyWorker(steps, w) && HostDown(steps) && t.size == s.size
    ensures t.idle == s.idle[1..] && t.errorCount == s.errorCount && !t.crashed
    ensures t.open == s.open - {s.idle[0]} && t.calls == s.calls && |t.workers| == |s.workers|
    ensures t.workers[w].pc.Dialling? && t.workers[w].retry == s.workers[w].retry
  {
    var s1 := Taking(s, w);
    var more;
    more, t := Discarded(s1, w);
    RunAppend(s, [Take(w)], s1, more, t);
    steps := [Take(w)] + more;
  }

  lemma {:induction false} FromDialling(s: Pool, w: nat, dial: Option<Conn>) returns (steps: seq<Step>, t: Pool)
    requires Inv(s) && !s.crashed && w < |s.workers| && s.workers[w].pc.Dialling?
    requires dial.Some? ==> dial.value !in s.open
    ensures Run(s, steps, t) && Inv(t) && OnlyWorker(steps, w) && t.size == s.size
    ensures t.idle == s.idle + (if dial.Some? then [dial.value] else [])
    ensures t.errorCount == s.errorCount + (if dial.None? then 1 else 0) && !t.crashed
    ensures t.open == s.open + (if dial.Some? then {dial.value} else {})
    ensures GaveUp(s, w, t) && (dial.None? ==> HostDown(steps))
  {
    assert Run(s, [], s);
    if dial.Some? {
      steps, t := Extend(s, [], s, DialOk(w, dial.value));
      SendsNeverBlock(t, w);
      steps, t := Extend(s, steps, t, Push(w));
    } else {
      steps, t := Extend(s, [], s, DialFail(w));
    }
  }

  /** After an attempt that did not send: a retry follows, or the call has ended. */
  ghost predicate GaveUp(s: Pool, w: nat, t: Pool)
    requires w < |s.workers|
  {
    && |t.workers| == |s.workers|
    && (s.workers[w].retry ==>
          t.workers[w].pc.Waiting? && !t.workers[w].retry && t.calls == s.calls)
    && (!s.workers[w].retry ==>
          t.workers[w].pc.Out? && |t.calls| == |s.calls| + 1 && !t.calls[|s.calls|].sent)
  }

  /** An attempt whose write fails: take, close, find room, dial, and put the new connection on the
      channel if there is one. */
  lemma {:induction false} FailingAttempt(s: Pool, w: nat, dial: Option<Conn>) returns (steps: seq<Step>, t: Pool)
    requires Inv(s) && !s.crashed && w < |s.workers| && s.workers[w].pc.Waiting? && s.idle != []
    requires dial.Some? ==> dial.value !in s.open
    ensures Run(s, steps, t) && Inv(t) && OnlyWorker(steps, w) && t.size == s.size
    ensures t.idle == s.idle[1..] + (if dial.Some? then [dial.value] else [])
    ensures t.errorCount == s.errorCount + (if dial.None? then 1 else 0) && !t.crashed
    ensures t.open == s.open - {s.idle[0]} + (if dial.Some? then {dial.value} else {})
    ensures GaveUp(s, w, t) && (dial.None? ==> HostDown(steps))
  {
    var first, u := ToDialling(s, w);
    var second;
    second, t := FromDialling(u, w, dial);
    RunAppend(s, first, u, second, t);
    steps := first + second;
  }

  /** When the remote host is down the panic is reachable: one worker alone, writing and dialling
      without success, can lose every connection and then time out, from any state in which it is
      waiting or between calls. */
  lemma {:induction false} PanicReachable(s: Pool, w: nat) returns (steps: seq<Step>, t: Pool)
    requires Inv(s) && !s.crashed && w < |s.workers|
    requires s.workers[w].pc.Waiting? || s.workers[w].pc.Out?
    ensures Run(s, steps, t) && t.crashed && OnlyWorker(steps, w) && HostDown(steps)
    decreases |s.idle|, if s.workers[w].pc.Out? then 1 else 0
  {
    if s.workers[w].pc.Out? {
      var s1 := Beginning(s, w);
      var more;
      more, t := PanicReachable(s1, w);
      RunAppend(s, [Begin(w)], s1, more, t);
      steps := [Begin(w)] + more;
    } else if s.idle == [] {
      steps, t := TimingOut(s, w);
    } else {
      var first, s1 := FailingAttempt(s, w, None);
      var more;
      more, t := PanicReachable(s1, w);
      RunAppend(s, first, s1, more, t);
      steps := first + more;
    }
  }

  lemma {:induction false} Beginning(s: Pool, w: nat) returns (t: Pool)
    requires Inv(s) && !s.crashed && w < |s.workers| && s.workers[w].pc.Out?
    ensures Enabled(s, Begin(w)) && t == Next(s, Begin(w)) && Inv(t) && Run(s, [Begin(w)], t)
    ensures t == s.(workers := s.workers[w := Worker(Waiting, true, 0, 0)])
  {
    t := Next(s, Begin(w));
    StepKeepsInv(s, Begin(w));
    RunOne(s, Begin(w));
  }

  lemma {:induction false} FreeWorker(ws: seq<Worker>) returns (w: nat)
    requires Busy(ws) < |ws|
    ensures w < |ws| && BusyOf(ws[w]) == 0
  {
    var n := |ws| - 1;
    if BusyOf(ws[n]) == 0 {
      w := n;
    } else {
      w := FreeWorker(ws[..n]);
    }
  }

  /** With more workers than connections left, the workers that hold nothing can take every idle
      connection and one of them then times out; no redial is needed. */
  lemma {:induction false} CrashRun(s: Pool) returns (steps: seq<Step>, t: Pool)
    requires Inv(s) && !s.crashed && s.errorCount + |s.workers| > s.size
    ensures Run(s, steps, t) && t.crashed && NoFailedDial(steps)
    decreases |s.idle|
  {
    var w := FreeWorker(s.workers);
    var first, s1 := [], s;
    assert Run(s, [], s);
    if s.workers[w].pc.Out? {
      s1 := Beginning(s, w);
      first := [Begin(w)];
    }
    var more;
    if s1.idle == [] {
      more, t := TimingOut(s1, w);
    } else {
      var s2 := Taking(s1, w);
      var rest;
      rest, t := CrashRun(s2);
      RunAppend(s1, [Take(w)], s2, rest, t);
      more := [Take(w)] + rest;
    }
    RunAppend(s, first, s1, more, t);
    steps := first + more;
  }

  lemma {:induction false} NoFailedDialKeepsCount(s: Pool, steps: seq<Step>, t: Pool)
    requires Run(s, steps, t) && NoFailedDial(steps)
    ensures t.errorCount == s.errorCount
    decreases |steps|
  {
    if steps != [] {
      assert steps[0] in steps;
      NoFailedDialKeepsCount(Next(s, steps[0]), steps[1..], t);
    }
  }

  lemma {:induction false} CrashNeedsFewConnections(s: Pool, steps: seq<Step>, t: Pool)
    requires Inv(s) && Run(s, steps, t) && t.crashed && NoFailedDial(steps)
    ensures s.errorCount + |s.workers| > s.size
  {
    RunKeepsInv(s, steps, t);
    RunKeepsShape(s, steps, t);
    NoFailedDialKeepsCount(s, steps, t);
  }

  /** The process can still crash without another failed redial. */
  ghost predicate CanCrash(s: Pool) {
    exists steps, t :: Run(s, steps, t) && t.crashed && NoFailedDial(steps)
  }

  /** From a state that has not crashed, the panic can happen without a further failed redial if and
      only if the failures so far leave fewer connections than there are workers. With as many workers
      as connections, as the relay is configured, that is: if and only if some redial has failed. */
  lemma {:induction false} CrashReachableIff(s: Pool)
    requires Inv(s) && !s.crashed
    ensures CanCrash(s) <==> s.errorCount + |s.workers| > s.size
    ensures |s.workers| == s.size ==> (CanCrash(s) <==> s.errorCount > 0)
  {
    if CanCrash(s) {
      var steps, t :| Run(s, steps, t) && t.crashed && NoFailedDial(steps);
      CrashNeedsFewConnections(s, steps, t);
    }
    if s.errorCount + |s.workers| > s.size {
      var steps, t := CrashRun(s);
    }
  }

  /** One worker alone loses `k` idle connections to failed redials. */
  lemma {:induction false} Losing(s: Pool, w: nat, k: nat) returns (steps: seq<Step>, t: Pool)
    requires Inv(s) && !s.crashed && w < |s.workers| && k <= |s.idle|
    requires s.workers[w].pc.Waiting? || s.workers[w].pc.Out?
    ensures Run(s, steps, t) && Inv(t) && !t.crashed && t.errorCount == s.errorCount + k
    decreases k, if s.workers[w].pc.Out? then 1 else 0
  {
    if k == 0 {
      steps, t := [], s;
    } else if s.workers[w].pc.Out? {
      var s1 := Beginning(s, w);
      var more;
      more, t := Losing(s1, w, k);
      RunAppend(s, [Begin(w)], s1, more, t);
      steps := [Begin(w)] + more;
    } else {
      var first, s1 := FailingAttempt(s, w, None);
      var more;
      more, t := Losing(s1, w, k - 1);
      RunAppend(s, first, s1, more, t);
      steps := first + more;
    }
  }

  /** How many failed redials it takes: from a full pool of at least as many connections as workers,
      every crash has seen more failures than there are spare connections, and one more is enough. */
  lemma {:induction false} FewestFailuresToPanic(s0: Pool)
    requires Initial(s0) && 1 <= |s0.workers| <= s0.size
    ensures forall steps, t :: Run(s0, steps, t) && t.crashed ==> t.errorCount >= s0.size - |s0.workers| + 1
    ensures exists steps, t :: Run(s0, steps, t) && t.crashed && t.errorCount == s0.size - |s0.workers| + 1
  {
    forall steps, t | Run(s0, steps, t) && t.crashed
      ensures t.errorCount >= s0.size - |s0.workers| + 1
    {
      Accounting(s0, steps, t);
      RunKeepsShape(s0, steps, t);
    }
    InitialInv(s0);
    var first, s1 := Losing(s0, 0, s0.size - |s0.workers| + 1);
    RunKeepsShape(s0, first, s1);
    var more, t := CrashRun(s1);
    NoFailedDialKeepsCount(s1, more, t);
    RunAppend(s0, first, s1, more, t);
  }

  // ---------- Every call returns ----------

  /** How many more steps a call can take. */
  function Rank(worker: Worker): nat {
    (if worker.pc.Out? || !worker.retry then 0 else 5) +
    match worker.pc
    case Out => 0
    case Waiting => 5
    case Writing(_) => 4
    case Checking => 3
    case Dialling => 2
    case Pushing(_) => 1
    case Returning(_) => 1
  }

  lemma {:induction false} StepLowersRank(s: Pool, step: Step)
    requires Enabled(s, step) && !step.Begin? && !step.Timeout?
    ensures Rank(Next(s, step).workers[step.w]) < Rank(s.workers[step.w])
  {
  }

  ghost predicate NoNewCalls(steps: seq<Step>) {
    forall step :: step in steps ==> !step.Begin?
  }

  /** A crash is the last step of a run and lowers no rank. */
  lemma {:induction false} StepsAreBounded(s: Pool, steps: seq<Step>, t: Pool)
    requires Run(s, steps, t) && NoNewCalls(steps)
    ensures |steps| + Sum(Rank, t.workers) <= Sum(Rank, s.workers) + if t.crashed then 1 else 0
    decreases |steps|
  {
    if steps != [] {
      var s1, w := Next(s, steps[0]), steps[0].w;
      assert steps[0] in steps;
      if steps[0].Timeout? {
        assert steps[1..] == [];
      } else {
        StepLowersRank(s, steps[0]);
        OnlyItsWorker(s, steps[0]);
        SumUpdate(Rank, s.workers, w, s1.workers[w]);
        StepsAreBounded(s1, steps[1..], t);
      }
    }
  }

  lemma {:induction false} Bound(open: set<Conn>) returns (b: Conn)
    ensures forall c :: c in open ==> c < b
    decreases |open|
  {
    if open == {} {
      b := 0;
    } else {
      var c :| c in open;
      var rest := Bound(open - {c});
      b := if c < rest then rest else c + 1;
      forall d | d in open ensures d < b {
        assert d == c || d in open - {c};
      }
    }
  }

  /** Until the process crashes, a worker inside a call can always take its next step. */
  lemma {:induction false} NeverStuck(s: Pool, w: nat) returns (step: Step)
    requires Inv(s) && !s.crashed && w < |s.workers| && !s.workers[w].pc.Out?
    ensures step.w == w && !step.Begin? && Enabled(s, step)
  {
    BusyBounds(s.workers, w);
    match s.workers[w].pc
    case Waiting => step := if s.idle == [] then Timeout(w) else Take(w);
    case Writing(_) => step := WriteOk(w);
    case Returning(_) => step := Return(w);
    case Checking => step := FindRoom(w);
    case Dialling =>
      var c := Bound(s.open);
      step := DialOk(w, c);
    case Pushing(_) => step := Push(w);
  }

  /** Nothing but a new call can happen. */
  ghost predicate Quiet(s: Pool) {
    forall step: Step :: Enabled(s, step) ==> step.Begin?
  }

  lemma {:induction false} QuietMeansDone(s: Pool)
    requires Inv(s) && !s.crashed && Quiet(s)
    ensures forall w :: 0 <= w < |s.workers| ==> s.workers[w].pc.Out?
  {
    forall w | 0 <= w < |s.workers| ensures s.workers[w].pc.Out? {
      if !s.workers[w].pc.Out? {
        var step := NeverStuck(s, w);
      }
    }
  }

  /** However the workers are scheduled from a reachable state, and whatever the network does, if no
      new call begins all calls are over after at most ten steps a worker: a run that cannot go on has
      every worker out of its call, unless it has crashed, which is one step more and the last. */
  lemma {:induction false} AllCallsReturn(s: Pool, steps: seq<Step>, t: Pool)
    requires Inv(s) && Run(s, steps, t) && NoNewCalls(steps)
    ensures |steps| <= 10 * |s.workers| + if t.crashed then 1 else 0
    ensures !t.crashed && Quiet(t) ==> forall w :: 0 <= w < |t.workers| ==> t.workers[w].pc.Out?
  {
    RunKeepsInv(s, steps, t);
    FewSteps(s, steps, t);
    if !t.crashed && Quiet(t) {
      QuietMeansDone(t);
    }
  }

  lemma {:induction false} FewSteps(s: Pool, steps: seq<Step>, t: Pool)
    requires Run(s, steps, t) && NoNewCalls(steps)
    ensures |steps| <= 10 * |s.workers| + if t.crashed then 1 else 0
  {
    StepsAreBounded(s, steps, t);
    SumAtMost(Rank, s.workers, 10);
  }
}
