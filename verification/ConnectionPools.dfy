/** statsgod/connectionpool.go and `sendCarbonMetric` of statsgod/relay.go as the code one worker
    runs, shown to take only steps of the protocol in PoolProtocol. */
module ConnectionPools {
  import opened Wrappers
  import opened PoolProtocol
  import Carbon

  datatype ConnType = Tcp | Unix | Unsupported

  /** The connections of the dials that succeeded, in order. */
  function Dialled(dials: seq<Option<Conn>>): (r: seq<Conn>)
    ensures |r| <= |dials|
  {
    if dials == [] then []
    else
      Dialled(dials[..|dials| - 1]) +
      match dials[|dials| - 1]
      case Some(c) => [c]
      case None => []
  }

  class ConnectionPool {
    const Size: nat
    const Type: ConnType
    var Connections: seq<Conn>   // the channel, first in first out, of capacity Size
    var ErrorCount: nat
    ghost var Open: set<Conn>    // what the pool has dialled and not closed

    constructor (size: nat, connType: ConnType)
      ensures Size == size && Type == connType && Connections == [] && ErrorCount == 0 && Open == {}
    {
      Size, Type := size, connType;
      Connections, ErrorCount, Open := [], 0, {};
    }

    /** Creates a pool and fills it: every dial that succeeds is on the channel, in order, and every
        failure is counted. A pool without failures is full. */
    static method CreateConnectionPool(size: nat, connType: ConnType, dials: seq<Option<Conn>>)
      returns (pool: ConnectionPool, errorCount: nat)
      requires |dials| == size
      ensures fresh(pool) && pool.Size == size && pool.Type == connType
      ensures !connType.Unsupported? ==>
                && pool.Connections == Dialled(dials) && pool.ErrorCount == errorCount == size - |Dialled(dials)|
                && pool.Open == set c | c in Dialled(dials)
      ensures connType.Unsupported? ==> pool.Connections == [] && pool.ErrorCount == 0 && errorCount == size
      ensures !connType.Unsupported? && errorCount == 0 ==>
                forall n: nat :: pool.Implements(Fresh(Dialled(dials), n))
    {
      pool := new ConnectionPool(size, connType);
      errorCount := 0;
      assert dials[..0] == [];
      for i := 0 to size
        invariant pool.Size == size && pool.Type == connType && fresh(pool)
        invariant !connType.Unsupported? ==>
                    pool.Connections == Dialled(dials[..i]) && |Dialled(dials[..i])| <= i
                    && pool.ErrorCount == errorCount == i - |Dialled(dials[..i])|
                    && pool.Open == set c | c in Dialled(dials[..i])
        invariant connType.Unsupported? ==>
                    pool.Connections == [] && pool.ErrorCount == 0 && errorCount == i
      {
        assert dials[..i + 1][..i] == dials[..i];
        var added := pool.CreateConnection(dials[i]);
        if !added {
          errorCount := errorCount + 1;
        }
      }
      assert dials[..size] == dials;
    }

    /** Compares the channel length with Size, dials, and only then sends. */
    method CreateConnection(dial: Option<Conn>) returns (added: bool)
      modifies this
      ensures added == (old(|Connections|) < Size && !Type.Unsupported? && dial.Some?)
      ensures Connections == if added then old(Connections) + [dial.value] else old(Connections)
      ensures Open == if added then old(Open) + {dial.value} else old(Open)
      ensures ErrorCount == old(ErrorCount)
                            + if old(|Connections|) < Size && !Type.Unsupported? && dial.None? then 1 else 0
    {
      if |Connections| < Size {
        match Type
        case Unsupported => return false;
        case _ =>
          if dial.None? {
            ErrorCount := ErrorCount + 1;
            return false;
          }
          Open := Open + {dial.value};
          Connections := Connections + [dial.value];
          return true;
      }
      return false;
    }

    /** `conn.Close()` */
    ghost method Close(conn: Conn)
      modifies this`Open
      ensures Open == old(Open) - {conn}
    {
      Open := Open - {conn};
    }

    /** The oldest connection of the channel, or nothing after the timeout on an empty channel. */
    method GetConnection() returns (conn: Option<Conn>)
      modifies this`Connections
      ensures old(Connections) == [] ==> conn == None && Connections == []
      ensures old(Connections) != [] ==> conn.Some? && [conn.value] + Connections == old(Connections)
    {
      if Connections != [] {
        conn := Some(Connections[0]);
        Connections := Connections[1..];
      } else {
        conn := None;
      }
    }

    /** Puts a connection back, or closes it and dials another. A send on a full channel would block
        for ever. */
    method ReleaseConnection(conn: Conn, recreate: bool, dial: Option<Conn>) returns (released: bool)
      requires !recreate ==> |Connections| < Size
      modifies this
      ensures !recreate ==> released && Connections == old(Connections) + [conn] && ErrorCount == old(ErrorCount)
                            && Open == old(Open)
      ensures recreate ==>
                && released == (old(|Connections|) < Size && !Type.Unsupported? && dial.Some?)
                && Connections == (if released then old(Connections) + [dial.value] else old(Connections))
                && Open == old(Open) - {conn} + (if released then {dial.value} else {})
                && ErrorCount == old(ErrorCount)
                   + if old(|Connections|) < Size && !Type.Unsupported? && dial.None? then 1 else 0
    {
      if recreate {
        Close(conn);
        released := CreateConnection(dial);
      } else {
        Connections := Connections + [conn];
        released := true;
      }
    }

    /** This pool is the pool of protocol state `s`. */
    ghost predicate Implements(s: Pool)
      reads this
    {
      && Connections == s.idle && ErrorCount == s.errorCount && Size == s.size && Open == s.open
      && !Type.Unsupported?
    }
  }

  /** A freshly created pool without failures, and `n` workers between calls. */
  ghost function Fresh(conns: seq<Conn>, n: nat): Pool {
    Pool(|conns|, conns, set c | c in conns, 0, 0, false,
         seq(n, i => Worker(Out, false, 0, 0)), [])
  }

  lemma {:induction false} DistinctConns(conns: seq<Conn>)
    requires forall i, j :: 0 <= i < j < |conns| ==> conns[i] != conns[j]
    ensures multiset(conns) == multiset(set c | c in conns)
  {
    if conns != [] {
      var front, c := conns[..|conns| - 1], conns[|conns| - 1];
      DistinctConns(front);
      assert conns == front + [c];
      assert (set x | x in conns) == (set x | x in front) + {c};
      assert multiset(conns) == multiset(front) + multiset{c};
    }
  }

  /** With `Implements` above: what `CreateConnectionPool` returns when no dial failed is an initial state
      of the protocol, whatever the number of workers. */
  lemma FreshIsInitial(conns: seq<Conn>, n: nat)
    requires forall i, j :: 0 <= i < j < |conns| ==> conns[i] != conns[j]
    ensures Initial(Fresh(conns, n))
  {
    DistinctConns(conns);
  }

  // ---------- One call of sendCarbonMetric ----------

  /** What the network does to one attempt: whether the write succeeds, and what a redial yields. */
  datatype Weather = Weather(writeOk: bool, dial: Option<Conn>)

  ghost predicate NewConns(s: Pool, weather: seq<Weather>) {
    && (forall i :: 0 <= i < |weather| && weather[i].dial.Some? ==> weather[i].dial.value !in s.open)
    && (forall i, j :: 0 <= i < j < |weather| && weather[i].dial.Some? && weather[j].dial.Some? ==>
          weather[i].dial != weather[j].dial)
  }

  /** The bytes of one message: key, value text and time, put together piece by piece. */
  method BuildPayload(key: string, valueText: string, time: string) returns (payload: string)
    ensures payload == Carbon.Payload(key, valueText, time)
  {
    payload := key;
    payload := payload + " ";
    payload := payload + valueText;
    payload := payload + " ";
    payload := payload + time;
    payload := payload + "\n";
  }

  /** The channel after one attempt. */
  function IdleAfter(idle: seq<Conn>, weather: Weather): seq<Conn> {
    if idle == [] then []
    else if weather.writeOk then idle[1..] + [idle[0]]
    else if weather.dial.Some? then idle[1..] + [weather.dial.value]
    else idle[1..]
  }

  /** What is open after one attempt. */
  function OpenAfter(open: set<Conn>, idle: seq<Conn>, weather: Weather): set<Conn> {
    if idle == [] || weather.writeOk then open
    else open - {idle[0]} + (if weather.dial.Some? then {weather.dial.value} else {})
  }

  function FailuresAfter(idle: seq<Conn>, weather: Weather): nat {
    if idle != [] && !weather.writeOk && weather.dial.None? then 1 else 0
  }

  ghost predicate Attempted(s: Pool, weather: Weather, t: Pool) {
    && t.size == s.size && (t.crashed <==> s.idle == [])
    && t.idle == IdleAfter(s.idle, weather) && t.open == OpenAfter(s.open, s.idle, weather)
    && t.errorCount == s.errorCount + FailuresAfter(s.idle, weather)
  }

  /** The protocol's account of one attempt. */
  lemma {:induction false} AttemptRun(s: Pool, w: nat, weather: Weather) returns (steps: seq<Step>, t: Pool)
    requires Inv(s) && !s.crashed
    requires weather.dial.Some? ==> weather.dial.value !in s.open
    requires w < |s.workers| && s.workers[w].pc.Waiting?
    ensures Run(s, steps, t) && Inv(t) && OnlyWorker(steps, w) && Attempted(s, weather, t)
    ensures !t.crashed && weather.writeOk ==> |t.workers| == |s.workers| && t.workers[w].pc.Out?
                                              && |t.calls| == |s.calls| + 1 && t.calls[|s.calls|].sent
    ensures !t.crashed && !weather.writeOk ==> GaveUp(s, w, t)
  {
    if s.idle == [] {
      steps, t := TimingOut(s, w);
    } else if weather.writeOk {
      steps, t := SendingAttempt(s, w);
    } else {
      steps, t := FailingAttempt(s, w, weather.dial);
    }
  }

  /** One attempt: check a connection out, write the payload, and release the connection or dial another.
      A timeout hands out a `NilConn`, whose `Close` panics. `written` is what the remote host received, and
      over which connection. */
  method Attempt(pool: ConnectionPool, key: string, valueText: string, time: string, weather: Weather)
    returns (dataSent: bool, panicked: bool, written: seq<(Conn, string)>)
    requires |pool.Connections| <= pool.Size && !pool.Type.Unsupported?
    modifies pool
    ensures panicked == (old(pool.Connections) == [])
    ensures dataSent == (!panicked && weather.writeOk)
    ensures written == if dataSent then [(old(pool.Connections)[0], Carbon.Payload(key, valueText, time))] else []
    ensures pool.Open == OpenAfter(old(pool.Open), old(pool.Connections), weather)
    ensures pool.Connections == IdleAfter(old(pool.Connections), weather)
    ensures pool.ErrorCount == old(pool.ErrorCount) + FailuresAfter(old(pool.Connections), weather)
  {
    dataSent, panicked, written := false, false, [];
    var conn := pool.GetConnection();
    if conn.None? {
      panicked := true;
    } else {
      var payload := BuildPayload(key, valueText, time);
      if weather.writeOk {
        written := [(conn.value, payload)];
        var released := pool.ReleaseConnection(conn.value, false, None);
        dataSent := true;
      } else {
        var released := pool.ReleaseConnection(conn.value, true, weather.dial);
      }
    }
  }

  /** The connection a call that succeeds writes on. */
  function Writer(idle: seq<Conn>, weather: seq<Weather>): Conn
    requires idle != [] && weather != []
    requires !weather[0].writeOk ==> IdleAfter(idle, weather[0]) != []
  {
    if weather[0].writeOk then idle[0] else IdleAfter(idle, weather[0])[0]
  }

  /** One invocation, from the select of `GetConnection` on. The network's behaviour comes in as
      `weather`, one entry for this attempt and one more if a retry is left. Uninterrupted, the code
      takes steps of the protocol and nothing else, and unless it crashes it ends its call with the
      result it returns, having written the payload once or not at all. It crashes exactly when it
      finds the channel empty at once, or when it loses the last idle connection to a failed redial and
      comes back for its retry. */
  method SendCarbonMetric(pool: ConnectionPool, key: string, valueText: string, time: string, retry: bool,
                          weather: seq<Weather>, ghost w: nat, ghost s: Pool)
    returns (dataSent: bool, panicked: bool, written: seq<(Conn, string)>, ghost steps: seq<Step>, ghost t: Pool)
    requires |weather| == if retry then 2 else 1
    requires pool.Implements(s) && Inv(s) && !s.crashed && NewConns(s, weather)
    requires w < |s.workers| && s.workers[w].pc.Waiting? && s.workers[w].retry == retry
    modifies pool
    ensures pool.Implements(t) && Run(s, steps, t) && Inv(t) && OnlyWorker(steps, w)
    ensures panicked == t.crashed
    ensures panicked ==
            (s.idle == [] || (retry && !weather[0].writeOk && weather[0].dial.None? && |s.idle| == 1))
    ensures !panicked ==> |t.workers| == |s.workers| && t.workers[w].pc.Out?
    ensures !panicked ==> |t.calls| == |s.calls| + 1 && t.calls[|s.calls|].sent == dataSent
    ensures dataSent == (!panicked && (weather[0].writeOk || (retry && weather[1].writeOk)))
    ensures written == if dataSent then [(Writer(s.idle, weather), Carbon.Payload(key, valueText, time))] else []
    decreases retry
  {
    steps, t := AttemptRun(s, w, weather[0]);
    dataSent, panicked, written := Attempt(pool, key, valueText, time, weather[0]);
    if !panicked && !dataSent && retry {
      ghost var more, u;
      dataSent, panicked, written, more, u :=
        SendCarbonMetric(pool, key, valueText, time, false, weather[1..], w, t);
      RunAppend(s, steps, t, more, u);
      steps, t := steps + more, u;
    }
  }
}
