/** statsgod/auth.go, and the parser goroutine of statsgod/metric.go that authenticates before it
    parses. */
module Auth {
  import opened Wrappers
  import opened Text
  import opened Metrics
  import opened Parser

  datatype Auth = AuthNone | AuthConfigToken(tokens: map<string, bool>)

  /** A string of the form token.rest whose dot-free token is enabled. */
  predicate Enabled(tokens: map<string, bool>, token: string, rest: string, s: string) {
    '.' !in token && s == token + ['.'] + rest && token in tokens && tokens[token]
  }

  /** What is left of `s` to parse, if it may be parsed at all. */
  function Admit(auth: Auth, s: string): Option<string> {
    match auth
    case AuthNone => Some(s)
    case AuthConfigToken(tokens) =>
      var k := FirstIndex(s, '.');
      if k < |s| && s[..k] in tokens && tokens[s[..k]] then Some(s[k + 1..]) else None
  }

  /** Under token authentication exactly the strings token.rest with an enabled token get through,
      and exactly the token and the first dot are taken off. */
  lemma AdmitsTokens(tokens: map<string, bool>, s: string, rest: string)
    ensures Admit(AuthConfigToken(tokens), s) == Some(rest)
       <==> exists token :: Enabled(tokens, token, rest, s)
  {
    var k := FirstIndex(s, '.');
    FirstIndexFinds(s, '.');
    if Admit(AuthConfigToken(tokens), s) == Some(rest) {
      assert Enabled(tokens, s[..k], rest, s);
    }
    if token :| Enabled(tokens, token, rest, s) {
      FirstIndexAt(token, '.', rest);
      assert s[..k] == token && s[k + 1..] == rest;
    }
  }

  /** Overwrites the metric string through its pointer; on failure it is left alone. */
  method Authenticate(auth: Auth, metric: Ref<string>) returns (ok: bool)
    modifies metric
    ensures ok == Admit(auth, old(metric.value)).Some?
    ensures metric.value == if ok then Admit(auth, old(metric.value)).value else old(metric.value)
  {
    match auth
    case AuthNone => return true;
    case AuthConfigToken(tokens) =>
      var k := FirstIndex(metric.value, '.');
      if k < |metric.value| {
        var token := metric.value[..k];
        if token !in tokens || !tokens[token] {
          return false;
        }
      } else {
        return false;
      }
      metric.value := metric.value[k + 1..];
      return true;
  }

  // ---------- The parser goroutine ----------

  /** What one received string contributes to the relay channel. */
  function Accept(pf: ParseFloat, auth: Auth, s: string): Option<Metric> {
    match Admit(auth, s)
    case None => None
    case Some(rest) =>
      match Parse(pf, rest)
      case Success(m) => Some(m)
      case Failure(_) => None
  }

  /** Under token authentication: exactly the lines token.rest with an enabled token whose rest reads as
      a metric, and the metric is the one the rest describes. */
  lemma AcceptsTokens(pf: ParseFloat, tokens: map<string, bool>, s: string, m: Metric)
    ensures Accept(pf, AuthConfigToken(tokens), s) == Some(m)
       <==> exists token, rest :: Enabled(tokens, token, rest, s) && Described(pf, Strip(rest), m)
  {
    var admitted := Admit(AuthConfigToken(tokens), s);
    if Accept(pf, AuthConfigToken(tokens), s) == Some(m) {
      AdmitsTokens(tokens, s, admitted.value);
      var token :| Enabled(tokens, token, admitted.value, s);
      ParseAccepts(pf, admitted.value, m);
    }
    if token, rest :| Enabled(tokens, token, rest, s) && Described(pf, Strip(rest), m) {
      AdmitsTokens(tokens, s, rest);
      ParseAccepts(pf, rest, m);
    }
  }

  /** Without authentication: exactly the lines that read as a metric. */
  lemma AcceptsWithoutToken(pf: ParseFloat, s: string, m: Metric)
    ensures Accept(pf, AuthNone, s) == Some(m) <==> Described(pf, Strip(s), m)
  {
    ParseAccepts(pf, s, m);
  }

  function AsSeq<T>(o: Option<T>): seq<T> {
    match o
    case Some(x) => [x]
    case None => []
  }

  /** Authenticate-then-parse as a function value. */
  function Acceptor(pf: ParseFloat, auth: Auth): string -> Option<Metric> {
    (s: string) => Accept(pf, auth, s)
  }

  /** What a partial function makes of a sequence: failures dropped, order kept. */
  function FilterMap<A, B>(f: A -> Option<B>, s: seq<A>): seq<B> {
    if s == [] then [] else FilterMap(f, s[..|s| - 1]) + AsSeq(f(s[|s| - 1]))
  }

  lemma FilterMapNext<A, B>(f: A -> Option<B>, s: seq<A>, x: A)
    ensures FilterMap(f, s + [x]) == FilterMap(f, s) + AsSeq(f(x))
  {
    assert (s + [x])[..|s|] == s;
  }

  lemma {:induction false} FilterMapAppend<A, B>(f: A -> Option<B>, s: seq<A>, t: seq<A>)
    ensures FilterMap(f, s + t) == FilterMap(f, s) + FilterMap(f, t)
  {
    if t == [] {
      assert s + t == s;
    } else {
      var n := |t| - 1;
      FilterMapAppend(f, s, t[..n]);
      assert (s + t)[..|s + t| - 1] == s + t[..n];
      Associative(FilterMap(f, s), FilterMap(f, t[..n]), AsSeq(f(t[n])));
    }
  }

  /** One turn of the loop: a string or a timeout, and whether `quit` is found set afterwards. */
  datatype Turn = Turn(received: Option<string>, quit: bool)

  /** The strings the loop takes off its channel: those up to and including the turn that quits. */
  function Consumed(turns: seq<Turn>): seq<string> {
    if turns == [] then []
    else AsSeq(turns[0].received) + if turns[0].quit then [] else Consumed(turns[1..])
  }

  /** The strings of all these turns, whether or not they found quit set. */
  function ReceivedIn(turns: seq<Turn>): seq<string> {
    if turns == [] then [] else ReceivedIn(turns[..|turns| - 1]) + AsSeq(turns[|turns| - 1].received)
  }

  lemma {:induction false} ReceivedAfter(turn: Turn, turns: seq<Turn>)
    ensures ReceivedIn([turn] + turns) == AsSeq(turn.received) + ReceivedIn(turns)
  {
    if turns == [] {
      assert [turn] + turns == [turn] && [turn][..0] == [];
      assert [] + AsSeq(turn.received) == AsSeq(turn.received) + [];
    } else {
      var front, last := turns[..|turns| - 1], turns[|turns| - 1];
      ReceivedAfter(turn, front);
      assert ([turn] + turns)[..|turns|] == [turn] + front;
      Associative(AsSeq(turn.received), ReceivedIn(front), AsSeq(last.received));
    }
  }

  /** What is consumed is what the turns received up to the first that finds quit set, that one included;
      all of it when none does. */
  lemma {:induction false} ConsumedUpToQuit(turns: seq<Turn>, k: nat)
    requires k <= |turns| && forall i :: 0 <= i < k ==> !turns[i].quit
    requires k < |turns| ==> turns[k].quit
    ensures Consumed(turns) == ReceivedIn(if k < |turns| then turns[..k + 1] else turns)
  {
    if turns != [] {
      var rest := if k < |turns| then turns[1..k + 1] else turns[1..];
      ReceivedAfter(turns[0], rest);
      assert [turns[0]] + rest == if k < |turns| then turns[..k + 1] else turns;
      if k > 0 {
        ConsumedUpToQuit(turns[1..], k - 1);
        assert k < |turns| ==> turns[1..][..k] == turns[1..k + 1];
      } else {
        assert rest == [];
      }
    }
  }

  lemma ConsumedNext(turns: seq<Turn>, i: nat, consumed: seq<string>)
    requires i < |turns| && Consumed(turns) == consumed + Consumed(turns[i..])
    ensures Consumed(turns) == (consumed + AsSeq(turns[i].received))
                               + if turns[i].quit then [] else Consumed(turns[i + 1..])
  {
    assert turns[i..][1..] == turns[i + 1..];
    Associative(consumed, AsSeq(turns[i].received),
                if turns[i].quit then [] else Consumed(turns[i + 1..]));
  }

  /** Authenticate, then parse: the body of the `select` case. */
  method Receive(pf: ParseFloat, auth: Auth, s: string) returns (metric: Option<Metric>)
    ensures metric == Accept(pf, auth, s)
  {
    var metricString := new Ref(s);
    var authOk := Authenticate(auth, metricString);
    if !authOk {
      return None;
    }
    var parsed := ParseMetricString(pf, metricString.value);
    if parsed.Failure? {
      return None;
    }
    return Some(parsed.value);
  }

  /** The `select` of one turn: what it puts on the relay channel. */
  method Take(pf: ParseFloat, auth: Auth, received: Option<string>) returns (relayed: seq<Metric>)
    ensures relayed == FilterMap(Acceptor(pf, auth), AsSeq(received))
  {
    relayed := [];
    if received.Some? {
      var metric := Receive(pf, auth, received.value);
      if metric.Some? {
        relayed := [metric.value];
      }
      FilterMapNext(Acceptor(pf, auth), [], received.value);
      assert [] + [received.value] == [received.value];
    }
  }

  /** The loop relays, in order, exactly the strings it consumed that authenticate and parse; a
      string that fails either way is dropped and never ends the loop. */
  method ParseMetrics(pf: ParseFloat, auth: Auth, turns: seq<Turn>) returns (relayed: seq<Metric>)
    ensures relayed == FilterMap(Acceptor(pf, auth), Consumed(turns))
  {
    relayed := [];
    ghost var accept := Acceptor(pf, auth);
    ghost var consumed := [];
    var i := 0;
    var quit := false;
    assert turns[0..] == turns;
    while i < |turns| && !quit
      invariant 0 <= i <= |turns|
      invariant relayed == FilterMap(accept, consumed)
      invariant !quit ==> Consumed(turns) == consumed + Consumed(turns[i..])
      invariant quit ==> Consumed(turns) == consumed + []
    {
      var turn := turns[i];
      ConsumedNext(turns, i, consumed);
      var more := Take(pf, auth, turn.received);
      FilterMapAppend(accept, consumed, AsSeq(turn.received));
      relayed := relayed + more;
      consumed := consumed + AsSeq(turn.received);
      quit := turn.quit;
      i := i + 1;
    }
    assert consumed + [] == consumed;
  }
}
