/** statsgod/metric.go `ParseMetricString` and `getMetricType`. `ParseFloat` is a parameter: every
    statement holds for any partial function from texts to numbers. */
module Parser {
  import opened Text
  import opened Wrappers
  import opened Metrics

  const MAXIMUM_METRIC_LENGTH := 512

  const DELIMITERS: seq<char> := [':', '|', '|', '@']

  type ParseFloat = string -> Option<real>

  datatype ParseError = MissingElements | BadValue | BadType

  predicate Ignored(c: char) {
    c == ' ' || c == '\0'
  }

  function Visible(c: char): string {
    if Ignored(c) then [] else [c]
  }

  /** The text with its spaces and NULs deleted. */
  function Strip(s: string): (r: string)
    ensures |r| <= |s|
  {
    if s == [] then [] else Visible(s[0]) + Strip(s[1..])
  }

  function Empties(n: nat): (r: seq<string>)
    ensures |r| == n && forall i :: 0 <= i < n ==> r[i] == []
  {
    seq(n, i => [])
  }

  /** The fields of a text: each ends at the first occurrence of its delimiter, and a field that
      reaches the maximum length ends the scan. */
  function Fields(t: string, delimiters: seq<char>): (r: seq<string>)
    ensures |r| == |delimiters| + 1
    ensures |r[0]| <= MAXIMUM_METRIC_LENGTH
    decreases |delimiters|
  {
    var k := if delimiters == [] then |t| else FirstIndex(t, delimiters[0]);
    if k >= MAXIMUM_METRIC_LENGTH then [t[..MAXIMUM_METRIC_LENGTH]] + Empties(|delimiters|)
    else if k == |t| then [t] + Empties(|delimiters|)
    else [t[..k]] + Fields(t[k + 1..], delimiters[1..])
  }

  function TypeOf(short: string): Option<MetricType> {
    if short == "c" then Some(Counter)
    else if short == "g" then Some(Gauge)
    else if short == "s" then Some(Set)
    else if short == "ms" then Some(Timer)
    else None
  }

  /** A missing, malformed or out-of-range sample rate counts as 1. */
  function RateOf(pf: ParseFloat, text: string): (r: real)
    ensures 0.0 < r <= 1.0
  {
    match pf(text)
    case Some(rate) => if 0.0 < rate <= 1.0 then rate else 1.0
    case None => 1.0
  }

  function Interpret(pf: ParseFloat, f: seq<string>): Result<Metric, ParseError>
    requires |f| == 5
  {
    if f[0] == [] || f[1] == [] || f[2] == [] then Failure(MissingElements)
    else if pf(f[1]) == None then Failure(BadValue)
    else if TypeOf(f[2]) == None then Failure(BadType)
    else Success(Sample(f[0], TypeOf(f[2]).value, pf(f[1]).value, RateOf(pf, f[4])))
  }

  /** What a metric string means. */
  function Parse(pf: ParseFloat, s: string): Result<Metric, ParseError> {
    Interpret(pf, Fields(Strip(s), DELIMITERS))
  }

  // ---------- The one-pass scanner ----------

  lemma StripStep(s: string, i: nat)
    requires i < |s|
    ensures Strip(s[i..]) == Visible(s[i]) + Strip(s[i + 1..])
  {
    assert s[i..][1..] == s[i + 1..];
  }

  /** Reading a delimiter closes the current field. */
  lemma FieldsDelimiter(current: string, rest: string, delimiters: seq<char>)
    requires delimiters != [] && delimiters[0] !in current
    requires |current| < MAXIMUM_METRIC_LENGTH
    ensures Fields(current + ([delimiters[0]] + rest), delimiters)
         == [current] + Fields(rest, delimiters[1..])
  {
    var t := current + [delimiters[0]] + rest;
    assert t == current + ([delimiters[0]] + rest);
    FirstIndexAt(current, delimiters[0], rest);
    assert t[..|current|] == current && t[|current| + 1..] == rest;
  }

  /** A field that is full, or at the end of the text, is the last one. */
  lemma FieldsLast(current: string, rest: string, delimiters: seq<char>)
    requires delimiters != [] ==> delimiters[0] !in current
    requires |current| <= MAXIMUM_METRIC_LENGTH
    requires |current| == MAXIMUM_METRIC_LENGTH || rest == []
    ensures Fields(current + rest, delimiters) == [current] + Empties(|delimiters|)
  {
    var t := current + rest;
    assert t[..|current|] == current;
    if delimiters != [] {
      FirstIndexFinds(t, delimiters[0]);
      assert forall j :: 0 <= j < |current| ==> t[j] == current[j] && t[j] != delimiters[0];
    }
    if rest == [] {
      assert t == current;
    }
  }

  /** How far the scanner is: `rows` holds the closed fields and the one being filled, number `f`,
      and the fields of the whole text are the closed ones and those of what is left. */
  ghost predicate Scanned(all: seq<string>, rows: seq<string>, f: nat, rest: string) {
    && |rows| == 5 && f <= 4
    && (forall g :: f < g < 5 ==> rows[g] == [])
    && (f < 4 ==> DELIMITERS[f] !in rows[f])
    && all == rows[..f] + Fields(rows[f] + rest, DELIMITERS[f..])
  }

  lemma ScanStart(t: string)
    ensures Scanned(Fields(t, DELIMITERS), Empties(5), 0, t)
  {
    assert DELIMITERS[0..] == DELIMITERS;
    assert [] + t == t;
  }

  lemma MoveOne<T>(rows: seq<T>, f: nat, rest: seq<T>)
    requires f < |rows|
    ensures rows[..f] + ([rows[f]] + rest) == rows[..f + 1] + rest
  {
    assert rows[..f + 1] == rows[..f] + [rows[f]];
  }

  lemma ScanDelimiter(all: seq<string>, rows: seq<string>, f: nat, rest: string)
    requires f < 4 && Scanned(all, rows, f, [DELIMITERS[f]] + rest)
    requires |rows[f]| < MAXIMUM_METRIC_LENGTH
    ensures Scanned(all, rows, f + 1, rest)
  {
    var d := DELIMITERS[f..];
    assert d[0] == DELIMITERS[f] && d[1..] == DELIMITERS[f + 1..];
    FieldsDelimiter(rows[f], rest, d);
    assert rows[f + 1] + rest == rest;
    MoveOne(rows, f, Fields(rest, d[1..]));
  }

  lemma ScanRune(all: seq<string>, rows: seq<string>, f: nat, c: char, rest: string)
    requires Scanned(all, rows, f, [c] + rest)
    requires f < 4 ==> c != DELIMITERS[f]
    ensures Scanned(all, rows[f := rows[f] + [c]], f, rest)
  {
    assert rows[f] + ([c] + rest) == (rows[f] + [c]) + rest;
  }

  lemma ScanEnd(all: seq<string>, rows: seq<string>, f: nat, rest: string)
    requires Scanned(all, rows, f, rest)
    requires |rows[f]| <= MAXIMUM_METRIC_LENGTH
    requires |rows[f]| == MAXIMUM_METRIC_LENGTH || rest == []
    ensures all == rows
  {
    var d := DELIMITERS[f..];
    assert d != [] ==> d[0] == DELIMITERS[f];
    FieldsLast(rows[f], rest, d);
    assert rows[f..] == [rows[f]] + Empties(4 - f);
  }

  ghost predicate Holds(a: array2<char>, counts: array<nat>, rows: seq<string>)
    reads a, counts
  {
    && |rows| == 5 == a.Length0 == counts.Length && a.Length1 == MAXIMUM_METRIC_LENGTH
    && (forall f :: 0 <= f < 5 ==> counts[f] == |rows[f]| <= MAXIMUM_METRIC_LENGTH)
    && (forall f, j :: 0 <= f < 5 && 0 <= j < |rows[f]| ==> a[f, j] == rows[f][j])
  }

  /** Appends a rune to a row. */
  method Put(a: array2<char>, counts: array<nat>, f: nat, ch: char, ghost rows: seq<string>)
    requires Holds(a, counts, rows) && f < 5 && |rows[f]| < MAXIMUM_METRIC_LENGTH
    modifies a, counts
    ensures Holds(a, counts, rows[f := rows[f] + [ch]])
  {
    a[f, counts[f]] := ch;
    counts[f] := counts[f] + 1;
  }

  /** The scanning loop: five fixed rune arrays, filled in one pass. */
  method Scan(metricString: string) returns (metricStrings: array2<char>, metricRuneCount: array<nat>)
    ensures Holds(metricStrings, metricRuneCount, Fields(Strip(metricString), DELIMITERS))
  {
    metricStrings := new char[5, MAXIMUM_METRIC_LENGTH];
    metricRuneCount := new nat[5](i => 0);
    var delimiterCount, metricCount := 0, 0;
    ghost var all := Fields(Strip(metricString), DELIMITERS);
    ghost var rows := Empties(5);
    ScanStart(Strip(metricString));
    var i := 0;
    var full := false;
    assert metricString[0..] == metricString;
    while i < |metricString| && !full
      invariant 0 <= i <= |metricString|
      invariant delimiterCount == metricCount
      invariant Scanned(all, rows, metricCount, Strip(metricString[i..]))
      invariant Holds(metricStrings, metricRuneCount, rows)
      invariant full <==> |rows[metricCount]| == MAXIMUM_METRIC_LENGTH
    {
      var ch := metricString[i];
      StripStep(metricString, i);
      ghost var rest := Strip(metricString[i + 1..]);
      assert Strip(metricString[i..]) == if Ignored(ch) then rest else [ch] + rest;
      i := i + 1;
      if !Ignored(ch) {
        if delimiterCount < |DELIMITERS| && metricCount < metricStrings.Length0 - 1
           && ch == DELIMITERS[delimiterCount] {
          ScanDelimiter(all, rows, metricCount, rest);
          delimiterCount := delimiterCount + 1;
          metricCount := metricCount + 1;
        } else {
          ScanRune(all, rows, metricCount, ch, rest);
          Put(metricStrings, metricRuneCount, metricCount, ch, rows);
          rows := rows[metricCount := rows[metricCount] + [ch]];
        }
        if metricRuneCount[metricCount] == MAXIMUM_METRIC_LENGTH {
          full := true;
        }
      }
    }
    ScanEnd(all, rows, metricCount, Strip(metricString[i..]));
  }

  /** `string(metricStrings[f][:n])` */
  method RowText(a: array2<char>, counts: array<nat>, f: nat, ghost rows: seq<string>)
    returns (s: string)
    requires f < 5 && Holds(a, counts, rows)
    ensures s == rows[f]
  {
    s := seq(counts[f], i requires 0 <= i < counts[f] && f < a.Length0 && counts[f] <= a.Length1
                          reads a, counts => a[f, i]);
  }

  method ParseMetricString(pf: ParseFloat, metricString: string) returns (r: Result<Metric, ParseError>)
    ensures r == Parse(pf, metricString)
  {
    ghost var rows := Fields(Strip(metricString), DELIMITERS);
    var metricStrings, metricRuneCount := Scan(metricString);
    if metricRuneCount[0] == 0 || metricRuneCount[1] == 0 || metricRuneCount[2] == 0 {
      return Failure(MissingElements);
    }
    var text := RowText(metricStrings, metricRuneCount, 1, rows);
    var value := pf(text);
    if value == None {
      return Failure(BadValue);
    }
    text := RowText(metricStrings, metricRuneCount, 2, rows);
    var metricType := TypeOf(text);
    if metricType == None {
      return Failure(BadType);
    }
    var sampleRate := 1.0;
    text := RowText(metricStrings, metricRuneCount, 4, rows);
    var sample := pf(text);
    if sample.Some? && sample.value > 0.0 && sample.value <= 1.0 {
      sampleRate := sample.value;
    }
    var totalHits := 1.0;
    if sampleRate < 1.0 {
      totalHits := 1.0 / sampleRate;
    }
    text := RowText(metricStrings, metricRuneCount, 0, rows);
    r := Success(Metric(text, metricType.value, totalHits, value.value, [value.value], sampleRate,
                        0.0, 0.0, 0.0, 0.0, 0.0, [], 0));
  }

  // ---------- What is accepted ----------

  predicate Clean(s: string) {
    forall c :: c in s ==> !Ignored(c)
  }

  /** What may follow the type: nothing, or a pipe and anything. */
  predicate Tail(t: string) {
    t == [] || t[0] == '|'
  }

  /** The sample-rate text inside a tail. */
  function TailRate(tail: string): string
    requires Tail(tail)
  {
    if tail == [] then [] else Fields(tail[1..], ['@'])[1]
  }

  function Head(key: string, value: string, short: string): string {
    key + [':'] + value + ['|'] + short
  }

  predicate Field(f: string, delimiter: char) {
    0 < |f| < MAXIMUM_METRIC_LENGTH && delimiter !in f
  }

  /** A text `key:value|type` with a tail splits into those fields. */
  lemma FieldsOfHead(key: string, value: string, short: string, tail: string)
    requires Field(key, ':') && Field(value, '|') && Field(short, '|') && Tail(tail)
    ensures var f := Fields(Head(key, value, short) + tail, DELIMITERS);
      f[0] == key && f[1] == value && f[2] == short && f[4] == TailRate(tail)
  {
    var rest2 := short + tail;
    var rest1 := value + (['|'] + rest2);
    assert Head(key, value, short) + tail == key + ([':'] + rest1);
    assert DELIMITERS[1..] == ['|', '|', '@'];
    FieldsDelimiter(key, rest1, DELIMITERS);
    assert ['|', '|', '@'][1..] == ['|', '@'];
    FieldsDelimiter(value, rest2, ['|', '|', '@']);
    TypeAndRate(short, tail);
  }

  lemma TypeAndRate(short: string, tail: string)
    requires Field(short, '|') && Tail(tail)
    ensures var f := Fields(short + tail, ['|', '@']); f[0] == short && f[2] == TailRate(tail)
  {
    if tail == [] {
      FieldsLast(short, tail, ['|', '@']);
    } else {
      assert tail == ['|'] + tail[1..];
      FieldsDelimiter(short, tail[1..], ['|', '@']);
      assert ['|', '@'][1..] == ['@'];
    }
  }

  /** A field that is not the last one is what stands before its delimiter. */
  lemma ClosedField(t: string, delimiters: seq<char>)
    requires delimiters != [] && Fields(t, delimiters)[1] != []
    ensures var f := Fields(t, delimiters);
      && |f[0]| < MAXIMUM_METRIC_LENGTH && delimiters[0] !in f[0]
      && |f[0]| < |t|
      && t == f[0] + ([delimiters[0]] + t[|f[0]| + 1..])
      && f[1..] == Fields(t[|f[0]| + 1..], delimiters[1..])
  {
    var k := FirstIndex(t, delimiters[0]);
    FirstIndexFinds(t, delimiters[0]);
    assert k < MAXIMUM_METRIC_LENGTH && k < |t|;
    assert Fields(t, delimiters) == [t[..k]] + Fields(t[k + 1..], delimiters[1..]);
    CutAt(t, k);
  }

  lemma CutAt(t: string, k: nat)
    requires k < |t|
    ensures t == t[..k] + ([t[k]] + t[k + 1..])
  {
  }

  lemma ShortField(t: string, delimiters: seq<char>)
    requires delimiters != [] && |Fields(t, delimiters)[0]| < MAXIMUM_METRIC_LENGTH
    ensures var f := Fields(t, delimiters);
      && delimiters[0] !in f[0]
      && |f[0]| <= |t|
      && t == f[0] + t[|f[0]|..]
      && (|f[0]| < |t| ==> t[|f[0]|] == delimiters[0])
  {
    FirstIndexFinds(t, delimiters[0]);
  }

  /** The fields after the key. */
  lemma {:induction false} AcceptedRest(t1: string) returns (tail: string)
    requires var f := Fields(t1, ['|', '|', '@']); f[0] != [] && TypeOf(f[1]).Some?
    ensures var f := Fields(t1, ['|', '|', '@']);
      Field(f[0], '|') && Tail(tail) && t1 == f[0] + (['|'] + (f[1] + tail))
  {
    var f1 := Fields(t1, ['|', '|', '@']);
    ClosedField(t1, ['|', '|', '@']);
    var t2 := t1[|f1[0]| + 1..];
    assert ['|', '|', '@'][1..] == ['|', '@'];
    assert f1[1] == Fields(t2, ['|', '@'])[0];
    tail := AcceptedType(t2);
  }

  lemma {:induction false} AcceptedType(t2: string) returns (tail: string)
    requires TypeOf(Fields(t2, ['|', '@'])[0]).Some?
    ensures Tail(tail) && t2 == Fields(t2, ['|', '@'])[0] + tail
  {
    var short := Fields(t2, ['|', '@'])[0];
    ShortField(t2, ['|', '@']);
    tail := t2[|short|..];
  }

  lemma {:induction false} AcceptedFields(t: string) returns (tail: string)
    requires var f := Fields(t, DELIMITERS); f[0] != [] && f[1] != [] && TypeOf(f[2]).Some?
    ensures var f := Fields(t, DELIMITERS);
      && Field(f[0], ':') && Field(f[1], '|')
      && Tail(tail) && t == Head(f[0], f[1], f[2]) + tail
  {
    var f := Fields(t, DELIMITERS);
    ClosedField(t, DELIMITERS);
    var t1 := t[|f[0]| + 1..];
    assert DELIMITERS[1..] == ['|', '|', '@'];
    var f1 := Fields(t1, ['|', '|', '@']);
    assert f[1..] == f1 && f[1] == f1[0] && f[2] == f1[1];
    tail := AcceptedRest(t1);
    HeadAssembles(f[0], f[1], f[2], tail, t1, t);
  }

  lemma HeadAssembles(key: string, value: string, short: string, tail: string, t1: string, t: string)
    requires t1 == value + (['|'] + (short + tail))
    requires t == key + ([':'] + t1)
    ensures t == Head(key, value, short) + tail
  {
  }

  lemma DescribedParses(pf: ParseFloat, s: string, key: string, value: string, short: string,
                        tail: string, m: Metric)
    requires Describes(pf, Strip(s), key, value, short, tail, m)
    ensures Parse(pf, s) == Success(m)
  {
    FieldsOfHead(key, value, short, tail);
  }

  lemma {:induction false} ParsedIsDescribed(pf: ParseFloat, s: string)
    returns (key: string, value: string, short: string, tail: string)
    requires Parse(pf, s).Success?
    ensures Describes(pf, Strip(s), key, value, short, tail, Parse(pf, s).value)
  {
    var f := Fields(Strip(s), DELIMITERS);
    tail := AcceptedFields(Strip(s));
    key, value, short := f[0], f[1], f[2];
    FieldsOfHead(key, value, short, tail);
  }

  ghost predicate Described(pf: ParseFloat, t: string, m: Metric) {
    exists key, value, short, tail :: Describes(pf, t, key, value, short, tail, m)
  }

  lemma ParsedDescribed(pf: ParseFloat, s: string)
    requires Parse(pf, s).Success?
    ensures Described(pf, Strip(s), Parse(pf, s).value)
  {
    var key, value, short, tail := ParsedIsDescribed(pf, s);
  }

  lemma DescribedParsed(pf: ParseFloat, s: string, m: Metric)
    requires Described(pf, Strip(s), m)
    ensures Parse(pf, s) == Success(m)
  {
    var key, value, short, tail :| Describes(pf, Strip(s), key, value, short, tail, m);
    DescribedParses(pf, s, key, value, short, tail, m);
  }

  /** A string parses to `m` exactly when, its blanks aside, it reads key:value|type with a key of
      1 to 511 runes without colon, a value of 1 to 511 runes without pipe that is a number, one of
      the four types, and then nothing or a pipe; `m` is the sample those parts describe. */
  lemma ParseAccepts(pf: ParseFloat, s: string, m: Metric)
    ensures Parse(pf, s) == Success(m) <==> Described(pf, Strip(s), m)
  {
    if Parse(pf, s) == Success(m) {
      ParsedDescribed(pf, s);
    }
    if Described(pf, Strip(s), m) {
      DescribedParsed(pf, s, m);
    }
  }

  ghost predicate Describes(pf: ParseFloat, t: string, key: string, value: string, short: string,
                            tail: string, m: Metric)
  {
    && Field(key, ':') && Field(value, '|') && Tail(tail)
    && t == Head(key, value, short) + tail
    && TypeOf(short).Some? && pf(value).Some?
    && m == Sample(key, TypeOf(short).value, pf(value).value, RateOf(pf, TailRate(tail)))
  }

  // ---------- Printing and parsing ----------

  function ShortOf(t: MetricType): string {
    match t
    case Counter => "c"
    case Gauge => "g"
    case Set => "s"
    case Timer => "ms"
  }

  /** key:value|type|@rate */
  function Print(key: string, value: string, metricType: MetricType, rate: string): string {
    Head(key, value, ShortOf(metricType)) + ['|', '@'] + rate
  }

  lemma {:induction false} StripClean(s: string)
    requires Clean(s)
    ensures Strip(s) == s
  {
    if s != [] {
      StripClean(s[1..]);
      assert s[0] in s;
      assert s == [s[0]] + s[1..];
    }
  }

  lemma {:induction false} StripKeeps(s: string)
    ensures forall c :: c in Strip(s) ==> c in s && !Ignored(c)
  {
    if s != [] {
      StripKeeps(s[1..]);
    }
  }

  lemma {:induction false} StripAppend(a: string, b: string)
    ensures Strip(a + b) == Strip(a) + Strip(b)
  {
    if a == [] {
      assert a + b == b;
    } else {
      StripAppend(a[1..], b);
      assert (a + b)[1..] == a[1..] + b;
      Associative(Visible(a[0]), Strip(a[1..]), Strip(b));
    }
  }

  lemma {:induction false} OnlyBlanks(blanks: string)
    requires forall c :: c in blanks ==> Ignored(c)
    ensures Strip(blanks) == []
  {
    if blanks != [] {
      assert blanks[0] in blanks;
      OnlyBlanks(blanks[1..]);
    }
  }

  /** Blanks inserted anywhere, any number of times, do not change the parse. */
  lemma BlanksDoNotMatter(pf: ParseFloat, a: string, blanks: string, b: string)
    requires forall c :: c in blanks ==> Ignored(c)
    ensures Parse(pf, a + blanks + b) == Parse(pf, a + b)
  {
    assert Strip(a + blanks + b) == Strip(a + b) by {
      StripAppend(a + blanks, b);
      StripAppend(a, blanks);
      StripAppend(a, b);
      OnlyBlanks(blanks);
    }
  }

  /** Parsing undoes printing, whatever blanks were added on the way: the hit count is the inverse of
      the sample rate. */
  lemma ParsePrint(pf: ParseFloat, key: string, valueText: string, value: real,
                   metricType: MetricType, rateText: string, rate: real, s: string)
    requires Field(key, ':') && Field(valueText, '|') && pf(valueText) == Some(value)
    requires |rateText| <= MAXIMUM_METRIC_LENGTH
    requires pf(rateText) == Some(rate) && 0.0 < rate <= 1.0
    requires Strip(s) == Print(key, valueText, metricType, rateText)
    ensures Parse(pf, s) == Success(Sample(key, metricType, value, rate))
    ensures var m := Sample(key, metricType, value, rate);
      && m.key == key && m.metricType == metricType && m.lastValue == value && m.allValues == [value]
      && m.sampleRate == rate && m.totalHits * rate == 1.0 && m.totalHits >= 1.0
  {
    PrintedDescribed(pf, key, valueText, value, metricType, rateText, rate);
    DescribedParsed(pf, s, Sample(key, metricType, value, rate));
    SampleHits(key, metricType, value, rate);
  }

  lemma CleanPrint(key: string, value: string, metricType: MetricType, rate: string)
    requires Clean(key) && Clean(value) && Clean(rate)
    ensures Strip(Print(key, value, metricType, rate)) == Print(key, value, metricType, rate)
  {
    StripClean(Print(key, value, metricType, rate));
  }

  lemma PrintedDescribed(pf: ParseFloat, key: string, valueText: string, value: real,
                         metricType: MetricType, rateText: string, rate: real)
    requires Field(key, ':') && Field(valueText, '|') && pf(valueText) == Some(value)
    requires |rateText| <= MAXIMUM_METRIC_LENGTH && pf(rateText) == Some(rate) && 0.0 < rate <= 1.0
    ensures Described(pf, Print(key, valueText, metricType, rateText),
                      Sample(key, metricType, value, rate))
  {
    RateInTail(rateText);
    var head, tail := Head(key, valueText, ShortOf(metricType)), ['|', '@'] + rateText;
    assert head + ['|', '@'] + rateText == head + tail;
    assert Describes(pf, head + tail, key, valueText, ShortOf(metricType), tail,
                     Sample(key, metricType, value, rate));
  }

  lemma RateInTail(rateText: string)
    requires |rateText| <= MAXIMUM_METRIC_LENGTH
    ensures Tail(['|', '@'] + rateText) && TailRate(['|', '@'] + rateText) == rateText
  {
    var tail := ['|', '@'] + rateText;
    assert tail[1..] == [] + (['@'] + rateText);
    FieldsDelimiter([], rateText, ['@']);
    FieldsLast(rateText, [], []);
    assert rateText + [] == rateText;
  }

  lemma SampleHits(key: string, metricType: MetricType, value: real, rate: real)
    requires 0.0 < rate <= 1.0
    ensures Sample(key, metricType, value, rate).totalHits * rate == 1.0
    ensures Sample(key, metricType, value, rate).totalHits >= 1.0
  {
  }

  /** What every accepted string guarantees: a key of 1 to 511 runes of its own, none of them a
      space, NUL or colon, one value, and a hit count that was inflated, never deflated. */
  lemma AcceptedKey(pf: ParseFloat, s: string)
    requires Parse(pf, s).Success?
    ensures var m := Parse(pf, s).value;
      && 1 <= |m.key| < MAXIMUM_METRIC_LENGTH
      && (forall c :: c in m.key ==> c in s && !Ignored(c) && c != ':')
      && m.allValues == [m.lastValue] && m.quantiles == []
      && m.totalHits >= 1.0
      && |s| >= 5
  {
    var key, value, short, tail := ParsedIsDescribed(pf, s);
    StripKeeps(s);
    forall c | c in key ensures c in Strip(s) && c != ':' {
      assert c in Head(key, value, short);
    }
    SampleHits(key, TypeOf(short).value, pf(value).value, RateOf(pf, TailRate(tail)));
  }

  // ---------- The parts, told without the functions above ----------

  lemma StripOne(c: char)
    ensures Strip([c]) == Visible(c)
  {
    assert [c][1..] == [] && Visible(c) + [] == Visible(c);
  }

  /** Spaces and NULs are deleted, wherever they are, and every other character is kept in its place. */
  lemma StripDeletes(a: string, c: char, b: string)
    ensures Strip(a + [c] + b) == if c == ' ' || c == '\0' then Strip(a + b) else Strip(a) + [c] + Strip(b)
    ensures Strip("") == ""
  {
    StripAppend(a + [c], b);
    StripAppend(a, [c]);
    StripAppend(a, b);
    StripOne(c);
    if Ignored(c) {
      assert Strip(a) + [] == Strip(a);
    }
  }

  /** There are four types, and they are written like this. */
  lemma TypeTexts(short: string)
    ensures TypeOf(short) == Some(Counter) <==> short == "c"
    ensures TypeOf(short) == Some(Gauge) <==> short == "g"
    ensures TypeOf(short) == Some(Set) <==> short == "s"
    ensures TypeOf(short) == Some(Timer) <==> short == "ms"
    ensures forall t: MetricType :: TypeOf(short) == Some(t) <==> short == ShortOf(t)
  {
  }

  /** The sample of a value that counts once. */
  ghost predicate CountsOnce(r: Result<Metric, ParseError>, key: string, metricType: MetricType, value: real) {
    && r == Success(Sample(key, metricType, value, 1.0))
    && r.value.key == key && r.value.metricType == metricType
    && r.value.lastValue == value && r.value.allValues == [value]
    && r.value.sampleRate == 1.0 && r.value.totalHits == 1.0
  }

  /** Without a sample rate, whatever else follows the type, a metric counts once. */
  lemma MissingRateCountsOnce(pf: ParseFloat, key: string, valueText: string, value: real,
                              metricType: MetricType, tail: string, s: string)
    requires Field(key, ':') && Field(valueText, '|') && pf(valueText) == Some(value) && pf("") == None
    requires Tail(tail) && '@' !in tail
    requires Strip(s) == Head(key, valueText, ShortOf(metricType)) + tail
    ensures CountsOnce(Parse(pf, s), key, metricType, value)
  {
    NoRateInTail(tail);
    DescribedParses(pf, s, key, valueText, ShortOf(metricType), tail, Sample(key, metricType, value, 1.0));
  }

  lemma NoRateInTail(tail: string)
    requires Tail(tail) && '@' !in tail
    ensures TailRate(tail) == ""
  {
    if tail != [] {
      FirstIndexFinds(tail[1..], '@');
    }
  }

  /** A sample rate that is no number, or not in (0, 1], counts as none. */
  lemma UnusableRateCountsOnce(pf: ParseFloat, key: string, valueText: string, value: real,
                               metricType: MetricType, rateText: string, s: string)
    requires Field(key, ':') && Field(valueText, '|') && pf(valueText) == Some(value)
    requires |rateText| <= MAXIMUM_METRIC_LENGTH
    requires pf(rateText) == None || pf(rateText).value <= 0.0 || pf(rateText).value > 1.0
    requires Strip(s) == Print(key, valueText, metricType, rateText)
    ensures CountsOnce(Parse(pf, s), key, metricType, value)
  {
    RateInTail(rateText);
    var head, tail := Head(key, valueText, ShortOf(metricType)), ['|', '@'] + rateText;
    assert head + ['|', '@'] + rateText == head + tail;
    DescribedParses(pf, s, key, valueText, ShortOf(metricType), tail, Sample(key, metricType, value, 1.0));
  }

  // ---------- Which error ----------

  /** key:value|rest with something for a type. */
  predicate ThreeElements(t: string, key: string, value: string, rest: string) {
    && Field(key, ':') && Field(value, '|') && rest != [] && rest[0] != '|'
    && t == key + ([':'] + (value + (['|'] + rest)))
  }

  ghost predicate HasElements(t: string) {
    exists key, value, rest :: ThreeElements(t, key, value, rest)
  }

  /** One of the four types, and then nothing or a pipe. */
  ghost predicate NamesType(rest: string) {
    exists t, tail :: Tail(tail) && rest == ShortOf(t) + tail
  }

  lemma FirstField(t: string, delimiters: seq<char>)
    requires delimiters != []
    ensures Fields(t, delimiters)[0] != [] <==> t != [] && t[0] != delimiters[0]
  {
  }

  lemma FieldsOfElements(t: string, key: string, value: string, rest: string)
    requires ThreeElements(t, key, value, rest)
    ensures var f := Fields(t, DELIMITERS);
      f[0] == key && f[1] == value && f[2] != [] && f[2] == Fields(rest, ['|', '@'])[0]
  {
    assert DELIMITERS[1..] == ['|', '|', '@'] && ['|', '|', '@'][1..] == ['|', '@'];
    FieldsDelimiter(key, value + (['|'] + rest), DELIMITERS);
    FieldsDelimiter(value, rest, ['|', '|', '@']);
    FirstField(rest, ['|', '@']);
  }

  lemma {:induction false} ElementsAfterKey(t1: string) returns (rest: string)
    requires var f := Fields(t1, ['|', '|', '@']); f[0] != [] && f[1] != []
    ensures var f := Fields(t1, ['|', '|', '@']);
      Field(f[0], '|') && rest != [] && rest[0] != '|' && t1 == f[0] + (['|'] + rest)
  {
    var f := Fields(t1, ['|', '|', '@']);
    ClosedField(t1, ['|', '|', '@']);
    assert ['|', '|', '@'][1..] == ['|', '@'];
    rest := t1[|f[0]| + 1..];
    FirstField(rest, ['|', '@']);
  }

  lemma {:induction false} ElementsOfFields(t: string) returns (rest: string)
    requires var f := Fields(t, DELIMITERS); f[0] != [] && f[1] != [] && f[2] != []
    ensures var f := Fields(t, DELIMITERS); ThreeElements(t, f[0], f[1], rest)
  {
    var f := Fields(t, DELIMITERS);
    ClosedField(t, DELIMITERS);
    assert DELIMITERS[1..] == ['|', '|', '@'];
    var t1 := t[|f[0]| + 1..];
    var f1 := f[1..];
    assert f1 == Fields(t1, ['|', '|', '@']);
    assert f1[0] == f[1] && f1[1] == f[2];
    rest := ElementsAfterKey(t1);
  }

  lemma TypeFieldNamed(rest: string, t: MetricType, tail: string)
    requires Tail(tail) && rest == ShortOf(t) + tail
    ensures Fields(rest, ['|', '@'])[0] == ShortOf(t)
  {
    TypeAndRate(ShortOf(t), tail);
  }

  lemma TypeFieldNamesType(rest: string)
    ensures TypeOf(Fields(rest, ['|', '@'])[0]).Some? <==> NamesType(rest)
  {
    var short := Fields(rest, ['|', '@'])[0];
    TypeTexts(short);
    if TypeOf(short).Some? {
      var tail := AcceptedType(rest);
      assert rest == ShortOf(TypeOf(short).value) + tail;
    }
    if t, tail :| Tail(tail) && rest == ShortOf(t) + tail {
      TypeFieldNamed(rest, t, tail);
    }
  }

  /** What a string with its elements in place parses to, as far as errors go. */
  lemma ErrorOfElements(pf: ParseFloat, s: string, key: string, value: string, rest: string)
    requires ThreeElements(Strip(s), key, value, rest)
    ensures Parse(pf, s) == Failure(BadValue) <==> pf(value) == None
    ensures Parse(pf, s) == Failure(BadType) <==> pf(value).Some? && !NamesType(rest)
    ensures Parse(pf, s).Success? <==> pf(value).Some? && NamesType(rest)
  {
    FieldsOfElements(Strip(s), key, value, rest);
    TypeFieldNamesType(rest);
  }

  /** A string that has its key, value and type in place fails for its value before its type; every
      other string misses an element. */
  lemma ParseErrors(pf: ParseFloat, s: string)
    ensures Parse(pf, s) == Failure(MissingElements) <==> !HasElements(Strip(s))
    ensures Parse(pf, s) == Failure(BadValue)
       <==> exists key, value, rest :: ThreeElements(Strip(s), key, value, rest) && pf(value) == None
    ensures Parse(pf, s) == Failure(BadType)
       <==> exists key, value, rest ::
              ThreeElements(Strip(s), key, value, rest) && pf(value).Some? && !NamesType(rest)
  {
    if Parse(pf, s) != Failure(MissingElements) {
      var rest := ElementsOfFields(Strip(s));
      var f := Fields(Strip(s), DELIMITERS);
      ErrorOfElements(pf, s, f[0], f[1], rest);
    }
    forall key, value, rest | ThreeElements(Strip(s), key, value, rest)
      ensures Parse(pf, s) == Failure(BadValue) <==> pf(value) == None
      ensures Parse(pf, s) == Failure(BadType) <==> pf(value).Some? && !NamesType(rest)
      ensures Parse(pf, s) != Failure(MissingElements)
    {
      ErrorOfElements(pf, s, key, value, rest);
      FieldsOfElements(Strip(s), key, value, rest);
    }
  }
}
