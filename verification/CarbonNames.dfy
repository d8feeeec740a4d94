/** What reaches carbon: the names of one flush do not collide, and every payload is one line of three
    fields. */
module CarbonNames {
  import opened Text
  import opened Decimal
  import opened Metrics
  import opened Parser
  import opened Auth
  import opened Carbon

  // ---------- A name is the dot-join of its parts ----------

  function One(part: string): seq<string> {
    if part == "" then [] else [part]
  }

  function NonEmpty(parts: seq<string>): seq<string> {
    if parts == [] then [] else One(parts[0]) + NonEmpty(parts[1..])
  }

  /** A leading part that may be empty. */
  lemma JoinOne(part: string, rest: seq<string>)
    requires rest != []
    ensures Join(One(part) + rest, '.') == (if part == "" then "" else part + ".") + Join(rest, '.')
  {
    if part == "" {
      assert One(part) + rest == rest;
    } else {
      JoinCons(part, rest, '.');
    }
  }

  lemma NonEmptyCons(part: string, rest: seq<string>)
    ensures NonEmpty([part] + rest) == One(part) + NonEmpty(rest)
  {
    assert ([part] + rest)[1..] == rest;
  }

  /** Every part that is not empty is kept, in its place. */
  lemma {:induction false} NonEmptyKeeps(a: seq<string>, part: string, b: seq<string>)
    ensures NonEmpty(a + ([part] + b)) == NonEmpty(a) + ((if part == "" then [] else [part]) + NonEmpty(b))
  {
    if a == [] {
      assert a + ([part] + b) == [part] + b;
      NonEmptyCons(part, b);
    } else {
      NonEmptyKeeps(a[1..], part, b);
      assert (a + ([part] + b))[1..] == a[1..] + ([part] + b);
      Associative(One(a[0]), NonEmpty(a[1..]), One(part) + NonEmpty(b));
    }
  }

  lemma NonEmptyTwo(ts: string, s: string)
    ensures NonEmpty([ts, s]) == One(ts) + One(s)
  {
    NonEmptyCons(ts, [s]);
    NonEmptyCons(s, []);
    assert [ts, s] == [ts] + [s] && [s] == [s] + [];
  }

  /** Trailing parts that may be empty. */
  lemma TailJoins(key: string, ts: string, s: string)
    ensures Join([key] + (One(ts) + One(s)), '.')
         == key + (if ts == "" then "" else "." + ts) + (if s == "" then "" else "." + s)
  {
    if ts != "" && s != "" {
      JoinCons(key, [ts] + [s], '.');
      JoinCons(ts, [s], '.');
    } else if ts != "" {
      assert One(ts) + One(s) == [ts];
      JoinCons(key, [ts], '.');
    } else if s != "" {
      assert One(ts) + One(s) == [s];
      JoinCons(key, [s], '.');
    } else {
      assert [key] + (One(ts) + One(s)) == [key];
    }
  }

  /** [prefix].[type prefix].[key].[type suffix].[suffix], without the parts that are empty. */
  lemma NameIsDotJoin(c: Config, ns: Namespace, key: string)
    requires key != ""
    ensures FullName(c, ns, key)
         == Join(NonEmpty([c.prefix, c.prefixes.Of(ns), key, c.suffixes.Of(ns), c.suffix]), '.')
  {
    var p, tp, ts, s := c.prefix, c.prefixes.Of(ns), c.suffixes.Of(ns), c.suffix;
    NonEmptyTwo(ts, s);
    var mid := [key] + (One(ts) + One(s));
    var typed := One(tp) + mid;
    assert NonEmpty([p, tp, key, ts, s]) == One(p) + typed by {
      assert [p, tp, key, ts, s] == [p] + ([tp] + ([key] + [ts, s]));
      NonEmptyCons(p, [tp] + ([key] + [ts, s]));
      NonEmptyCons(tp, [key] + [ts, s]);
      NonEmptyCons(key, [ts, s]);
    }
    JoinOne(p, typed);
    JoinOne(tp, mid);
    TailJoins(key, ts, s);
    WrapAssembles(c, ns, key);
  }

  lemma FiveParts(a: string, b: string, key: string, c: string, d: string)
    ensures (a + b) + key + (c + d) == a + (b + (key + c + d))
  {
    Associative(a, b, key + (c + d));
    Associative(a + b, key, c + d);
    Associative(key, c, d);
  }

  lemma WrapAssembles(c: Config, ns: Namespace, key: string)
    ensures var tp, ts := c.prefixes.Of(ns), c.suffixes.Of(ns);
      FullName(c, ns, key)
      == (if c.prefix == "" then "" else c.prefix + ".")
         + ((if tp == "" then "" else tp + ".")
            + (key + (if ts == "" then "" else "." + ts) + (if c.suffix == "" then "" else "." + c.suffix)))
  {
    var tp, ts := c.prefixes.Of(ns), c.suffixes.Of(ns);
    var b, d := if tp == "" then "" else tp + ".", if ts == "" then "" else "." + ts;
    assert PrefixOf(c, ns) == GlobalPrefix(c) + b;
    assert SuffixOf(c, ns) == d + GlobalSuffix(c);
    FiveParts(GlobalPrefix(c), b, key, d, GlobalSuffix(c));
  }

  // ---------- Names of one flush are pairwise distinct ----------

  ghost predicate NoDuplicates<T>(s: seq<T>) {
    forall i, j :: 0 <= i < j < |s| ==> s[i] != s[j]
  }

  /** Type prefixes that are non-empty, free of dots and different from each other. */
  predicate SeparatingPrefixes(c: Config) {
    forall ns :: ns in NAMESPACES ==>
      && c.prefixes.Of(ns) != "" && '.' !in c.prefixes.Of(ns)
      && forall other :: other in NAMESPACES && other != ns ==> c.prefixes.Of(ns) != c.prefixes.Of(other)
  }

  lemma AllNamespaces(ns: Namespace)
    ensures ns in NAMESPACES
  {
  }

  lemma SameAfterCommon(common: string, a: string, b: string)
    requires common + a == common + b
    ensures a == b
  {
    assert a == (common + a)[|common|..];
    assert b == (common + b)[|common|..];
  }

  lemma SameBeforeCommon(a: string, b: string, common: string)
    requires a + common == b + common
    ensures a == b
  {
    assert |a| == |b|;
    assert a == (a + common)[..|a|];
    assert b == (b + common)[..|b|];
  }

  /** The first dot separates. */
  lemma FirstDot(a: string, x: string, b: string, y: string)
    requires '.' !in a && '.' !in b && a + "." + x == b + "." + y
    ensures a == b && x == y
  {
    FirstIndexAt(a, '.', x);
    FirstIndexAt(b, '.', y);
    assert a == (a + "." + x)[..|a|] && b == (b + "." + y)[..|b|];
    assert x == (a + "." + x)[|a| + 1..] && y == (b + "." + y)[|b| + 1..];
  }

  /** The last dot separates. */
  lemma LastDot(a: string, x: string, b: string, y: string)
    requires '.' !in x && '.' !in y && a + "." + x == b + "." + y
    ensures a == b && x == y
  {
    var s, t := a + "." + x, b + "." + y;
    assert forall k :: |a| < k < |s| ==> s[k] == x[k - |a| - 1] && s[k] != '.';
    assert forall k :: |b| < k < |t| ==> t[k] == y[k - |b| - 1] && t[k] != '.';
    assert s[|a|] == '.' && t[|b|] == '.';
    assert |a| == |b|;
    assert a == s[..|a|] && b == t[..|b|];
    assert x == s[|a| + 1..] && y == t[|b| + 1..];
  }

  lemma NameShape(c: Config, ns: Namespace, base: string)
    requires c.prefixes.Of(ns) != ""
    ensures FullName(c, ns, base)
         == GlobalPrefix(c) + (c.prefixes.Of(ns) + "." + (base + SuffixOf(c, ns)))
  {
  }

  /** The namespace wrapping can be undone. */
  lemma FullNameInjective(c: Config, ns1: Namespace, base1: string, ns2: Namespace, base2: string)
    requires SeparatingPrefixes(c)
    requires FullName(c, ns1, base1) == FullName(c, ns2, base2)
    ensures ns1 == ns2 && base1 == base2
  {
    AllNamespaces(ns1);
    AllNamespaces(ns2);
    var p1, p2 := c.prefixes.Of(ns1), c.prefixes.Of(ns2);
    var r1, r2 := base1 + SuffixOf(c, ns1), base2 + SuffixOf(c, ns2);
    NameShape(c, ns1, base1);
    NameShape(c, ns2, base2);
    SameAfterCommon(GlobalPrefix(c), p1 + "." + r1, p2 + "." + r2);
    FirstDot(p1, r1, p2, r2);
    assert ns1 == ns2;
    SameBeforeCommon(base1, base2, SuffixOf(c, ns1));
  }

  // ---------- Statistics of one timer ----------

  const STAT_WORDS := {"mean", "median", "max", "min", "upper", "sum"}

  predicate WellNamed(s: Stat) {
    s.word in STAT_WORDS && '.' !in s.qualifier
  }

  lemma FormatIntPlain(n: int)
    ensures '.' !in FormatInt(n) && FormatInt(n) != "value"
  {
    FormatIntCharacters(n);
    assert FormatInt(n)[0] in FormatInt(n);
  }

  lemma StatNamesDiffer(a: Stat, b: Stat)
    requires WellNamed(a) && WellNamed(b) && (a.word != b.word || a.qualifier != b.qualifier)
    ensures StatName(a.word, a.qualifier) != StatName(b.word, b.qualifier)
  {
    var s, t := StatName(a.word, a.qualifier), StatName(b.word, b.qualifier);
    FirstIndexAt(a.word, '_', a.qualifier);
    FirstIndexAt(b.word, '_', b.qualifier);
    assert a.word == s[..|a.word|] && b.word == t[..|b.word|];
    assert a.qualifier == s[|a.word| + 1..] && b.qualifier == t[|b.word| + 1..];
  }

  lemma StatNameHasNoDot(s: Stat)
    requires WellNamed(s)
    ensures '.' !in StatName(s.word, s.qualifier)
  {
  }

  const WORDS := ["mean", "median", "upper", "sum"]

  lemma StatOfAt(q: MetricQuantile, k: nat)
    requires k < 4
    ensures var s := StatsOf(q)[k]; s.word == WORDS[k] && s.qualifier == FormatInt(q.quantile)
  {
  }

  lemma AppendAt<T>(a: seq<T>, b: seq<T>, i: nat)
    requires i < |a| + |b|
    ensures (a + b)[i] == if i < |a| then a[i] else b[i - |a|]
  {
  }

  lemma {:induction false} QuantileStatFrom(quantiles: seq<MetricQuantile>, i: nat, k: nat)
    requires i < |quantiles| && k < 4
    ensures QuantileStats(quantiles)[4 * i + k] == StatsOf(quantiles[i])[k]
  {
    var n := |quantiles| - 1;
    AppendAt(QuantileStats(quantiles[..n]), StatsOf(quantiles[n]), 4 * i + k);
    if i < n {
      QuantileStatFrom(quantiles[..n], i, k);
    }
  }

  lemma QuantileStatAt(quantiles: seq<MetricQuantile>, i: nat, k: nat)
    requires i < |quantiles| && k < 4
    ensures var s := QuantileStats(quantiles)[4 * i + k];
      s.word == WORDS[k] && s.qualifier == FormatInt(quantiles[i].quantile)
  {
    QuantileStatFrom(quantiles, i, k);
    StatOfAt(quantiles[i], k);
  }

  function TimerStats(m: Metric): seq<Stat> {
    CumulativeStats(m) + QuantileStats(m.quantiles)
  }

  lemma TimerStatAt(m: Metric, i: nat)
    requires i < |TimerStats(m)|
    ensures var s := TimerStats(m)[i];
      && WellNamed(s)
      && (i < 4 ==> s.word == ["mean", "median", "max", "min"][i] && s.qualifier == "value")
      && (i >= 4 ==>
            && (i - 4) / 4 < |m.quantiles|
            && s.word == WORDS[(i - 4) % 4]
            && s.qualifier == FormatInt(m.quantiles[(i - 4) / 4].quantile)
            && s.qualifier != "value")
  {
    if i >= 4 {
      var q, k := (i - 4) / 4, (i - 4) % 4;
      assert i - 4 == 4 * q + k;
      QuantileStatAt(m.quantiles, q, k);
      FormatIntPlain(m.quantiles[q].quantile);
    }
  }

  function PercentsOf(quantiles: seq<MetricQuantile>): seq<int> {
    seq(|quantiles|, i requires 0 <= i < |quantiles| => quantiles[i].quantile)
  }

  /** With distinct percentiles no statistic of a timer is named twice. */
  lemma TimerStatsDistinct(m: Metric, i: nat, j: nat)
    requires NoDuplicates(PercentsOf(m.quantiles)) && i < j < |TimerStats(m)|
    ensures var s, t := TimerStats(m)[i], TimerStats(m)[j];
      StatName(s.word, s.qualifier) != StatName(t.word, t.qualifier)
  {
    TimerStatAt(m, i);
    TimerStatAt(m, j);
    if i >= 4 {
      var a, b := (i - 4) / 4, (j - 4) / 4;
      assert a == b ==> (i - 4) % 4 < (j - 4) % 4;
      if a != b {
        assert PercentsOf(m.quantiles)[a] != PercentsOf(m.quantiles)[b];
        FormatIntDiffers(m.quantiles[a].quantile, m.quantiles[b].quantile);
      }
    }
    StatNamesDiffer(TimerStats(m)[i], TimerStats(m)[j]);
  }

  /** A repeated percentile repeats a name. */
  lemma TimerStatsRepeat(m: Metric, a: nat, b: nat)
    requires a < b < |m.quantiles| && m.quantiles[a].quantile == m.quantiles[b].quantile
    ensures var s, t := TimerStats(m)[4 + 4 * a], TimerStats(m)[4 + 4 * b];
      StatName(s.word, s.qualifier) == StatName(t.word, t.qualifier)
  {
    QuantileStatAt(m.quantiles, a, 0);
    QuantileStatAt(m.quantiles, b, 0);
  }

  // ---------- All names of a flush ----------

  function NamesOf(c: Config, m: Metric): seq<string> {
    seq(|PointsOf(m)|, i requires 0 <= i < |PointsOf(m)| =>
          FullName(c, PointsOf(m)[i].ns, PointsOf(m)[i].base))
  }

  /** The names a metric sends are those of its requests. */
  lemma NamesAreRequested(c: Config, m: Metric)
    ensures |NamesOf(c, m)| == |RequestsOf(c, m)|
    ensures forall i :: 0 <= i < |NamesOf(c, m)| ==> NamesOf(c, m)[i] == RequestsOf(c, m)[i].name
  {
  }

  /** Where a point of a metric comes from. */
  lemma PointShape(m: Metric, i: nat)
    requires i < |PointsOf(m)|
    ensures var p := PointsOf(m)[i];
      && (p.ns.ForTimer? <==> m.metricType.Timer? && i > 0)
      && (!p.ns.ForTimer? ==> p.base == m.key)
      && (p.ns.ForTimer? ==>
            && i - 1 < |TimerStats(m)|
            && var s := TimerStats(m)[i - 1]; WellNamed(s) && p.base == m.key + "." + StatName(s.word, s.qualifier))
  {
    if m.metricType.Timer? && i > 0 {
      TimerStatAt(m, i - 1);
    }
  }

  /** Metrics with different keys never share a name. */
  lemma OtherKeyOtherName(c: Config, a: Metric, i: nat, b: Metric, j: nat)
    requires SeparatingPrefixes(c) && a.key != b.key
    requires i < |NamesOf(c, a)| && j < |NamesOf(c, b)|
    ensures NamesOf(c, a)[i] != NamesOf(c, b)[j]
  {
    var p, q := PointsOf(a)[i], PointsOf(b)[j];
    PointShape(a, i);
    PointShape(b, j);
    if NamesOf(c, a)[i] == NamesOf(c, b)[j] {
      FullNameInjective(c, p.ns, p.base, q.ns, q.base);
      if p.ns.ForTimer? {
        var s, t := TimerStats(a)[i - 1], TimerStats(b)[j - 1];
        StatNameHasNoDot(s);
        StatNameHasNoDot(t);
        LastDot(a.key, StatName(s.word, s.qualifier), b.key, StatName(t.word, t.qualifier));
      }
    }
  }

  lemma TimerBasesDiffer(m: Metric, i: nat, j: nat)
    requires NoDuplicates(PercentsOf(m.quantiles)) && i < j < |TimerStats(m)|
    ensures var s, t := TimerStats(m)[i], TimerStats(m)[j];
      m.key + "." + StatName(s.word, s.qualifier) != m.key + "." + StatName(t.word, t.qualifier)
  {
    TimerStatsDistinct(m, i, j);
    var s, t := TimerStats(m)[i], TimerStats(m)[j];
    var x, y := StatName(s.word, s.qualifier), StatName(t.word, t.qualifier);
    if m.key + "." + x == m.key + "." + y {
      SameAfterCommon(m.key + ".", x, y);
    }
  }

  lemma PointsDiffer(m: Metric, i: nat, j: nat)
    requires NoDuplicates(PercentsOf(m.quantiles)) && i < j < |PointsOf(m)|
    ensures var p, q := PointsOf(m)[i], PointsOf(m)[j]; p.ns != q.ns || p.base != q.base
  {
    PointShape(m, i);
    PointShape(m, j);
    if m.metricType.Timer? && i > 0 {
      TimerBasesDiffer(m, i - 1, j - 1);
    }
  }

  lemma SameKeyNames(c: Config, m: Metric, i: nat, j: nat)
    requires SeparatingPrefixes(c) && i < j < |NamesOf(c, m)|
    requires NoDuplicates(PercentsOf(m.quantiles))
    ensures NamesOf(c, m)[i] != NamesOf(c, m)[j]
  {
    var p, q := PointsOf(m)[i], PointsOf(m)[j];
    PointsDiffer(m, i, j);
    if FullName(c, p.ns, p.base) == FullName(c, q.ns, q.base) {
      FullNameInjective(c, p.ns, p.base, q.ns, q.base);
    }
  }

  lemma SameStatSameName(c: Config, m: Metric, i: nat, j: nat)
    requires m.metricType.Timer? && i < |TimerStats(m)| && j < |TimerStats(m)|
    requires var s, t := TimerStats(m)[i], TimerStats(m)[j];
      StatName(s.word, s.qualifier) == StatName(t.word, t.qualifier)
    ensures |NamesOf(c, m)| == |TimerStats(m)| + 1
    ensures NamesOf(c, m)[i + 1] == NamesOf(c, m)[j + 1]
  {
    PointShape(m, i + 1);
    PointShape(m, j + 1);
  }

  lemma RepeatedName(c: Config, m: Metric, a: nat, b: nat)
    requires m.metricType.Timer? && a < b < |m.quantiles| && m.quantiles[a].quantile == m.quantiles[b].quantile
    ensures !NoDuplicates(NamesOf(c, m))
  {
    TimerStatsRepeat(m, a, b);
    SameStatSameName(c, m, 4 + 4 * a, 4 + 4 * b);
  }

  /** One metric repeats a name exactly when it is a timer and a percentile is configured twice. */
  lemma MetricNamesDistinctIff(c: Config, m: Metric)
    requires SeparatingPrefixes(c) && (!m.metricType.Timer? ==> m.quantiles == [])
    ensures NoDuplicates(NamesOf(c, m)) <==> NoDuplicates(PercentsOf(m.quantiles))
  {
    if NoDuplicates(PercentsOf(m.quantiles)) {
      forall i, j | 0 <= i < j < |NamesOf(c, m)| ensures NamesOf(c, m)[i] != NamesOf(c, m)[j] {
        SameKeyNames(c, m, i, j);
      }
    } else {
      var a, b := RepeatedPercent(m.quantiles);
      RepeatedName(c, m, a, b);
    }
  }

  lemma {:induction false} RepeatedPercent(quantiles: seq<MetricQuantile>) returns (a: nat, b: nat)
    requires !NoDuplicates(PercentsOf(quantiles))
    ensures a < b < |quantiles| && quantiles[a].quantile == quantiles[b].quantile
  {
    var percents := PercentsOf(quantiles);
    a, b :| 0 <= a < b < |percents| && percents[a] == percents[b];
  }

  /** The names of a whole flush, metric after metric. */
  function FlushNames(c: Config, batch: seq<Metric>): seq<string> {
    if batch == [] then []
    else FlushNames(c, batch[..|batch| - 1]) + NamesOf(c, batch[|batch| - 1])
  }

  lemma FlushNamesNext(c: Config, batch: seq<Metric>, m: Metric)
    ensures FlushNames(c, batch + [m]) == FlushNames(c, batch) + NamesOf(c, m)
  {
    assert (batch + [m])[..|batch|] == batch;
  }

  /** The names of a flush are those of its metrics, one after the other, none left out. */
  lemma {:induction false} FlushNamesAppend(c: Config, a: seq<Metric>, b: seq<Metric>)
    ensures FlushNames(c, a + b) == FlushNames(c, a) + FlushNames(c, b)
    ensures forall m :: FlushNames(c, [m]) == [] + NamesOf(c, m)
  {
    forall m ensures FlushNames(c, [m]) == [] + NamesOf(c, m) {
      assert [m][..0] == [];
    }
    if b == [] {
      assert a + b == a;
    } else {
      var front, m := b[..|b| - 1], b[|b| - 1];
      assert a + b == (a + front) + [m] && b == front + [m];
      FlushNamesNext(c, a + front, m);
      FlushNamesNext(c, front, m);
      FlushNamesAppend(c, a, front);
      Associative(FlushNames(c, a), FlushNames(c, front), NamesOf(c, m));
    }
  }

  lemma {:induction false} NameOrigin(c: Config, batch: seq<Metric>, i: nat) returns (k: nat, j: nat)
    requires i < |FlushNames(c, batch)|
    ensures k < |batch| && j < |NamesOf(c, batch[k])| && FlushNames(c, batch)[i] == NamesOf(c, batch[k])[j]
  {
    var front := batch[..|batch| - 1];
    if i < |FlushNames(c, front)| {
      k, j := NameOrigin(c, front, i);
    } else {
      k, j := |batch| - 1, i - |FlushNames(c, front)|;
    }
  }

  ghost predicate DistinctKeys(batch: seq<Metric>) {
    forall i, j :: 0 <= i < j < |batch| ==> batch[i].key != batch[j].key
  }

  /** Metrics as a flush hands them over: each timer reports the configured percentiles, in order. */
  ghost predicate Reported(batch: seq<Metric>, percentiles: seq<int>) {
    forall i :: 0 <= i < |batch| ==>
      PercentsOf(batch[i].quantiles) == if batch[i].metricType.Timer? then percentiles else []
  }

  lemma NoDuplicatesAppend<T>(a: seq<T>, b: seq<T>)
    ensures NoDuplicates(a + b) <==>
      NoDuplicates(a) && NoDuplicates(b) && forall i, j :: 0 <= i < |a| && 0 <= j < |b| ==> a[i] != b[j]
  {
    var s := a + b;
    if NoDuplicates(s) {
      forall i, j | 0 <= i < j < |a| ensures a[i] != a[j] {
        assert s[i] != s[j];
      }
      forall i, j | 0 <= i < j < |b| ensures b[i] != b[j] {
        assert s[|a| + i] != s[|a| + j];
      }
      forall i, j | 0 <= i < |a| && 0 <= j < |b| ensures a[i] != b[j] {
        assert s[i] != s[|a| + j];
      }
    }
  }

  /** With separating type prefixes, all names of one flush are pairwise distinct, for every map of
      metrics, exactly when no percentile is configured twice or no timer is flushed. */
  lemma {:induction false} FlushNamesDistinctIff(c: Config, batch: seq<Metric>, percentiles: seq<int>)
    requires SeparatingPrefixes(c) && DistinctKeys(batch) && Reported(batch, percentiles)
    ensures NoDuplicates(FlushNames(c, batch)) <==>
      NoDuplicates(percentiles) || forall i :: 0 <= i < |batch| ==> !batch[i].metricType.Timer?
  {
    if batch != [] {
      var n := |batch| - 1;
      var front, m := batch[..n], batch[n];
      FlushNamesDistinctIff(c, front, percentiles);
      var a, b := FlushNames(c, front), NamesOf(c, m);
      NoDuplicatesAppend(a, b);
      forall i, j | 0 <= i < |a| && 0 <= j < |b| ensures a[i] != b[j] {
        var k, l := NameOrigin(c, front, i);
        assert front[k].key != m.key;
        OtherKeyOtherName(c, front[k], l, m, j);
      }
      assert |PercentsOf(m.quantiles)| == |m.quantiles|;
      MetricNamesDistinctIff(c, m);
      assert (forall i :: 0 <= i < |batch| ==> !batch[i].metricType.Timer?) <==>
        (forall i :: 0 <= i < |front| ==> !front[i].metricType.Timer?) && !m.metricType.Timer?;
    }
  }

  // ---------- Without separating prefixes ----------

  lemma LongerPrefixHoldsKey(p1: string, s1: string, p2: string, s2: string, c: char)
    requires |p1| < |p2| && p1 + [c] + s1 == p2 + [c] + s2
    ensures p2[|p1|] == c
  {
    assert (p1 + [c] + s1)[|p1|] == c;
    assert (p2 + [c] + s2)[|p1|] == p2[|p1|];
  }

  lemma WrappersFromTwoKeys(p1: string, s1: string, p2: string, s2: string)
    requires |p1| <= |p2|
    requires p1 + ['a'] + s1 == p2 + ['a'] + s2 && p1 + ['b'] + s1 == p2 + ['b'] + s2
    ensures p1 == p2 && s1 == s2
  {
    if |p1| < |p2| {
      LongerPrefixHoldsKey(p1, s1, p2, s2, 'a');
      LongerPrefixHoldsKey(p1, s1, p2, s2, 'b');
    }
    var x, y := p1 + ['a'] + s1, p2 + ['a'] + s2;
    assert p1 == x[..|p1|] && p2 == y[..|p2|];
    assert s1 == x[|p1| + 1..] && s2 == y[|p2| + 1..];
  }

  lemma PrefixFromWrapper(c: Config, ns1: Namespace, ns2: Namespace)
    requires PrefixOf(c, ns1) == PrefixOf(c, ns2)
    ensures c.prefixes.Of(ns1) == c.prefixes.Of(ns2)
  {
    var x, y := c.prefixes.Of(ns1), c.prefixes.Of(ns2);
    var a, b := if x == "" then "" else x + ".", if y == "" then "" else y + ".";
    assert PrefixOf(c, ns1) == GlobalPrefix(c) + a && PrefixOf(c, ns2) == GlobalPrefix(c) + b;
    SameAfterCommon(GlobalPrefix(c), a, b);
    assert x != "" ==> x == a[..|a| - 1];
    assert y != "" ==> y == b[..|b| - 1];
  }

  lemma SuffixFromWrapper(c: Config, ns1: Namespace, ns2: Namespace)
    requires SuffixOf(c, ns1) == SuffixOf(c, ns2)
    ensures c.suffixes.Of(ns1) == c.suffixes.Of(ns2)
  {
    var x, y := c.suffixes.Of(ns1), c.suffixes.Of(ns2);
    var a, b := if x == "" then "" else "." + x, if y == "" then "" else "." + y;
    assert SuffixOf(c, ns1) == a + GlobalSuffix(c) && SuffixOf(c, ns2) == b + GlobalSuffix(c);
    SameBeforeCommon(a, b, GlobalSuffix(c));
    assert x != "" ==> x == a[1..];
    assert y != "" ==> y == b[1..];
  }

  ghost predicate SameNames(c: Config, ns1: Namespace, ns2: Namespace) {
    forall key: string :: key != "" ==> FullName(c, ns1, key) == FullName(c, ns2, key)
  }

  /** Two namespace types give every key the same name exactly when they share the type prefix and the
      type suffix, for instance because both are empty. */
  lemma SameNamesIff(c: Config, ns1: Namespace, ns2: Namespace)
    ensures SameNames(c, ns1, ns2)
       <==> c.prefixes.Of(ns1) == c.prefixes.Of(ns2) && c.suffixes.Of(ns1) == c.suffixes.Of(ns2)
  {
    if SameNames(c, ns1, ns2) {
      assert FullName(c, ns1, "a") == FullName(c, ns2, "a");
      assert FullName(c, ns1, "b") == FullName(c, ns2, "b");
      if |PrefixOf(c, ns1)| <= |PrefixOf(c, ns2)| {
        WrappersFromTwoKeys(PrefixOf(c, ns1), SuffixOf(c, ns1), PrefixOf(c, ns2), SuffixOf(c, ns2));
      } else {
        WrappersFromTwoKeys(PrefixOf(c, ns2), SuffixOf(c, ns2), PrefixOf(c, ns1), SuffixOf(c, ns1));
      }
      PrefixFromWrapper(c, ns1, ns2);
      SuffixFromWrapper(c, ns1, ns2);
    }
  }

  /** A counter sends its rate and its count under two names, or twice under one. */
  ghost predicate EveryCounterRepeats(c: Config) {
    forall m: Metric :: m.metricType.Counter? && m.key != "" ==> !NoDuplicates(NamesOf(c, m))
  }

  lemma CounterNames(c: Config, m: Metric)
    requires m.metricType.Counter?
    ensures NoDuplicates(NamesOf(c, m)) <==> FullName(c, ForRate, m.key) != FullName(c, ForCounter, m.key)
  {
    var names := NamesOf(c, m);
    assert |names| == 2;
    assert names[0] == FullName(c, ForRate, m.key) && names[1] == FullName(c, ForCounter, m.key);
  }

  /** The documentation allows empty type prefixes. Then the names of a flush can collide: every counter
      repeats its name exactly when rates and counters are configured with the same type prefix and the
      same type suffix. */
  lemma EveryCounterRepeatsIff(c: Config)
    ensures EveryCounterRepeats(c)
       <==> c.prefixes.rates == c.prefixes.counters && c.suffixes.rates == c.suffixes.counters
  {
    SameNamesIff(c, ForRate, ForCounter);
    if EveryCounterRepeats(c) {
      forall key: string | key != "" ensures FullName(c, ForRate, key) == FullName(c, ForCounter, key) {
        CounterNames(c, Sample(key, Counter, 0.0, 1.0));
      }
    }
    if SameNames(c, ForRate, ForCounter) {
      forall m: Metric | m.metricType.Counter? && m.key != "" ensures !NoDuplicates(NamesOf(c, m)) {
        CounterNames(c, m);
      }
    }
  }

  // ---------- Payloads ----------

  predicate Plain(s: string) {
    ' ' !in s && '\n' !in s
  }

  /** A payload is one line, and the line is exactly three fields. */
  lemma PayloadIsThreeFields(name: string, valueText: string, time: int)
    requires Plain(name) && Plain(valueText)
    ensures exists line :: Split(Payload(name, valueText, FormatInt(time)), '\n') == [line, ""]
                           && Split(line, ' ') == [name, valueText, FormatInt(time)]
  {
    var fields := [name] + ([valueText] + [FormatInt(time)]);
    FormatIntCharacters(time);
    JoinCons(name, [valueText] + [FormatInt(time)], ' ');
    JoinCons(valueText, [FormatInt(time)], ' ');
    SplitJoin(fields, ' ');
    var line := Join(fields, ' ');
    var lines := [line] + [""];
    JoinCons(line, [""], '\n');
    assert Join(lines, '\n') == Payload(name, valueText, FormatInt(time));
    SplitJoin(lines, '\n');
  }

  predicate PlainConfig(c: Config) {
    Plain(c.prefix) && Plain(c.suffix)
    && forall ns :: ns in NAMESPACES ==> Plain(c.prefixes.Of(ns)) && Plain(c.suffixes.Of(ns))
  }

  lemma PlainInt(n: int)
    ensures Plain(FormatInt(n))
  {
    FormatIntCharacters(n);
  }

  lemma PlainStat(m: Metric, i: nat)
    requires i < |TimerStats(m)|
    ensures var s := TimerStats(m)[i]; Plain(s.word) && Plain(s.qualifier)
  {
    TimerStatAt(m, i);
    if i >= 4 {
      PlainInt(m.quantiles[(i - 4) / 4].quantile);
    }
    PlainWord(TimerStats(m)[i].word);
  }

  lemma PlainWord(word: string)
    requires word in STAT_WORDS
    ensures Plain(word)
  {
  }

  lemma PlainPoint(m: Metric, i: nat)
    requires Plain(m.key) && i < |PointsOf(m)|
    ensures Plain(PointsOf(m)[i].base)
  {
    PointShape(m, i);
    if PointsOf(m)[i].ns.ForTimer? {
      var s := TimerStats(m)[i - 1];
      PlainStat(m, i - 1);
      assert Plain(StatName(s.word, s.qualifier));
    }
  }

  lemma PlainName(c: Config, ns: Namespace, base: string)
    requires PlainConfig(c) && Plain(base)
    ensures Plain(FullName(c, ns, base))
  {
    AllNamespaces(ns);
    assert Plain(PrefixOf(c, ns)) && Plain(SuffixOf(c, ns));
  }

  lemma PlainKey(pf: ParseFloat, auth: Auth, s: string)
    requires '\n' !in s && Accept(pf, auth, s).Some?
    ensures Plain(Accept(pf, auth, s).value.key)
  {
    var rest := Admit(auth, s).value;
    AcceptedKey(pf, rest);
    assert forall ch :: ch in rest ==> ch in s;
  }

  /** End to end: for a line that came off a socket and was accepted, every payload sent for its key,
      whatever the window it was folded into, is one line of three fields, the first being the name. */
  lemma AcceptedLinesMakePlainPayloads(pf: ParseFloat, auth: Auth, s: string, c: Config, m: Metric,
                                       i: nat, valueText: string)
    requires '\n' !in s && Accept(pf, auth, s).Some? && Accept(pf, auth, s).value.key == m.key
    requires PlainConfig(c) && Plain(valueText) && i < |RequestsOf(c, m)|
    ensures var r := RequestsOf(c, m)[i];
      exists line :: Split(Payload(r.name, valueText, FormatInt(r.time)), '\n') == [line, ""]
                     && Split(line, ' ') == [r.name, valueText, FormatInt(r.time)]
  {
    PlainKey(pf, auth, s);
    PlainPoint(m, i);
    var p := PointsOf(m)[i];
    PlainName(c, p.ns, p.base);
    PayloadIsThreeFields(FullName(c, p.ns, p.base), valueText, m.flushTime);
  }
}
