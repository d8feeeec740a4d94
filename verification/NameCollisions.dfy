/** For which configurations the names of every flush are distinct, without asking for separating type
    prefixes: the type prefixes, type suffixes and statistics put around a key are compared. */
module NameCollisions {
  import opened Text
  import opened Decimal
  import opened Metrics
  import opened Carbon
  import opened CarbonNames

  /** What stands before and after the key in a name. */
  datatype Wrapper = Wrapper(before: string, after: string)

  function Wrapped(w: Wrapper, key: string): string {
    w.before + key + w.after
  }

  // ---------- Two wrappers and two keys ----------

  predicate EndsWith(s: string, tail: string) {
    |tail| <= |s| && s[|s| - |tail|..] == tail
  }

  /** One of the two beginnings continues the other, and so do the ends. */
  predicate Overlap(a: Wrapper, b: Wrapper) {
    && (a.before <= b.before || b.before <= a.before)
    && (EndsWith(a.after, b.after) || EndsWith(b.after, a.after))
  }

  lemma PrefixesOfOne(s: string, a: string, b: string)
    requires a <= s && b <= s && |a| <= |b|
    ensures a <= b
  {
    assert a == s[..|a|] && b == s[..|b|];
  }

  lemma SuffixesOfOne(s: string, a: string, b: string)
    requires EndsWith(s, a) && EndsWith(s, b) && |a| <= |b|
    ensures EndsWith(b, a)
  {
    assert b == s[|s| - |b|..];
    assert b[|b| - |a|..] == s[|s| - |a|..];
  }

  lemma WrappedEnds(w: Wrapper, key: string)
    ensures w.before <= Wrapped(w, key) && EndsWith(Wrapped(w, key), w.after)
  {
  }

  /** Only overlapping wrappers can make the same name. */
  lemma SameNameOverlaps(a: Wrapper, k: string, b: Wrapper, l: string)
    requires Wrapped(a, k) == Wrapped(b, l)
    ensures Overlap(a, b)
  {
    var s := Wrapped(a, k);
    WrappedEnds(a, k);
    WrappedEnds(b, l);
    if |a.before| <= |b.before| {
      PrefixesOfOne(s, a.before, b.before);
    } else {
      PrefixesOfOne(s, b.before, a.before);
    }
    if |a.after| <= |b.after| {
      SuffixesOfOne(s, a.after, b.after);
    } else {
      SuffixesOfOne(s, b.after, a.after);
    }
  }

  lemma SameWrapperSameKey(w: Wrapper, k: string, l: string)
    requires Wrapped(w, k) == Wrapped(w, l)
    ensures k == l
  {
    SameBeforeCommon(w.before + k, w.before + l, w.after);
    SameAfterCommon(w.before, k, l);
  }

  /** The longer end, split at the shorter one. */
  lemma {:induction false} SplitEnd(s: string, tail: string) returns (front: string)
    requires EndsWith(s, tail)
    ensures s == front + tail
  {
    front := s[..|s| - |tail|];
  }

  lemma Regroup(p: string, u: string, k: string, v: string, s: string)
    ensures (p + u) + k + (v + s) == p + (u + k + v) + s
    ensures (p + u) + k + s == p + (u + k) + s
    ensures p + k + (v + s) == p + (k + v) + s
  {
    FiveParts(p, u, k, v, s);
    assert p + (u + (k + v + s)) == p + (u + k + v) + s;
  }

  /** Different wrappers that overlap make the same name of two different keys. */
  lemma {:induction false} OverlapCollides(a: Wrapper, b: Wrapper) returns (k: string, l: string)
    requires Overlap(a, b) && a != b
    ensures k != "" && l != "" && k != l && Wrapped(a, k) == Wrapped(b, l)
  {
    if a.before <= b.before {
      k, l := ShorterFirst(a, b);
    } else {
      l, k := ShorterFirst(b, a);
    }
  }

  lemma {:induction false} ShorterFirst(a: Wrapper, b: Wrapper) returns (k: string, l: string)
    requires Overlap(a, b) && a != b && a.before <= b.before
    ensures k != "" && l != "" && k != l && Wrapped(a, k) == Wrapped(b, l)
  {
    var u := b.before[|a.before|..];
    assert b.before == a.before + u;
    if EndsWith(a.after, b.after) {
      var v := SplitEnd(a.after, b.after);
      k, l := Across(u, v);
      Regroup(a.before, u, l, v, b.after);
      Regroup(a.before, u, k, v, b.after);
    } else {
      var v := SplitEnd(b.after, a.after);
      l := "k";
      k := u + l + v;
      Regroup(a.before, u, l, v, a.after);
      assert |k| > |l|;
    }
  }

  /** Two different keys that agree once the first is followed by `v` and the second preceded by `u`. */
  lemma {:induction false} Across(u: string, v: string) returns (k: string, l: string)
    requires u != "" || v != ""
    ensures k != "" && l != "" && k != l && k + v == u + l
  {
    var x := if u != "" && u[0] == '0' then "1" else "0";
    k, l := u + x, x + v;
    assert k + v == u + l;
    if u != "" {
      assert k[0] == u[0] && l[0] == x[0];
    } else {
      assert |k| < |l|;
    }
  }

  // ---------- The wrappers of a metric ----------

  /** What follows the key of a timer's statistic. */
  function StatPart(percentiles: seq<int>, i: nat): string
    requires i < 4 + 4 * |percentiles|
  {
    "." + if i < 4 then StatName(["mean", "median", "max", "min"][i], "value")
          else StatName(WORDS[(i - 4) % 4], FormatInt(percentiles[(i - 4) / 4]))
  }

  function Around(c: Config, ns: Namespace, part: string): Wrapper {
    Wrapper(PrefixOf(c, ns), part + SuffixOf(c, ns))
  }

  function TimerWrappers(c: Config, percentiles: seq<int>): seq<Wrapper> {
    seq(4 + 4 * |percentiles|, i requires 0 <= i < 4 + 4 * |percentiles| =>
          Around(c, ForTimer, StatPart(percentiles, i)))
  }

  /** Everything a metric of a type puts around its key. */
  function WrappersOf(c: Config, t: MetricType, percentiles: seq<int>): seq<Wrapper> {
    match t
    case Gauge => [Around(c, ForGauge, "")]
    case Counter => [Around(c, ForRate, ""), Around(c, ForCounter, "")]
    case Set => [Around(c, ForSet, "")]
    case Timer => [Around(c, ForRate, "")] + TimerWrappers(c, percentiles)
  }

  lemma WrapPoint(c: Config, ns: Namespace, key: string, part: string)
    ensures FullName(c, ns, key + part) == Wrapped(Around(c, ns, part), key)
  {
    Associative(PrefixOf(c, ns), key, part);
    Associative(PrefixOf(c, ns) + key, part, SuffixOf(c, ns));
  }

  lemma StatWrapped(c: Config, m: Metric, i: nat)
    requires i < |TimerStats(m)|
    ensures |TimerStats(m)| == 4 + 4 * |PercentsOf(m.quantiles)|
    ensures var s := TimerStats(m)[i];
      FullName(c, ForTimer, m.key + "." + StatName(s.word, s.qualifier))
      == Wrapped(TimerWrappers(c, PercentsOf(m.quantiles))[i], m.key)
  {
    TimerStatAt(m, i);
    var s, part := TimerStats(m)[i], StatPart(PercentsOf(m.quantiles), i);
    assert part == "." + StatName(s.word, s.qualifier);
    Associative(m.key, ".", StatName(s.word, s.qualifier));
    WrapPoint(c, ForTimer, m.key, part);
  }

  /** The names of a metric are its key in each of its wrappers. */
  lemma NamesAreWrapped(c: Config, m: Metric, i: nat)
    requires i < |NamesOf(c, m)|
    ensures var ws := WrappersOf(c, m.metricType, PercentsOf(m.quantiles));
      |NamesOf(c, m)| == |ws| && NamesOf(c, m)[i] == Wrapped(ws[i], m.key)
  {
    var ws := WrappersOf(c, m.metricType, PercentsOf(m.quantiles));
    assert m.metricType.Timer? ==> |PointsOf(m)| == 1 + |TimerStats(m)|;
    if m.metricType.Timer? && i > 0 {
      StatWrapped(c, m, i - 1);
      assert ws[i] == TimerWrappers(c, PercentsOf(m.quantiles))[i - 1];
    } else {
      WrapPoint(c, PointsOf(m)[i].ns, m.key, "");
      assert m.key + "" == m.key;
    }
  }

  // ---------- Every flush ----------

  /** Among all that is put around keys, only equal wrappers overlap. */
  ghost predicate NoOverlap(c: Config, percentiles: seq<int>) {
    forall t, u, i, j ::
      0 <= i < |WrappersOf(c, t, percentiles)| && 0 <= j < |WrappersOf(c, u, percentiles)|
      && Overlap(WrappersOf(c, t, percentiles)[i], WrappersOf(c, u, percentiles)[j]) ==>
        WrappersOf(c, t, percentiles)[i] == WrappersOf(c, u, percentiles)[j]
  }

  /** No type of metric puts the same around its key twice. */
  ghost predicate NoRepeat(c: Config, percentiles: seq<int>) {
    forall t :: NoDuplicates(WrappersOf(c, t, percentiles))
  }

  /** What a flush can hand over: one entry a key, each timer with the configured percentiles. */
  ghost predicate Flushable(batch: seq<Metric>, percentiles: seq<int>) {
    && DistinctKeys(batch) && Reported(batch, percentiles)
    && forall i :: 0 <= i < |batch| ==> batch[i].key != ""
  }

  ghost predicate AlwaysDistinct(c: Config, percentiles: seq<int>) {
    forall batch :: Flushable(batch, percentiles) ==> NoDuplicates(FlushNames(c, batch))
  }

  function Quantiles(percentiles: seq<int>): seq<MetricQuantile> {
    seq(|percentiles|, i requires 0 <= i < |percentiles| =>
          MetricQuantile(percentiles[i], 0.0, [], 0.0, 0.0, 0.0, 0.0))
  }

  /** A metric of each type and key, reporting the percentiles if it is a timer. */
  function Entry(t: MetricType, key: string, percentiles: seq<int>): (m: Metric)
    ensures m.key == key && m.metricType == t
    ensures PercentsOf(m.quantiles) == if t.Timer? then percentiles else []
  {
    var qs := Quantiles(percentiles);
    assert PercentsOf(qs) == percentiles;
    Sample(key, t, 0.0, 1.0).(quantiles := if t.Timer? then qs else [])
  }

  /** A type's wrappers, of a metric as a flush hands it over. */
  lemma WrappersOfEntry(c: Config, m: Metric, percentiles: seq<int>, i: nat)
    requires PercentsOf(m.quantiles) == if m.metricType.Timer? then percentiles else []
    ensures |NamesOf(c, m)| == |WrappersOf(c, m.metricType, percentiles)|
    ensures i < |NamesOf(c, m)| ==>
              NamesOf(c, m)[i] == Wrapped(WrappersOf(c, m.metricType, percentiles)[i], m.key)
  {
    assert |NamesOf(c, m)| > 0;
    NamesAreWrapped(c, m, if i < |NamesOf(c, m)| then i else 0);
  }

  lemma OneEntryNames(c: Config, m: Metric)
    ensures FlushNames(c, [m]) == NamesOf(c, m)
  {
    assert [m][..0] == [];
    assert [] + NamesOf(c, m) == NamesOf(c, m);
  }

  lemma TwoEntryNames(c: Config, a: Metric, i: nat, b: Metric, j: nat)
    requires i < |NamesOf(c, a)| && j < |NamesOf(c, b)| && NamesOf(c, a)[i] == NamesOf(c, b)[j]
    ensures !NoDuplicates(FlushNames(c, [a, b]))
  {
    assert [a, b][..1] == [a];
    OneEntryNames(c, a);
    NoDuplicatesAppend(NamesOf(c, a), NamesOf(c, b));
  }

  lemma FlushBreaks(c: Config, percentiles: seq<int>, batch: seq<Metric>)
    requires Flushable(batch, percentiles) && !NoDuplicates(FlushNames(c, batch))
    ensures !AlwaysDistinct(c, percentiles)
  {
  }

  lemma TwoFlushable(percentiles: seq<int>, t: MetricType, k: string, u: MetricType, l: string)
    requires k != "" && l != "" && k != l
    ensures Flushable([Entry(t, k, percentiles), Entry(u, l, percentiles)], percentiles)
  {
  }

  lemma TwoKeysBreak(c: Config, percentiles: seq<int>, a: Metric, i: nat, b: Metric, j: nat)
    requires Flushable([a, b], percentiles)
    requires i < |NamesOf(c, a)| && j < |NamesOf(c, b)| && NamesOf(c, a)[i] == NamesOf(c, b)[j]
    ensures !AlwaysDistinct(c, percentiles)
  {
    TwoEntryNames(c, a, i, b, j);
    FlushBreaks(c, percentiles, [a, b]);
  }

  lemma OverlapBreaks(c: Config, percentiles: seq<int>, t: MetricType, i: nat, u: MetricType, j: nat)
    requires i < |WrappersOf(c, t, percentiles)| && j < |WrappersOf(c, u, percentiles)|
    requires Overlap(WrappersOf(c, t, percentiles)[i], WrappersOf(c, u, percentiles)[j])
    requires WrappersOf(c, t, percentiles)[i] != WrappersOf(c, u, percentiles)[j]
    ensures !AlwaysDistinct(c, percentiles)
  {
    var v, w := WrappersOf(c, t, percentiles)[i], WrappersOf(c, u, percentiles)[j];
    var k, l := OverlapCollides(v, w);
    EntryName(c, percentiles, t, i, k);
    EntryName(c, percentiles, u, j, l);
    TwoFlushable(percentiles, t, k, u, l);
    TwoKeysBreak(c, percentiles, Entry(t, k, percentiles), i, Entry(u, l, percentiles), j);
  }

  lemma EntryName(c: Config, percentiles: seq<int>, t: MetricType, i: nat, key: string)
    requires i < |WrappersOf(c, t, percentiles)|
    ensures var names := NamesOf(c, Entry(t, key, percentiles));
      i < |names| && names[i] == Wrapped(WrappersOf(c, t, percentiles)[i], key)
  {
    WrappersOfEntry(c, Entry(t, key, percentiles), percentiles, i);
  }

  lemma EntryRepeats(c: Config, percentiles: seq<int>, t: MetricType, i: nat, j: nat)
    requires i < j < |WrappersOf(c, t, percentiles)|
    requires WrappersOf(c, t, percentiles)[i] == WrappersOf(c, t, percentiles)[j]
    ensures !NoDuplicates(FlushNames(c, [Entry(t, "k", percentiles)]))
  {
    var m := Entry(t, "k", percentiles);
    WrappersOfEntry(c, m, percentiles, i);
    WrappersOfEntry(c, m, percentiles, j);
    OneEntryNames(c, m);
    assert NamesOf(c, m)[i] == NamesOf(c, m)[j];
  }

  lemma RepeatBreaks(c: Config, percentiles: seq<int>, t: MetricType)
    requires !NoDuplicates(WrappersOf(c, t, percentiles))
    ensures !AlwaysDistinct(c, percentiles)
  {
    var ws := WrappersOf(c, t, percentiles);
    var i, j :| 0 <= i < j < |ws| && ws[i] == ws[j];
    EntryRepeats(c, percentiles, t, i, j);
    FlushBreaks(c, percentiles, [Entry(t, "k", percentiles)]);
  }

  lemma EntryNamesDiffer(c: Config, m: Metric, percentiles: seq<int>)
    requires NoOverlap(c, percentiles) && NoRepeat(c, percentiles)
    requires PercentsOf(m.quantiles) == if m.metricType.Timer? then percentiles else []
    ensures NoDuplicates(NamesOf(c, m))
  {
    var ws, names := WrappersOf(c, m.metricType, percentiles), NamesOf(c, m);
    assert NoDuplicates(ws);
    forall i, j | 0 <= i < j < |names| ensures names[i] != names[j] {
      WrappersOfEntry(c, m, percentiles, i);
      WrappersOfEntry(c, m, percentiles, j);
      if names[i] == names[j] {
        SameNameOverlaps(ws[i], m.key, ws[j], m.key);
      }
    }
  }

  lemma EntriesDiffer(c: Config, a: Metric, i: nat, b: Metric, j: nat, percentiles: seq<int>)
    requires NoOverlap(c, percentiles) && a.key != b.key
    requires PercentsOf(a.quantiles) == if a.metricType.Timer? then percentiles else []
    requires PercentsOf(b.quantiles) == if b.metricType.Timer? then percentiles else []
    requires i < |NamesOf(c, a)| && j < |NamesOf(c, b)|
    ensures NamesOf(c, a)[i] != NamesOf(c, b)[j]
  {
    WrappersOfEntry(c, a, percentiles, i);
    WrappersOfEntry(c, b, percentiles, j);
    var v, w := WrappersOf(c, a.metricType, percentiles)[i], WrappersOf(c, b.metricType, percentiles)[j];
    if Wrapped(v, a.key) == Wrapped(w, b.key) {
      SameNameOverlaps(v, a.key, w, b.key);
      SameWrapperSameKey(v, a.key, b.key);
    }
  }

  lemma {:induction false} NoOverlapDistinct(c: Config, batch: seq<Metric>, percentiles: seq<int>)
    requires NoOverlap(c, percentiles) && NoRepeat(c, percentiles) && Flushable(batch, percentiles)
    ensures NoDuplicates(FlushNames(c, batch))
  {
    if batch != [] {
      var front, m := batch[..|batch| - 1], batch[|batch| - 1];
      NoOverlapDistinct(c, front, percentiles);
      EntryNamesDiffer(c, m, percentiles);
      var a, b := FlushNames(c, front), NamesOf(c, m);
      forall i, j | 0 <= i < |a| && 0 <= j < |b| ensures a[i] != b[j] {
        var k, l := NameOrigin(c, front, i);
        assert front[k] == batch[k];
        EntriesDiffer(c, front[k], l, m, j, percentiles);
      }
      NoDuplicatesAppend(a, b);
    }
  }

  /** For any configuration of prefixes, suffixes and percentiles: the names of every flush are pairwise
      distinct if and only if no two different wrappers overlap and no type repeats one. */
  lemma AlwaysDistinctIff(c: Config, percentiles: seq<int>)
    ensures AlwaysDistinct(c, percentiles) <==> NoOverlap(c, percentiles) && NoRepeat(c, percentiles)
  {
    if NoOverlap(c, percentiles) && NoRepeat(c, percentiles) {
      forall batch | Flushable(batch, percentiles) ensures NoDuplicates(FlushNames(c, batch)) {
        NoOverlapDistinct(c, batch, percentiles);
      }
    }
    if !NoRepeat(c, percentiles) {
      var t :| !NoDuplicates(WrappersOf(c, t, percentiles));
      RepeatBreaks(c, percentiles, t);
    }
    if !NoOverlap(c, percentiles) {
      var t, u, i, j :|
        0 <= i < |WrappersOf(c, t, percentiles)| && 0 <= j < |WrappersOf(c, u, percentiles)|
        && Overlap(WrappersOf(c, t, percentiles)[i], WrappersOf(c, u, percentiles)[j])
        && WrappersOf(c, t, percentiles)[i] != WrappersOf(c, u, percentiles)[j];
      OverlapBreaks(c, percentiles, t, i, u, j);
    }
  }

  /** Gauges and timers that share type prefix and type suffix, both empty for instance, can collide: a
      gauge may be called what a timer's statistic is. */
  lemma SharedGaugesAndTimersCollide(c: Config, percentiles: seq<int>)
    requires c.prefixes.gauges == c.prefixes.timers && c.suffixes.gauges == c.suffixes.timers
    ensures !AlwaysDistinct(c, percentiles)
  {
    var a, b := WrappersOf(c, Gauge, percentiles)[0], WrappersOf(c, Timer, percentiles)[1];
    assert b == TimerWrappers(c, percentiles)[0] == Around(c, ForTimer, StatPart(percentiles, 0));
    var s := SuffixOf(c, ForGauge);
    assert a.after == s && b.after == StatPart(percentiles, 0) + s;
    assert EndsWith(b.after, a.after) && |b.after| > |a.after|;
    OverlapBreaks(c, percentiles, Gauge, 0, Timer, 1);
  }
}
