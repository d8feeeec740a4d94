/** statsgod/statistics.go `Median` and `Quantile`, and the percentile prefixes that
    statsgod/metric.go `ProcessMetric` cuts out of a sorted slice. */
module Quantiles {
  import opened Statistics

  function Median(values: seq<real>): real {
    var length := |values|;
    if length == 0 then 0.0
    else
      var left, right := (length - 1) / 2, length / 2;
      if left == right then values[left] else (values[left] + values[right]) / 2.0
  }

  /** Linear interpolation between neighbours at fractional index `index`. */
  function Interpolate(values: seq<real>, index: real): real
    requires values != [] && 0.0 <= index <= (|values| - 1) as real
  {
    var boundary := index.Floor;
    var delta := index - boundary as real;
    if boundary == |values| - 1 then values[boundary]
    else (1.0 - delta) * values[boundary] + delta * values[boundary + 1]
  }

  lemma IndexInRange(q: real, n: nat)
    requires 0.0 <= q <= 1.0
    ensures 0.0 <= q * n as real <= n as real
  {
    assert q * n as real + (1.0 - q) * n as real == n as real;
  }

  function Quantile(values: seq<real>, quantile: real): real
    requires 0.0 <= quantile <= 1.0
  {
    if |values| == 0 then 0.0
    else
      IndexInRange(quantile, |values| - 1);
      Interpolate(values, quantile * (|values| - 1) as real)
  }

  // ---------- The interpolation is monotone and stays between its neighbours ----------

  lemma ProductSign(x: real, y: real)
    requires x >= 0.0 && y >= 0.0
    ensures x * y >= 0.0
    ensures x > 0.0 && y > 0.0 ==> x * y > 0.0
  {
  }

  lemma MixFromBelow(d: real, x: real, y: real)
    ensures (1.0 - d) * x + d * y == x + d * (y - x)
  {
    assert (1.0 - d) * x == x - d * x;
    assert d * (y - x) == d * y - d * x;
  }

  lemma MixBetween(d: real, x: real, y: real)
    requires 0.0 <= d <= 1.0 && x <= y
    ensures x <= (1.0 - d) * x + d * y <= y
    ensures d < 1.0 && x < y ==> (1.0 - d) * x + d * y < y
  {
    var gap := y - x;
    MixFromBelow(d, x, y);
    ProductSign(d, gap);
    ProductSign(1.0 - d, gap);
    assert (1.0 - d) * gap == gap - d * gap;
  }

  lemma MixMonotone(d: real, e: real, x: real, y: real)
    requires d <= e && x <= y
    ensures (1.0 - d) * x + d * y <= (1.0 - e) * x + e * y
  {
    assert ((1.0 - e) * x + e * y) - ((1.0 - d) * x + d * y) == (e - d) * (y - x);
    ProductSign(e - d, y - x);
  }

  lemma InterpolateBetween(s: seq<real>, index: real)
    requires Sorted(s) && s != [] && 0.0 <= index <= (|s| - 1) as real
    ensures s[index.Floor] <= Interpolate(s, index)
    ensures index.Floor < |s| - 1 ==> Interpolate(s, index) <= s[index.Floor + 1]
    ensures index.Floor < |s| - 1 && s[index.Floor] < s[index.Floor + 1] ==>
              Interpolate(s, index) < s[index.Floor + 1]
    ensures s[0] <= Interpolate(s, index) <= s[|s| - 1]
  {
    var b := index.Floor;
    if b < |s| - 1 {
      MixBetween(index - b as real, s[b], s[b + 1]);
    }
  }

  lemma InterpolateMonotone(s: seq<real>, x: real, y: real)
    requires Sorted(s) && s != [] && 0.0 <= x <= y <= (|s| - 1) as real
    ensures Interpolate(s, x) <= Interpolate(s, y)
  {
    var b, c := x.Floor, y.Floor;
    InterpolateBetween(s, x);
    InterpolateBetween(s, y);
    if b == c {
      if b < |s| - 1 {
        MixMonotone(x - b as real, y - c as real, s[b], s[b + 1]);
      }
    }
  }

  lemma InterpolateInside(s: seq<real>, b: nat, d: real)
    requires b + 1 < |s| && 0.0 <= d < 1.0
    ensures Interpolate(s, b as real + d) == (1.0 - d) * s[b] + d * s[b + 1]
  {
    var index := b as real + d;
    assert index.Floor == b;
    assert index - b as real == d;
  }

  lemma InterpolateAt(s: seq<real>, b: nat)
    requires b < |s|
    ensures Interpolate(s, b as real) == s[b]
  {
    assert (b as real).Floor == b;
  }

  /** Between two neighbours the interpolation is the straight line through them. */
  lemma InterpolateLinear(s: seq<real>, b: nat, d: real)
    requires b + 1 < |s| && 0.0 <= d <= 1.0
    ensures Interpolate(s, b as real + d) == s[b] + d * (s[b + 1] - s[b])
  {
    if d < 1.0 {
      InterpolateInside(s, b, d);
      MixFromBelow(d, s[b], s[b + 1]);
    } else {
      InterpolateAt(s, b + 1);
      assert b as real + d == (b + 1) as real;
    }
  }

  /** `Median` is `Quantile` at one half, for every length and in any order. */
  lemma MedianIsHalfQuantile(s: seq<real>)
    ensures Median(s) == Quantile(s, 0.5)
  {
    if s != [] {
      var n := |s|;
      var index := 0.5 * (n - 1) as real;
      if n % 2 == 1 {
        assert index == ((n - 1) / 2) as real;
      } else {
        assert index == (n / 2 - 1) as real + 0.5;
        assert index.Floor == n / 2 - 1;
      }
    }
  }

  // ---------- Percentile prefixes ----------

  /** The values before the first one above `bound`, as the loop in `ProcessMetric` keeps them. */
  function KeepUpTo(s: seq<real>, bound: real): (r: seq<real>)
    ensures r <= s
  {
    if s == [] || s[0] > bound then [] else [s[0]] + KeepUpTo(s[1..], bound)
  }

  /** On a sorted slice the kept prefix is exactly the values at most the bound. */
  lemma {:induction false} KeepUpToSplits(s: seq<real>, bound: real)
    requires Sorted(s)
    ensures var k := |KeepUpTo(s, bound)|;
      && KeepUpTo(s, bound) == s[..k]
      && (forall i :: 0 <= i < |s| ==> (s[i] <= bound <==> i < k))
  {
    if s != [] && s[0] <= bound {
      KeepUpToSplits(s[1..], bound);
      var k := |KeepUpTo(s[1..], bound)|;
      forall i | 0 <= i < |s| ensures s[i] <= bound <==> i < k + 1 {
        if i > 0 {
          assert s[i] == s[1..][i - 1];
        }
      }
    }
  }

  ghost predicate StrictlySorted(s: seq<real>) {
    forall i, j :: 0 <= i < j < |s| ==> s[i] < s[j]
  }

  function Percentile(p: int): real {
    p as real / 100.0
  }

  /** The fractional index of percentile `p` in a slice of `n` values. */
  function Position(n: nat, p: int): (x: real)
    requires n > 0 && 0 <= p <= 100
    ensures 0.0 <= x <= (n - 1) as real
  {
    IndexInRange(Percentile(p), n - 1);
    Percentile(p) * (n - 1) as real
  }

  lemma PositionMonotone(n: nat, p: int, q: int)
    requires n > 0 && 0 <= p <= q <= 100
    ensures Position(n, p) <= Position(n, q)
  {
    ProductSign(Percentile(q) - Percentile(p), (n - 1) as real);
  }

  /** The boundary value of percentile `p`. */
  function Boundary(s: seq<real>, p: int): real
    requires 0 <= p <= 100
  {
    Quantile(s, Percentile(p))
  }

  /** The values percentile `p` keeps. */
  function Kept(s: seq<real>, p: int): seq<real>
    requires 0 <= p <= 100
  {
    KeepUpTo(s, Boundary(s, p))
  }

  lemma KeptAt(s: seq<real>, index: real)
    requires Sorted(s) && s != [] && 0.0 <= index <= (|s| - 1) as real
    ensures var bound := Interpolate(s, index);
      var k := |KeepUpTo(s, bound)|;
      && s[0] <= bound <= s[|s| - 1]
      && index.Floor + 1 <= k <= |s|
      && KeepUpTo(s, bound) == s[..k]
      && (forall i :: 0 <= i < |s| ==> (s[i] <= bound <==> i < k))
      && (StrictlySorted(s) ==> k == index.Floor + 1)
  {
    InterpolateBetween(s, index);
    KeepUpToSplits(s, Interpolate(s, index));
  }

  /** The prefix kept for percentile `p` holds exactly the values at most its boundary, is never
      empty, has at least one more member than the integer part of its position, and exactly that
      many when no two values are equal; the boundary lies between the least and greatest value. */
  lemma KeptPrefix(s: seq<real>, p: int)
    requires Sorted(s) && s != [] && 0 <= p <= 100
    ensures s[0] <= Boundary(s, p) <= s[|s| - 1]
    ensures 1 <= Position(|s|, p).Floor + 1 <= |Kept(s, p)| <= |s|
    ensures Kept(s, p) == s[..|Kept(s, p)|]
    ensures forall i :: 0 <= i < |s| ==> (s[i] <= Boundary(s, p) <==> i < |Kept(s, p)|)
    ensures StrictlySorted(s) ==> |Kept(s, p)| == Position(|s|, p).Floor + 1
  {
    KeptAt(s, Position(|s|, p));
  }

  // ---------- Larger percentiles keep more, and say more ----------

  /** Adding a value at least as large as all others cannot lower the mean. */
  lemma AverageGrows(s: seq<real>, x: real)
    requires s != [] && forall y :: y in s ==> y <= x
    ensures Average(s) <= Average(s + [x])
  {
    var n := |s| as real;
    assert (s + [x])[..|s|] == s;
    TotalAtMost(s, x);
    var a := Average(s);
    AverageTotal(s);
    assert a * n == Total(s);
    assert a <= x by {
      DivideBounds(Total(s), n, a, x);
    }
    DivideBounds(Total(s) + x, n + 1.0, a, (Total(s) + x) / (n + 1.0));
  }

  lemma {:induction false} TotalAtMost(s: seq<real>, hi: real)
    requires forall y :: y in s ==> y <= hi
    ensures Total(s) <= hi * |s| as real
  {
    if s != [] {
      var t := s[..|s| - 1];
      forall y | y in t ensures y in s {}
      TotalAtMost(t, hi);
      assert s[|s| - 1] in s;
      assert |s| as real == |t| as real + 1.0;
    }
  }

  lemma {:induction false} AveragePrefixMonotone(s: seq<real>, k: nat, l: nat)
    requires Sorted(s) && 1 <= k <= l <= |s|
    ensures Average(s[..k]) <= Average(s[..l])
    decreases l
  {
    if k < l {
      AveragePrefixMonotone(s, k, l - 1);
      assert s[..l] == s[..l - 1] + [s[l - 1]];
      AverageGrows(s[..l - 1], s[l - 1]);
    }
  }

  lemma MedianPrefixMonotone(s: seq<real>, k: nat, l: nat)
    requires Sorted(s) && 1 <= k <= l <= |s|
    ensures Median(s[..k]) <= Median(s[..l])
  {
    assert s[(k - 1) / 2] <= s[(l - 1) / 2];
    assert s[k / 2] <= s[l / 2];
  }

  lemma BoundaryMonotone(s: seq<real>, p: int, q: int)
    requires Sorted(s) && s != [] && 0 <= p <= q <= 100
    ensures Boundary(s, p) <= Boundary(s, q)
  {
    PositionMonotone(|s|, p, q);
    InterpolateMonotone(s, Position(|s|, p), Position(|s|, q));
  }

  lemma PrefixesCompare(s: seq<real>, a: seq<real>, b: seq<real>)
    requires Sorted(s) && a <= s && b <= s && 1 <= |a| <= |b|
    ensures a <= b
    ensures a[|a| - 1] <= b[|b| - 1]
    ensures Average(a) <= Average(b)
    ensures Median(a) <= Median(b)
  {
    assert a == s[..|a|] && b == s[..|b|];
    AveragePrefixMonotone(s, |a|, |b|);
    MedianPrefixMonotone(s, |a|, |b|);
  }

  lemma KeptGrows(s: seq<real>, p: int, q: int)
    requires Sorted(s) && s != [] && 0 <= p <= q <= 100
    ensures 1 <= |Kept(s, p)| <= |Kept(s, q)| <= |s|
  {
    KeptPrefix(s, p);
    KeptPrefix(s, q);
    BoundaryMonotone(s, p, q);
    assert s[|Kept(s, p)| - 1] <= Boundary(s, q);
  }

  /** For percentiles p <= q of one sorted timer the kept prefixes are nested, and Boundary, Max,
      Mean and Median all grow. */
  lemma PercentilesNested(s: seq<real>, p: int, q: int)
    requires Sorted(s) && s != [] && 0 <= p <= q <= 100
    ensures Kept(s, p) != [] && Kept(s, p) <= Kept(s, q)
    ensures Boundary(s, p) <= Boundary(s, q)
    ensures Kept(s, p)[|Kept(s, p)| - 1] <= Kept(s, q)[|Kept(s, q)| - 1]
    ensures Average(Kept(s, p)) <= Average(Kept(s, q))
    ensures Median(Kept(s, p)) <= Median(Kept(s, q))
  {
    BoundaryMonotone(s, p, q);
    KeptGrows(s, p, q);
    PrefixesCompare(s, Kept(s, p), Kept(s, q));
  }

  /** The hundredth percentile keeps the whole timer. */
  lemma HundredthPercentile(s: seq<real>)
    requires Sorted(s) && s != []
    ensures Boundary(s, 100) == s[|s| - 1]
    ensures Kept(s, 100) == s
  {
    assert Percentile(100) == 1.0;
    KeptPrefix(s, 100);
    assert Position(|s|, 100) == (|s| - 1) as real;
  }

  // ---------- The boundary in whole numbers ----------

  lemma Hundredths(t: int, m: int)
    requires 0 <= t <= 100 * m
    ensures t as real / 100.0 == (t / 100) as real + (t % 100) as real / 100.0
    ensures (t as real / 100.0).Floor == t / 100
    ensures 0 <= t / 100 <= m && (t / 100 == m ==> t % 100 == 0)
  {
  }

  lemma ScaledProduct(p: int, m: int)
    ensures p as real / 100.0 * m as real == (p * m) as real / 100.0
  {
    assert p as real * m as real == (p * m) as real;
  }

  lemma PercentOf(p: int, m: nat)
    requires 0 <= p <= 100
    ensures 0 <= p * m <= 100 * m
  {
  }

  /** Where percentile p of n values is, in hundredths. */
  lemma PositionInHundredths(n: nat, p: int, t: int)
    requires n > 0 && 0 <= p <= 100 && t == p * (n - 1)
    ensures Position(n, p) == (t / 100) as real + (t % 100) as real / 100.0
    ensures Position(n, p).Floor == t / 100
    ensures 0 <= t / 100 <= n - 1 && (t / 100 == n - 1 ==> t % 100 == 0)
  {
    ScaledProduct(p, n - 1);
    PercentOf(p, n - 1);
    Hundredths(t, n - 1);
  }

  /** The boundary of percentile p of n values: with p(n-1) = 100k + r, the value at k and r hundredths of
      the way to the next. */
  lemma BoundaryIs(s: seq<real>, p: int, k: nat, r: nat)
    requires s != [] && 0 <= p <= 100
    requires p * (|s| - 1) == 100 * k + r && r < 100
    ensures k < |s|
    ensures k == |s| - 1 ==> Boundary(s, p) == s[k]
    ensures k < |s| - 1 ==> Boundary(s, p) == s[k] + r as real / 100.0 * (s[k + 1] - s[k])
  {
    PositionInHundredths(|s|, p, 100 * k + r);
    assert (100 * k + r) / 100 == k && (100 * k + r) % 100 == r;
    assert Boundary(s, p) == Interpolate(s, Position(|s|, p));
    if k < |s| - 1 {
      InterpolateLinear(s, k, r as real / 100.0);
    } else {
      InterpolateAt(s, k);
    }
  }

  /** Of n different values percentile p keeps the first floor(p(n-1)/100) + 1. */
  lemma KeptCount(s: seq<real>, p: int)
    requires StrictlySorted(s) && s != [] && 0 <= p <= 100
    ensures 100 * (|Kept(s, p)| - 1) <= p * (|s| - 1) < 100 * |Kept(s, p)|
  {
    PositionInHundredths(|s|, p, p * (|s| - 1));
    KeptPrefix(s, p);
  }

  /** Any quantile, not only a percentile: d of the way from the k-th value to the next. */
  lemma QuantileIs(s: seq<real>, k: nat, d: real, q: real)
    requires k + 1 < |s| && 0.0 <= d <= 1.0 && 0.0 <= q <= 1.0 && q * (|s| - 1) as real == k as real + d
    ensures Quantile(s, q) == s[k] + d * (s[k + 1] - s[k])
  {
    InterpolateLinear(s, k, d);
  }

  /** What the middle is: the value with as many before as after it, or the mean of the two in the middle. */
  lemma MedianIs(s: seq<real>, k: nat)
    ensures |s| == 2 * k + 1 ==> Median(s) == s[k]
    ensures |s| == 2 * k + 2 ==> Median(s) == (s[k] + s[k + 1]) / 2.0
    ensures s == [] ==> Median(s) == 0.0
  {
    assert |s| == 2 * k + 1 ==> (|s| - 1) / 2 == k == |s| / 2;
    assert |s| == 2 * k + 2 ==> (|s| - 1) / 2 == k && |s| / 2 == k + 1;
  }
}
