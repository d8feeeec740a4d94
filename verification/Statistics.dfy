/** statsgod/statistics.go: sorting, counting and averaging the values of one metric.
    `real` stands for float64, so every statement here is about exact arithmetic. */
module Statistics {

  // ---------- Sorting ----------

  ghost predicate Sorted(s: seq<real>) {
    forall i, j :: 0 <= i < j < |s| ==> s[i] <= s[j]
  }

  ghost predicate Permutation(a: seq<real>, b: seq<real>) {
    multiset(a) == multiset(b)
  }

  lemma LeastStaysFirst(s: seq<real>, x: real, t: seq<real>)
    requires s != [] && Sorted(s) && s[0] <= x
    requires Sorted(t) && multiset(t) == multiset(s[1..]) + multiset{x}
    ensures Sorted([s[0]] + t)
  {
    forall k | 0 <= k < |t| ensures s[0] <= t[k] {
      assert t[k] in multiset(t);
      if t[k] != x {
        assert t[k] in s[1..];
      }
    }
  }

  function Insert(s: seq<real>, x: real): (r: seq<real>)
    ensures multiset(r) == multiset(s) + multiset{x}
    ensures Sorted(s) ==> Sorted(r)
  {
    if s == [] || x <= s[0] then
      [x] + s
    else
      var t := Insert(s[1..], x);
      assert s == [s[0]] + s[1..];
      assert Sorted(s) ==> Sorted([s[0]] + t) by {
        if Sorted(s) {
          LeastStaysFirst(s, x, t);
        }
      }
      [s[0]] + t
  }

  /** The ascending arrangement of `s`. */
  function Ascending(s: seq<real>): (r: seq<real>)
    ensures Sorted(r)
    ensures multiset(r) == multiset(s)
    ensures |r| == |s|
  {
    if s == [] then []
    else
      assert s == s[..|s| - 1] + [s[|s| - 1]];
      var r := Insert(Ascending(s[..|s| - 1]), s[|s| - 1]);
      assert |r| == |multiset(r)| == |multiset(s)|;
      r
  }

  lemma HeadIsLeast(a: seq<real>, b: seq<real>)
    requires Sorted(a) && Sorted(b) && Permutation(a, b) && a != []
    ensures b != [] && a[0] == b[0]
  {
    assert |a| == |multiset(a)| == |multiset(b)| == |b|;
    assert a[0] in multiset(b);
    assert b[0] in multiset(a);
  }

  /** There is only one way to sort: whatever algorithm `sort.Sort` uses, this is its result. */
  lemma {:induction false} SortedUnique(a: seq<real>, b: seq<real>)
    requires Sorted(a) && Sorted(b) && Permutation(a, b)
    ensures a == b
  {
    if a == [] {
      assert |b| == |multiset(b)| == |multiset(a)| == 0;
    } else {
      HeadIsLeast(a, b);
      assert a == [a[0]] + a[1..] && b == [b[0]] + b[1..];
      assert multiset(a[1..]) == multiset(a) - multiset{a[0]};
      assert multiset(b[1..]) == multiset(b) - multiset{b[0]};
      SortedUnique(a[1..], b[1..]);
    }
  }

  method Swap(a: array<real>, i: nat, j: nat)
    requires i < j < a.Length
    modifies a
    ensures a[..] == old(a[..])[i := old(a[j])][j := old(a[i])]
    ensures multiset(a[..]) == multiset(old(a[..]))
  {
    a[i], a[j] := a[j], a[i];
  }

  /** The first `i + 1` elements are in order, except that the one at `j` may be too small. */
  ghost predicate Sifting(s: seq<real>, i: nat, j: nat) {
    i < |s| && forall p, q :: 0 <= p < q <= i && q != j ==> s[p] <= s[q]
  }

  lemma SiftStep(s: seq<real>, i: nat, j: nat)
    requires Sifting(s, i, j) && 0 < j <= i && s[j] < s[j - 1]
    ensures Sifting(s[j - 1 := s[j]][j := s[j - 1]], i, j - 1)
  {
  }

  /** Moves the element after a sorted front down to its place. */
  method SiftDown(a: array<real>, i: nat)
    requires i < a.Length && Sorted(a[..i])
    modifies a
    ensures multiset(a[..]) == multiset(old(a[..]))
    ensures Sorted(a[..i + 1])
  {
    ghost var was := a[..];
    var j := i;
    while j > 0 && a[j] < a[j - 1]
      invariant 0 <= j <= i
      invariant multiset(a[..]) == multiset(was)
      invariant Sifting(a[..], i, j)
    {
      SiftStep(a[..], i, j);
      Swap(a, j - 1, j);
      j := j - 1;
    }
    SiftEnd(a[..], i, j);
  }

  lemma SiftEnd(s: seq<real>, i: nat, j: nat)
    requires Sifting(s, i, j) && j <= i && (j > 0 ==> s[j - 1] <= s[j])
    ensures Sorted(s[..i + 1])
  {
    forall p | 0 <= p < j ensures s[p] <= s[j] {
      assert p < j - 1 ==> s[p] <= s[j - 1];
    }
  }

  /** `sort.Sort` on a `ValueSlice`, in place: only `Less` and `Swap` touch the slice. */
  method Sort(a: array<real>)
    modifies a
    ensures a[..] == Ascending(old(a[..]))
  {
    ghost var was := a[..];
    for i := 0 to a.Length
      invariant multiset(a[..]) == multiset(was)
      invariant Sorted(a[..i])
    {
      SiftDown(a, i);
    }
    assert a[..a.Length] == a[..];
    SortedUnique(a[..], Ascending(was));
  }

  // ---------- Counting distinct values ----------

  ghost function Distinct(s: seq<real>): set<real> {
    set x | x in s
  }

  lemma DistinctExtend(s: seq<real>, i: nat)
    requires i < |s|
    ensures Distinct(s[..i + 1]) == Distinct(s[..i]) + {s[i]}
  {
    assert s[..i + 1] == s[..i] + [s[i]];
  }

  /** The value counts of a slice are those of its arrangement, so sorting loses no distinct value. */
  lemma DistinctPermutation(a: seq<real>, b: seq<real>)
    requires Permutation(a, b)
    ensures Distinct(a) == Distinct(b)
  {
    forall x ensures x in a <==> x in b {
      assert x in multiset(a) <==> x in multiset(b);
    }
  }

  /** In sorted order a value is new exactly when it differs from its predecessor. */
  lemma DistinctStep(s: seq<real>, i: nat)
    requires Sorted(s) && i < |s|
    ensures |Distinct(s[..i + 1])|
         == |Distinct(s[..i])| + if i == 0 || s[i - 1] != s[i] then 1 else 0
  {
    DistinctExtend(s, i);
    if i > 0 {
      assert s[..i][i - 1] == s[i - 1];
      if s[i - 1] != s[i] {
        assert s[i] !in s[..i];
      }
    }
  }

  method UniqueCount(values: array<real>) returns (count: nat)
    modifies values
    ensures values[..] == Ascending(old(values[..]))
    ensures count == |Distinct(old(values[..]))|
  {
    ghost var was := values[..];
    Sort(values);
    ghost var s := values[..];
    count := 0;
    var p := 0.0;
    for i := 0 to values.Length
      invariant values[..] == s
      invariant i > 0 ==> p == s[i - 1]
      invariant count == |Distinct(s[..i])|
    {
      var v := values[i];
      assert v == s[i];
      DistinctStep(s, i);
      if i > 0 && p != v {
        count := count + 1;
      } else if i == 0 {
        count := count + 1;
      }
      p := v;
    }
    assert s[..values.Length] == s;
    DistinctPermutation(s, was);
  }

  // ---------- Minimum and maximum ----------

  ghost predicate IsLeast(x: real, s: seq<real>) {
    x in s && forall y :: y in s ==> x <= y
  }

  ghost predicate IsGreatest(x: real, s: seq<real>) {
    x in s && forall y :: y in s ==> y <= x
  }

  /** Indexing an empty slice panics, hence the precondition. */
  method Minmax(values: seq<real>) returns (min: real, max: real)
    requires values != []
    ensures IsLeast(min, values) && IsGreatest(max, values)
  {
    min := values[0];
    max := values[0];
    for i := 0 to |values|
      invariant min in values && max in values && min <= max
      invariant forall k :: 0 <= k < i ==> min <= values[k] <= max
    {
      var xi := values[i];
      if xi < min {
        min := xi;
      } else if xi > max {
        max := xi;
      }
    }
  }

  // ---------- Sum and mean ----------

  function Total(s: seq<real>): real {
    if s == [] then 0.0 else Total(s[..|s| - 1]) + s[|s| - 1]
  }

  method Sum(values: seq<real>) returns (sum: real)
    ensures sum == Total(values)
  {
    sum := 0.0;
    for i := 0 to |values|
      invariant sum == Total(values[..i])
    {
      sum := sum + values[i];
      assert values[..i + 1][..i] == values[..i];
    }
    assert values[..|values|] == values;
  }

  lemma {:induction false} TotalAppend(a: seq<real>, b: seq<real>)
    ensures Total(a + b) == Total(a) + Total(b)
  {
    if b == [] {
      assert a + b == a;
    } else {
      TotalAppend(a, b[..|b| - 1]);
      assert (a + b)[..|a + b| - 1] == a + b[..|b| - 1];
    }
  }

  lemma TotalMiddle(a: seq<real>, x: real, b: seq<real>)
    ensures Total(a + [x] + b) == Total(a + b) + x
    ensures multiset(a + [x] + b) == multiset(a + b) + multiset{x}
  {
    TotalAppend(a + [x], b);
    assert (a + [x])[..|a|] == a;
    TotalAppend(a, b);
  }

  lemma {:induction false} TotalPermutation(a: seq<real>, b: seq<real>)
    requires Permutation(a, b)
    ensures Total(a) == Total(b)
    decreases |a|
  {
    if a == [] {
      assert |b| == |multiset(b)| == |multiset(a)| == 0;
    } else {
      var x := a[|a| - 1];
      assert x in multiset(b);
      var i :| 0 <= i < |b| && b[i] == x;
      var rest, p, q := a[..|a| - 1], b[..i], b[i + 1..];
      assert a == rest + [x];
      assert b == p + [x] + q;
      TotalMiddle(p, x, q);
      assert multiset(rest) + multiset{x} == multiset(a);
      assert multiset(rest) == multiset(a) - multiset{x};
      assert multiset(p + q) == multiset(b) - multiset{x};
      TotalPermutation(rest, p + q);
    }
  }

  /** The arithmetic mean, 0 for no values. */
  function Average(s: seq<real>): real {
    if s == [] then 0.0 else Total(s) / |s| as real
  }

  lemma AverageTotal(s: seq<real>)
    ensures Average(s) * |s| as real == Total(s)
  {
  }

  lemma DivideBounds(t: real, n: real, lo: real, hi: real)
    requires n > 0.0 && lo * n <= t <= hi * n
    ensures lo <= t / n <= hi
  {
    var d := t / n;
    assert d * n == t;
    assert (d - lo) * n >= 0.0 && (hi - d) * n >= 0.0;
  }

  lemma MeanStep(mean: real, x: real, n: real)
    requires n >= 0.0
    ensures (mean + (x - mean) / (n + 1.0)) * (n + 1.0) == mean * n + x
  {
    var d := (x - mean) / (n + 1.0);
    assert d * (n + 1.0) == x - mean;
    assert (mean + d) * (n + 1.0) == mean * (n + 1.0) + d * (n + 1.0);
  }

  method Mean(values: seq<real>) returns (mean: real)
    ensures mean == Average(values)
  {
    mean := 0.0;
    for i := 0 to |values|
      invariant mean * i as real == Total(values[..i])
      invariant i == 0 ==> mean == 0.0
    {
      MeanStep(mean, values[i], i as real);
      mean := mean + (values[i] - mean) / (i + 1) as real;
      assert values[..i + 1][..i] == values[..i];
    }
    assert values[..|values|] == values;
    if values != [] {
      DivideBounds(Total(values), |values| as real, mean, mean);
    }
  }

  lemma {:induction false} TotalBetween(s: seq<real>, lo: real, hi: real)
    requires forall y :: y in s ==> lo <= y <= hi
    ensures lo * |s| as real <= Total(s) <= hi * |s| as real
  {
    if s != [] {
      var t := s[..|s| - 1];
      forall y | y in t ensures y in s {}
      TotalBetween(t, lo, hi);
      assert s[|s| - 1] in s;
      assert |s| as real == |t| as real + 1.0;
      OneMoreTimes(lo, |t| as real);
      OneMoreTimes(hi, |t| as real);
    }
  }

  lemma OneMoreTimes(x: real, n: real)
    ensures x * (n + 1.0) == x * n + x
  {
  }

  /** The mean lies between the two results of `Minmax`. */
  lemma AverageBetween(s: seq<real>, lo: real, hi: real)
    requires IsLeast(lo, s) && IsGreatest(hi, s)
    ensures lo <= Average(s) <= hi
  {
    TotalBetween(s, lo, hi);
    DivideBounds(Total(s), |s| as real, lo, hi);
  }

  lemma AveragePermutation(a: seq<real>, b: seq<real>)
    requires Permutation(a, b)
    ensures Average(a) == Average(b)
  {
    TotalPermutation(a, b);
    assert |a| == |multiset(a)| == |multiset(b)| == |b|;
  }
}
