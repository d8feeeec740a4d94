/** Splitting and joining of strings by a one-character separator. */
module Text {
  /** The index of the first `c` in `s`, or `|s|` when there is none. */
  function FirstIndex(s: string, c: char): (k: nat)
    ensures k <= |s|
  {
    if s == [] || s[0] == c then 0 else 1 + FirstIndex(s[1..], c)
  }

  lemma {:induction false} FirstIndexFinds(s: string, c: char)
    ensures var k := FirstIndex(s, c); c !in s[..k] && (k < |s| ==> s[k] == c)
  {
    if s != [] && s[0] != c {
      FirstIndexFinds(s[1..], c);
      var k := FirstIndex(s[1..], c);
      assert s[..k + 1] == [s[0]] + s[1..][..k];
    }
  }

  lemma FirstIndexAt(a: string, c: char, b: string)
    requires c !in a
    ensures FirstIndex(a + [c] + b, c) == |a|
  {
    var s := a + [c] + b;
    if a != [] {
      assert s[1..] == a[1..] + [c] + b;
      FirstIndexAt(a[1..], c, b);
    }
  }

  /** `strings.Split` by a one-character separator. */
  function Split(s: string, sep: char): (r: seq<string>)
    ensures |r| >= 1
  {
    if s == [] then [[]]
    else
      var r := Split(s[1..], sep);
      if s[0] == sep then [[]] + r else [[s[0]] + r[0]] + r[1..]
  }

  lemma {:induction false} PiecesHaveNoSeparator(s: string, sep: char)
    ensures forall p :: p in Split(s, sep) ==> sep !in p
  {
    if s != [] {
      PiecesHaveNoSeparator(s[1..], sep);
    }
  }

  lemma LastPieceHasNoSeparator(s: string, sep: char)
    ensures sep !in Last(Split(s, sep))
  {
    PiecesHaveNoSeparator(s, sep);
  }

  /** `strings.Join` by a one-character separator. */
  function Join(parts: seq<string>, sep: char): string
  {
    if parts == [] then []
    else if |parts| == 1 then parts[0]
    else parts[0] + [sep] + Join(parts[1..], sep)
  }

  lemma JoinCons(part: string, rest: seq<string>, sep: char)
    requires rest != []
    ensures Join([part] + rest, sep) == part + [sep] + Join(rest, sep)
  {
    assert ([part] + rest)[1..] == rest;
  }

  function Concat(parts: seq<string>): string
  {
    if parts == [] then [] else parts[0] + Concat(parts[1..])
  }

  lemma Associative<T>(a: seq<T>, b: seq<T>, c: seq<T>)
    ensures a + (b + c) == (a + b) + c
  {
  }

  function Last<T>(s: seq<T>): T
    requires s != []
  {
    s[|s| - 1]
  }

  function Front<T>(s: seq<T>): seq<T>
    requires s != []
  {
    s[..|s| - 1]
  }

  lemma SplitNoSeparator(s: string, sep: char)
    requires sep !in s
    ensures Split(s, sep) == [s]
  {
    if s != [] {
      SplitNoSeparator(s[1..], sep);
      assert [s[0]] + s[1..] == s;
    }
  }

  /** Two lists of pieces, with the last of the first glued to the first of the second. */
  function Glue(r: seq<string>, q: seq<string>): seq<string>
    requires r != [] && q != []
  {
    Front(r) + [Last(r) + q[0]] + q[1..]
  }

  lemma GlueSkip(p: string, r: seq<string>, q: seq<string>)
    requires r != [] && q != []
    ensures Glue([p] + r, q) == [p] + Glue(r, q)
  {
    assert Front([p] + r) == [p] + Front(r);
  }

  lemma GluePrepend(c: char, r: seq<string>, q: seq<string>)
    requires r != [] && q != []
    ensures Glue([[c] + r[0]] + r[1..], q) == [[c] + Glue(r, q)[0]] + Glue(r, q)[1..]
  {
    if |r| == 1 {
      assert [c] + (r[0] + q[0]) == ([c] + r[0]) + q[0];
      assert r[1..] == [];
    } else {
      GlueSkip(r[0], r[1..], q);
      GlueSkip([c] + r[0], r[1..], q);
      assert [r[0]] + r[1..] == r;
    }
  }

  /** Splitting a concatenation glues the last piece of the left to the first piece of the right. */
  lemma {:induction false} SplitAppend(a: string, b: string, sep: char)
    ensures Split(a + b, sep) == Glue(Split(a, sep), Split(b, sep))
  {
    if a == [] {
      assert a + b == b;
      var q := Split(b, sep);
      assert [] + q[0] == q[0];
      assert Glue([[]], q) == q;
    } else {
      SplitAppend(a[1..], b, sep);
      assert (a + b)[1..] == a[1..] + b;
      if a[0] == sep {
        GlueSkip([], Split(a[1..], sep), Split(b, sep));
      } else {
        GluePrepend(a[0], Split(a[1..], sep), Split(b, sep));
      }
    }
  }

  /** The text after the last separator joins whatever follows: the shape a streaming reader uses. */
  lemma SplitCarry(a: string, b: string, sep: char)
    ensures Split(a + b, sep) == Front(Split(a, sep)) + Split(Last(Split(a, sep)) + b, sep)
  {
    var tail := Last(Split(a, sep));
    LastPieceHasNoSeparator(a, sep);
    SplitNoSeparator(tail, sep);
    SplitAppend(a, b, sep);
    SplitAppend(tail, b, sep);
  }

  /** Pieces without separators are recovered from their join. */
  lemma {:induction false} SplitJoin(parts: seq<string>, sep: char)
    requires parts != []
    requires forall p :: p in parts ==> sep !in p
    ensures Split(Join(parts, sep), sep) == parts
  {
    if |parts| == 1 {
      SplitNoSeparator(parts[0], sep);
    } else {
      SplitJoin(parts[1..], sep);
      var rest := Join(parts[1..], sep);
      SplitNoSeparator(parts[0], sep);
      SplitAppend(parts[0], [sep] + rest, sep);
      assert ([sep] + rest)[1..] == rest;
      assert parts[0] + [sep] + rest == parts[0] + ([sep] + rest);
      assert Split([sep] + rest, sep) == [[]] + parts[1..];
      assert parts[0] + [] == parts[0];
    }
  }

  function Other(x: char, c: char): string {
    if x == c then [] else [x]
  }

  /** Removing the separators from a text is gluing its pieces together. */
  function Without(s: string, c: char): string
  {
    if s == [] then [] else Other(s[0], c) + Without(s[1..], c)
  }

  lemma {:induction false} ConcatSplit(s: string, sep: char)
    ensures Concat(Split(s, sep)) == Without(s, sep)
  {
    if s != [] {
      ConcatSplit(s[1..], sep);
      var r := Split(s[1..], sep);
      if s[0] == sep {
        assert ([[]] + r)[1..] == r;
      } else {
        assert ([[s[0]] + r[0]] + r[1..])[1..] == r[1..];
      }
    }
  }

  lemma {:induction false} ConcatAppend(a: seq<string>, b: seq<string>)
    ensures Concat(a + b) == Concat(a) + Concat(b)
  {
    if a == [] {
      assert a + b == b;
    } else {
      ConcatAppend(a[1..], b);
      assert (a + b)[1..] == a[1..] + b;
      Associative(a[0], Concat(a[1..]), Concat(b));
    }
  }

  lemma {:induction false} WithoutAppend(a: string, b: string, c: char)
    ensures Without(a + b, c) == Without(a, c) + Without(b, c)
  {
    if a == [] {
      assert a + b == b;
    } else {
      WithoutAppend(a[1..], b, c);
      assert (a + b)[1..] == a[1..] + b;
      Associative(Other(a[0], c), Without(a[1..], c), Without(b, c));
    }
  }
}
