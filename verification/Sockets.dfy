/** statsgod/socket.go: turning what a connection delivers back into lines. A read is a chunk of at
    most 512 characters; bytes are treated as characters. */
module Sockets {
  import opened Wrappers
  import opened Text
  import opened Parser

  const READ_LENGTH := 512

  const MINIMUM_LENGTH_MESSAGE := 1

  /** Which texts parse. What is said about cutting holds for any such predicate. */
  type Acceptance = string -> bool

  function AcceptedBy(pf: ParseFloat): Acceptance {
    (s: string) => Parse(pf, s).Success?
  }

  function Kept(fragment: string): seq<string> {
    if |fragment| > MINIMUM_LENGTH_MESSAGE then [fragment] else []
  }

  /** The fragments long enough to be sent to the parser. */
  function Emitted(fragments: seq<string>): seq<string> {
    if fragments == [] then [] else Kept(fragments[0]) + Emitted(fragments[1..])
  }

  /** The tail of a full read is carried over when it does not parse. */
  predicate Carried(accepts: Acceptance, overflow: string, chunk: string) {
    |chunk| == READ_LENGTH && !accepts(Last(Split(overflow + chunk, '\n')))
  }

  /** Everything cut out of a stream of reads, dropped fragments included; the overflow that is still
      pending at the end comes last. */
  function Cut(accepts: Acceptance, overflow: string, chunks: seq<string>): (r: seq<string>)
    ensures r != []
    decreases |chunks|
  {
    if chunks == [] then [overflow]
    else if chunks[0] == [] then Cut(accepts, overflow, chunks[1..])
    else
      var pieces := Split(overflow + chunks[0], '\n');
      if Carried(accepts, overflow, chunks[0]) then Front(pieces) + Cut(accepts, Last(pieces), chunks[1..])
      else pieces + Cut(accepts, [], chunks[1..])
  }

  // ---------- The reading loop ----------

  lemma {:induction false} EmittedAppend(a: seq<string>, b: seq<string>)
    ensures Emitted(a + b) == Emitted(a) + Emitted(b)
  {
    if a == [] {
      assert a + b == b;
    } else {
      EmittedAppend(a[1..], b);
      assert (a + b)[1..] == a[1..] + b;
      Associative(Kept(a[0]), Emitted(a[1..]), Emitted(b));
    }
  }

  /** The messages are the fragments longer than one byte, unchanged and in order. */
  lemma MessagesAreLongFragments(a: seq<string>, fragment: string, b: seq<string>)
    ensures Emitted(a + ([fragment] + b)) == Emitted(a) + ((if |fragment| > 1 then [fragment] else []) + Emitted(b))
    ensures Emitted([]) == []
  {
    EmittedAppend(a, [fragment] + b);
    EmittedFirst(fragment, b);
  }

  lemma EmittedFirst(fragment: string, b: seq<string>)
    ensures Emitted([fragment] + b) == Kept(fragment) + Emitted(b)
  {
    assert ([fragment] + b)[1..] == b;
  }

  /** Fragments that are all longer than one byte are all sent as they are. */
  lemma {:induction false} LongFragmentsStay(fragments: seq<string>)
    requires forall f :: f in fragments ==> |f| > 1
    ensures Emitted(fragments) == fragments
  {
    if fragments != [] {
      LongFragmentsStay(fragments[1..]);
      assert fragments[0] in fragments;
      assert [fragments[0]] + fragments[1..] == fragments;
    }
  }

  lemma EmittedNext(fragments: seq<string>, i: nat)
    requires i < |fragments|
    ensures Emitted(fragments[..i + 1])
         == Emitted(fragments[..i]) + Kept(fragments[i])
  {
    assert fragments[..i + 1] == fragments[..i] + [fragments[i]];
    EmittedAppend(fragments[..i], [fragments[i]]);
  }

  /** Sends the first `count` pieces that are long enough. */
  method Send(pieces: seq<string>, count: nat) returns (sent: seq<string>)
    requires count <= |pieces|
    ensures sent == Emitted(pieces[..count])
  {
    sent := [];
    for i := 0 to count
      invariant sent == Emitted(pieces[..i])
    {
      EmittedNext(pieces, i);
      if |pieces[i]| > MINIMUM_LENGTH_MESSAGE {
        sent := sent + [pieces[i]];
      }
    }
  }

  /** `conn.Read`: fills the front of the buffer with one chunk. */
  method Read(chunk: string, buf: array<char>) returns (length: nat)
    requires |chunk| <= buf.Length
    modifies buf
    ensures length == |chunk| && buf[..length] == chunk
  {
    forall i | 0 <= i < |chunk| {
      buf[i] := chunk[i];
    }
    length := |chunk|;
  }

  /** Only the tail of a full read is tried. */
  method Carries(pf: ParseFloat, tail: string, length: nat) returns (carries: bool)
    ensures carries == (length == READ_LENGTH && !AcceptedBy(pf)(tail))
  {
    carries := false;
    if length == READ_LENGTH {
      var parsed := ParseMetricString(pf, tail);
      carries := parsed.Failure?;
    }
  }

  /** One read's worth of text: its pieces, and whether the last of them is carried over. */
  method Reassemble(pf: ParseFloat, overflow: string, chunk: string)
    returns (metrics: seq<string>, carries: bool)
    ensures metrics == Split(overflow + chunk, '\n')
    ensures carries == Carried(AcceptedBy(pf), overflow, chunk)
  {
    metrics := Split(overflow + chunk, '\n');
    carries := Carries(pf, metrics[|metrics| - 1], |chunk|);
  }

  /** What one chunk adds to the fragments, and the overflow it leaves. */
  ghost function Step(accepts: Acceptance, overflow: string, chunk: string): (seq<string>, string) {
    var pieces := Split(overflow + chunk, '\n');
    if chunk == [] then ([], overflow)
    else if Carried(accepts, overflow, chunk) then (Front(pieces), Last(pieces))
    else (pieces, [])
  }

  lemma CutStep(accepts: Acceptance, overflow: string, chunks: seq<string>, i: nat,
                cut: seq<string>, all: seq<string>)
    requires i < |chunks|
    requires all == cut + Cut(accepts, overflow, chunks[i..])
    ensures var (pieces, carried) := Step(accepts, overflow, chunks[i]);
      all == (cut + pieces) + Cut(accepts, carried, chunks[i + 1..])
  {
    assert chunks[i..][1..] == chunks[i + 1..];
    assert cut + [] == cut;
  }

  lemma CutEnd(accepts: Acceptance, overflow: string, chunks: seq<string>,
               cut: seq<string>, all: seq<string>)
    requires all == cut + Cut(accepts, overflow, chunks[|chunks|..])
    ensures all != [] && Last(all) == overflow && Front(all) == cut
  {
    assert Cut(accepts, overflow, chunks[|chunks|..]) == [overflow];
  }

  /** One turn of the loop: read into the buffer, cut, send, and zero the buffer. */
  method ReadOnce(pf: ParseFloat, chunk: string, buf: array<char>, overflow: string)
    returns (messages: seq<string>, carried: string)
    requires |chunk| <= buf.Length
    modifies buf
    ensures messages == Emitted(Step(AcceptedBy(pf), overflow, chunk).0)
    ensures carried == Step(AcceptedBy(pf), overflow, chunk).1
  {
    messages, carried := [], overflow;
    var length := Read(chunk, buf);
    if length > 0 {
      var metrics, carries := Reassemble(pf, overflow, buf[..length]);
      var metricCount := |metrics|;
      carried := [];
      if carries {
        carried := metrics[|metrics| - 1];
        metricCount := |metrics| - 1;
      }
      messages := Send(metrics, metricCount);
      assert metrics[..|metrics|] == metrics;
    }
    forall b | 0 <= b < buf.Length {
      buf[b] := '\0';
    }
  }

  /** Some chunks have been read: what was sent of them, and what the rest will add. */
  ghost predicate ReadSoFar(accepts: Acceptance, chunks: seq<string>, i: nat, overflow: string,
                            cut: seq<string>, sent: seq<string>)
  {
    && i <= |chunks| && sent == Emitted(cut)
    && Cut(accepts, [], chunks) == cut + Cut(accepts, overflow, chunks[i..])
  }

  lemma ReadNext(accepts: Acceptance, chunks: seq<string>, i: nat, overflow: string,
                 cut: seq<string>, sent: seq<string>)
    requires i < |chunks| && ReadSoFar(accepts, chunks, i, overflow, cut, sent)
    ensures var (pieces, carried) := Step(accepts, overflow, chunks[i]);
      ReadSoFar(accepts, chunks, i + 1, carried, cut + pieces, sent + Emitted(pieces))
  {
    CutStep(accepts, overflow, chunks, i, cut, Cut(accepts, [], chunks));
    EmittedAppend(cut, Step(accepts, overflow, chunks[i]).0);
  }

  /** Reads until the connection ends, through one reused buffer. */
  method ReadInput(pf: ParseFloat, chunks: seq<string>) returns (sent: seq<string>, overflow: string)
    requires forall c :: c in chunks ==> |c| <= READ_LENGTH
    ensures sent == Emitted(Front(Cut(AcceptedBy(pf), [], chunks)))
    ensures overflow == Last(Cut(AcceptedBy(pf), [], chunks))
  {
    var buf := new char[READ_LENGTH];
    sent, overflow := [], [];
    ghost var accepts := AcceptedBy(pf);
    ghost var cut: seq<string> := [];
    assert chunks[0..] == chunks;
    for i := 0 to |chunks|
      invariant ReadSoFar(accepts, chunks, i, overflow, cut, sent)
    {
      ReadNext(accepts, chunks, i, overflow, cut, sent);
      cut := cut + Step(accepts, overflow, chunks[i]).0;
      var messages;
      messages, overflow := ReadOnce(pf, chunks[i], buf, overflow);
      sent := sent + messages;
    }
    CutEnd(accepts, overflow, chunks, cut, Cut(accepts, [], chunks));
  }

  // ---------- Nothing is lost: bytes ----------

  /** Every byte read is in a fragment or in the pending overflow, in order; only newlines are gone. */
  lemma {:induction false} BytesConserved(accepts: Acceptance, overflow: string, chunks: seq<string>)
    requires '\n' !in overflow
    ensures Concat(Cut(accepts, overflow, chunks)) == overflow + Without(Concat(chunks), '\n')
    decreases |chunks|
  {
    if chunks == [] {
    } else if chunks[0] == [] {
      assert Concat(chunks) == Concat(chunks[1..]);
      BytesConserved(accepts, overflow, chunks[1..]);
    } else {
      var pieces := Split(overflow + chunks[0], '\n');
      var rest := Without(Concat(chunks[1..]), '\n');
      BytesOfPieces(overflow, chunks[0]);
      BytesOfRest(overflow, chunks, pieces);
      if Carried(accepts, overflow, chunks[0]) {
        BytesConserved(accepts, Last(pieces), chunks[1..]);
        BytesCarried(pieces, Cut(accepts, Last(pieces), chunks[1..]), rest);
      } else {
        BytesConserved(accepts, [], chunks[1..]);
        ConcatAppend(pieces, Cut(accepts, [], chunks[1..]));
        assert [] + rest == rest;
      }
    }
  }

  lemma BytesCarried(pieces: seq<string>, cut: seq<string>, rest: string)
    requires pieces != [] && Concat(cut) == Last(pieces) + rest
    ensures Concat(Front(pieces) + cut) == Concat(pieces) + rest
  {
    ConcatFront(pieces);
    ConcatAppend(Front(pieces), cut);
    Associative(Concat(Front(pieces)), Last(pieces), rest);
  }

  lemma BytesOfRest(overflow: string, chunks: seq<string>, pieces: seq<string>)
    requires chunks != [] && Concat(pieces) == overflow + Without(chunks[0], '\n')
    ensures Concat(pieces) + Without(Concat(chunks[1..]), '\n') == overflow + Without(Concat(chunks), '\n')
  {
    WithoutAppend(chunks[0], Concat(chunks[1..]), '\n');
    Associative(overflow, Without(chunks[0], '\n'), Without(Concat(chunks[1..]), '\n'));
  }

  lemma BytesOfPieces(overflow: string, chunk: string)
    requires '\n' !in overflow
    ensures var pieces := Split(overflow + chunk, '\n');
      && Concat(pieces) == overflow + Without(chunk, '\n')
      && Concat(Front(pieces)) + Last(pieces) == Concat(pieces)
      && '\n' !in Last(pieces)
  {
    LastPieceHasNoSeparator(overflow + chunk, '\n');
    ConcatSplit(overflow + chunk, '\n');
    WithoutAppend(overflow, chunk, '\n');
    WithoutNothing(overflow, '\n');
    ConcatFront(Split(overflow + chunk, '\n'));
  }

  lemma ConcatFront(pieces: seq<string>)
    requires pieces != []
    ensures Concat(Front(pieces)) + Last(pieces) == Concat(pieces)
  {
    assert pieces == Front(pieces) + [Last(pieces)];
    ConcatAppend(Front(pieces), [Last(pieces)]);
    assert Concat([Last(pieces)]) == Last(pieces);
  }

  lemma WithoutNothing(s: string, c: char)
    requires c !in s
    ensures Without(s, c) == s
  {
  }

  /** A fragment that is not sent is one the parser would have rejected. */
  lemma DroppedIsRejected(pf: ParseFloat, fragment: string)
    requires |fragment| <= MINIMUM_LENGTH_MESSAGE
    ensures !AcceptedBy(pf)(fragment)
  {
    if AcceptedBy(pf)(fragment) {
      AcceptedKey(pf, fragment);
    }
  }

  // ---------- Nothing is lost: lines ----------

  /** Every cut that is not carried over is at a line boundary: the tail is empty, or the stream ends
      there, or the next byte is a newline. */
  predicate CleanCuts(accepts: Acceptance, overflow: string, chunks: seq<string>)
    decreases |chunks|
  {
    if chunks == [] then true
    else if chunks[0] == [] then CleanCuts(accepts, overflow, chunks[1..])
    else
      var tail := Last(Split(overflow + chunks[0], '\n'));
      if Carried(accepts, overflow, chunks[0]) then CleanCuts(accepts, tail, chunks[1..])
      else
        && (tail == [] || AtLineStart(Concat(chunks[1..])))
        && CleanCuts(accepts, [], chunks[1..])
  }

  predicate AtLineStart(rest: string) {
    rest == [] || rest[0] == '\n'
  }

  /** A measure that only the emitted fragments have and that every real cut inside a line lowers. */
  function Weight(fragments: seq<string>): int {
    if fragments == [] then 0 else WeightOf(|fragments[0]|) + Weight(fragments[1..])
  }

  function WeightOf(n: nat): int {
    if n > MINIMUM_LENGTH_MESSAGE then 2 * n - 1 else 0
  }

  lemma {:induction false} WeightAppend(a: seq<string>, b: seq<string>)
    ensures Weight(a + b) == Weight(a) + Weight(b)
  {
    if a == [] {
      assert a + b == b;
    } else {
      WeightAppend(a[1..], b);
      assert (a + b)[1..] == a[1..] + b;
    }
  }

  lemma {:induction false} WeightEmitted(a: seq<string>)
    ensures Weight(Emitted(a)) == Weight(a)
  {
    if a != [] {
      WeightEmitted(a[1..]);
      if |a[0]| > MINIMUM_LENGTH_MESSAGE {
        assert ([a[0]] + Emitted(a[1..]))[1..] == Emitted(a[1..]);
      } else {
        assert [] + Emitted(a[1..]) == Emitted(a[1..]);
      }
    }
  }

  /** Cutting between a tail and what follows it costs weight, unless one of them is empty. */
  lemma CutWeight(tail: string, rest: string)
    requires '\n' !in tail
    ensures Weight([tail]) + Weight(Split(rest, '\n')) <= Weight(Split(tail + rest, '\n'))
    ensures tail != [] && !AtLineStart(rest) ==>
              Weight([tail]) + Weight(Split(rest, '\n')) < Weight(Split(tail + rest, '\n'))
  {
    SplitNoSeparator(tail, '\n');
    SplitAppend(tail, rest, '\n');
  }

  /** The lines of a stream, seen from a chunk on. */
  lemma LinesNext(overflow: string, chunks: seq<string>)
    requires chunks != []
    ensures var pieces := Split(overflow + chunks[0], '\n');
      Split(overflow + Concat(chunks), '\n')
      == Front(pieces) + Split(Last(pieces) + Concat(chunks[1..]), '\n')
  {
    var rest := Concat(chunks[1..]);
    assert overflow + (chunks[0] + rest) == (overflow + chunks[0]) + rest;
    SplitCarry(overflow + chunks[0], rest, '\n');
  }

  lemma {:induction false} WeightBound(accepts: Acceptance, overflow: string, chunks: seq<string>)
    requires '\n' !in overflow
    ensures Weight(Cut(accepts, overflow, chunks)) <= Weight(Split(overflow + Concat(chunks), '\n'))
    ensures !CleanCuts(accepts, overflow, chunks) ==>
              Weight(Cut(accepts, overflow, chunks)) < Weight(Split(overflow + Concat(chunks), '\n'))
    decreases |chunks|
  {
    if chunks == [] {
      SplitNoSeparator(overflow, '\n');
      assert overflow + [] == overflow;
    } else if chunks[0] == [] {
      assert Concat(chunks) == Concat(chunks[1..]);
      WeightBound(accepts, overflow, chunks[1..]);
    } else {
      var pieces := Split(overflow + chunks[0], '\n');
      var tail := Last(pieces);
      LastPieceHasNoSeparator(overflow + chunks[0], '\n');
      LinesNext(overflow, chunks);
      if Carried(accepts, overflow, chunks[0]) {
        WeightBound(accepts, tail, chunks[1..]);
        WeightAppend(Front(pieces), Cut(accepts, tail, chunks[1..]));
        WeightAppend(Front(pieces), Split(tail + Concat(chunks[1..]), '\n'));
      } else {
        WeightBound(accepts, [], chunks[1..]);
        WeightAtCut(pieces, Cut(accepts, [], chunks[1..]), Concat(chunks[1..]));
      }
    }
  }

  lemma WeightAtCut(pieces: seq<string>, cut: seq<string>, rest: string)
    requires pieces != [] && '\n' !in Last(pieces) && Weight(cut) <= Weight(Split([] + rest, '\n'))
    ensures Weight(pieces + cut) <= Weight(Front(pieces) + Split(Last(pieces) + rest, '\n'))
    ensures Weight(cut) < Weight(Split([] + rest, '\n')) || (Last(pieces) != [] && !AtLineStart(rest)) ==>
              Weight(pieces + cut) < Weight(Front(pieces) + Split(Last(pieces) + rest, '\n'))
  {
    var tail := Last(pieces);
    assert [] + rest == rest;
    CutWeight(tail, rest);
    WeightAppend(pieces, cut);
    assert pieces == Front(pieces) + [tail];
    WeightAppend(Front(pieces), [tail]);
    WeightAppend(Front(pieces), Split(tail + rest, '\n'));
  }

  /** A clean cut changes no line that is long enough to be sent. */
  lemma CleanCutEmits(tail: string, rest: string)
    requires '\n' !in tail && (tail == [] || AtLineStart(rest))
    ensures Emitted(Split(tail + rest, '\n')) == Emitted([tail]) + Emitted(Split(rest, '\n'))
  {
    var lines := Split(rest, '\n');
    SplitNoSeparator(tail, '\n');
    SplitAppend(tail, rest, '\n');
    assert Glue([tail], lines) == [tail + lines[0]] + lines[1..];
    if tail == [] {
      assert tail + lines[0] == lines[0];
      assert [lines[0]] + lines[1..] == lines;
    } else {
      assert lines[0] == [];
      assert tail + [] == tail;
    }
  }

  /** Clean cuts lose nothing. */
  lemma {:induction false} CleanCutsLossless(accepts: Acceptance, overflow: string, chunks: seq<string>)
    requires '\n' !in overflow && CleanCuts(accepts, overflow, chunks)
    ensures Emitted(Cut(accepts, overflow, chunks)) == Emitted(Split(overflow + Concat(chunks), '\n'))
    decreases |chunks|
  {
    if chunks == [] {
      SplitNoSeparator(overflow, '\n');
      assert overflow + [] == overflow;
    } else if chunks[0] == [] {
      assert Concat(chunks) == Concat(chunks[1..]);
      CleanCutsLossless(accepts, overflow, chunks[1..]);
    } else {
      var pieces := Split(overflow + chunks[0], '\n');
      var tail := Last(pieces);
      LastPieceHasNoSeparator(overflow + chunks[0], '\n');
      LinesNext(overflow, chunks);
      EmittedAppend(Front(pieces), Split(tail + Concat(chunks[1..]), '\n'));
      if Carried(accepts, overflow, chunks[0]) {
        CleanCutsLossless(accepts, tail, chunks[1..]);
        EmittedAppend(Front(pieces), Cut(accepts, tail, chunks[1..]));
      } else {
        CleanCutsLossless(accepts, [], chunks[1..]);
        LosslessAtCut(pieces, Cut(accepts, [], chunks[1..]), Concat(chunks[1..]));
      }
    }
  }

  lemma LosslessAtCut(pieces: seq<string>, cut: seq<string>, rest: string)
    requires pieces != [] && '\n' !in Last(pieces) && (Last(pieces) == [] || AtLineStart(rest))
    requires Emitted(cut) == Emitted(Split([] + rest, '\n'))
    ensures Emitted(pieces + cut) == Emitted(Front(pieces)) + Emitted(Split(Last(pieces) + rest, '\n'))
  {
    var tail := Last(pieces);
    assert [] + rest == rest;
    assert pieces == Front(pieces) + [tail];
    EmittedAppend(pieces, cut);
    EmittedAppend(Front(pieces), [tail]);
    CleanCutEmits(tail, rest);
    Associative(Emitted(Front(pieces)), Emitted([tail]), Emitted(cut));
  }

  /** The messages sent, and then the overflow still pending, are exactly the lines longer than one
      byte of the whole stream, in order, if and only if every cut is clean. */
  lemma LosslessIffCleanCuts(accepts: Acceptance, overflow: string, chunks: seq<string>)
    requires '\n' !in overflow
    ensures Emitted(Cut(accepts, overflow, chunks)) == Emitted(Split(overflow + Concat(chunks), '\n'))
       <==> CleanCuts(accepts, overflow, chunks)
  {
    WeightBound(accepts, overflow, chunks);
    WeightEmitted(Cut(accepts, overflow, chunks));
    WeightEmitted(Split(overflow + Concat(chunks), '\n'));
    if CleanCuts(accepts, overflow, chunks) {
      CleanCutsLossless(accepts, overflow, chunks);
    }
  }

  // ---------- A whole connection: what of the stream and its reads decides ----------

  /** The text after the last newline. */
  function Unfinished(s: string): (r: string)
    ensures '\n' !in r
  {
    if s == [] || Last(s) == '\n' then [] else Unfinished(Front(s)) + [Last(s)]
  }

  /** The unfinished line up to and including a read, when that read ends. */
  function UnfinishedAt(chunks: seq<string>, i: nat): string
    requires i < |chunks|
  {
    Unfinished(Concat(chunks[..i + 1]))
  }

  /** A read that fills its buffer and ends in an unfinished line that does not parse. */
  predicate FullRead(accepts: Acceptance, chunks: seq<string>, i: nat)
    requires i < |chunks|
  {
    |chunks[i]| == READ_LENGTH && !accepts(UnfinishedAt(chunks, i))
  }

  /** A read may end anywhere if it is full and its unfinished line does not parse; otherwise it has to
      end with a line. */
  predicate GoodBoundary(accepts: Acceptance, chunks: seq<string>, i: nat)
    requires i < |chunks|
  {
    || chunks[i] == []
    || UnfinishedAt(chunks, i) == []
    || AtLineStart(Concat(chunks[i + 1..]))
    || FullRead(accepts, chunks, i)
  }

  ghost predicate GoodReads(accepts: Acceptance, chunks: seq<string>) {
    forall i :: 0 <= i < |chunks| ==> GoodBoundary(accepts, chunks, i)
  }

  /** The unfinished line that waits for more when the connection ends: none, unless the last read that
      brought anything was full and the line does not parse. */
  function Pending(accepts: Acceptance, chunks: seq<string>): string
    decreases |chunks|
  {
    if chunks == [] then []
    else if Last(chunks) == [] then Pending(accepts, Front(chunks))
    else if FullRead(accepts, chunks, |chunks| - 1) then UnfinishedAt(chunks, |chunks| - 1)
    else []
  }

  lemma {:induction false} UnfinishedIsLastPiece(s: string)
    ensures Unfinished(s) == Last(Split(s, '\n'))
  {
    if s != [] {
      var c := Last(s);
      UnfinishedIsLastPiece(Front(s));
      assert s == Front(s) + [c];
      SplitCarry(Front(s), [c], '\n');
      var t := Unfinished(Front(s));
      if c == '\n' {
        SplitAppend(t, [c], '\n');
        SplitNoSeparator(t, '\n');
      } else {
        SplitNoSeparator(t + [c], '\n');
      }
    }
  }

  /** Only the unfinished line matters for what comes next. */
  lemma OnlyUnfinishedMatters(a: string, b: string)
    ensures Unfinished(Unfinished(a) + b) == Unfinished(a + b)
  {
    UnfinishedIsLastPiece(a);
    UnfinishedIsLastPiece(a + b);
    UnfinishedIsLastPiece(Unfinished(a) + b);
    SplitCarry(a, b, '\n');
  }

  /** What follows a newline does not depend on the line before it. */
  lemma UnfinishedAfterNewline(a: string, b: string)
    requires b != [] && b[0] == '\n'
    ensures Unfinished(a + b) == Unfinished(b)
  {
    UnfinishedIsLastPiece(a + b);
    UnfinishedIsLastPiece(b);
    SplitAppend(a, b, '\n');
  }

  /** The overflow after `i` reads is what is pending, and nothing of an unfinished line is missing. */
  ghost predicate InStep(accepts: Acceptance, chunks: seq<string>, i: nat, overflow: string) {
    && i <= |chunks| && overflow == Pending(accepts, chunks[..i])
    && (overflow == Unfinished(Concat(chunks[..i])) || (overflow == [] && AtLineStart(Concat(chunks[i..]))))
  }

  lemma PrefixNext(chunks: seq<string>, i: nat)
    requires i < |chunks|
    ensures chunks[..i + 1][..i] == chunks[..i] && chunks[i..][1..] == chunks[i + 1..]
    ensures Concat(chunks[..i + 1]) == Concat(chunks[..i]) + chunks[i]
    ensures Concat(chunks[i..]) == chunks[i] + Concat(chunks[i + 1..])
  {
    assert chunks[..i + 1] == chunks[..i] + [chunks[i]];
    ConcatAppend(chunks[..i], [chunks[i]]);
    assert Concat([chunks[i]]) == chunks[i] + [];
  }

  /** Whichever way it is in step, the loop sees the stream's unfinished line. */
  lemma SameUnfinished(accepts: Acceptance, chunks: seq<string>, i: nat, overflow: string)
    requires i < |chunks| && InStep(accepts, chunks, i, overflow) && chunks[i] != []
    ensures Last(Split(overflow + chunks[i], '\n')) == UnfinishedAt(chunks, i)
  {
    PrefixNext(chunks, i);
    UnfinishedIsLastPiece(overflow + chunks[i]);
    var before := Concat(chunks[..i]);
    if overflow == Unfinished(before) {
      OnlyUnfinishedMatters(before, chunks[i]);
    } else {
      assert Concat(chunks[i..])[0] == chunks[i][0];
      assert [] + chunks[i] == chunks[i];
      UnfinishedAfterNewline(before, chunks[i]);
    }
  }

  lemma PendingNext(accepts: Acceptance, chunks: seq<string>, i: nat)
    requires i < |chunks|
    ensures Pending(accepts, chunks[..i + 1])
         == if chunks[i] == [] then Pending(accepts, chunks[..i])
            else if FullRead(accepts, chunks, i) then UnfinishedAt(chunks, i)
            else []
  {
    var c := chunks[..i + 1];
    assert Front(c) == chunks[..i] && Last(c) == chunks[i] && c[..i + 1] == c;
  }

  lemma EmptyReadKeepsStep(accepts: Acceptance, chunks: seq<string>, i: nat, overflow: string)
    requires i < |chunks| && InStep(accepts, chunks, i, overflow) && chunks[i] == []
    ensures InStep(accepts, chunks, i + 1, overflow)
  {
    PrefixNext(chunks, i);
    PendingNext(accepts, chunks, i);
    assert [] + Concat(chunks[i + 1..]) == Concat(chunks[i + 1..]);
    assert Concat(chunks[..i]) + [] == Concat(chunks[..i]);
  }

  ghost predicate GoodFrom(accepts: Acceptance, chunks: seq<string>, i: nat) {
    forall j :: i <= j < |chunks| ==> GoodBoundary(accepts, chunks, j)
  }

  lemma GoodNext(accepts: Acceptance, chunks: seq<string>, i: nat)
    requires i < |chunks|
    ensures GoodFrom(accepts, chunks, i) <==> GoodBoundary(accepts, chunks, i) && GoodFrom(accepts, chunks, i + 1)
  {
  }

  /** One turn of the recursion on a read that brings something. */
  lemma CleanCutsNext(accepts: Acceptance, overflow: string, chunks: seq<string>)
    requires chunks != [] && chunks[0] != []
    ensures var tail := Last(Split(overflow + chunks[0], '\n'));
      && (Carried(accepts, overflow, chunks[0]) ==>
            && (CleanCuts(accepts, overflow, chunks) <==> CleanCuts(accepts, tail, chunks[1..]))
            && Last(Cut(accepts, overflow, chunks)) == Last(Cut(accepts, tail, chunks[1..])))
      && (!Carried(accepts, overflow, chunks[0]) ==>
            && (CleanCuts(accepts, overflow, chunks)
                <==> (tail == [] || AtLineStart(Concat(chunks[1..]))) && CleanCuts(accepts, [], chunks[1..]))
            && Last(Cut(accepts, overflow, chunks)) == Last(Cut(accepts, [], chunks[1..])))
  {
  }

  /** The overflow that a read leaves, unless it cuts a line. */
  lemma StaysInStep(accepts: Acceptance, chunks: seq<string>, i: nat, overflow: string, next: string)
    requires i < |chunks| && InStep(accepts, chunks, i, overflow) && chunks[i] != []
    requires next == if Carried(accepts, overflow, chunks[i]) then UnfinishedAt(chunks, i) else []
    ensures Carried(accepts, overflow, chunks[i]) <==> FullRead(accepts, chunks, i)
    ensures GoodBoundary(accepts, chunks, i) ==> InStep(accepts, chunks, i + 1, next)
  {
    PrefixNext(chunks, i);
    SameUnfinished(accepts, chunks, i, overflow);
    PendingNext(accepts, chunks, i);
  }

  /** The rest of the cuts are clean exactly when the rest of the reads end well, and then what is left
      at the end is what is pending. */
  lemma {:induction false} CleanFrom(accepts: Acceptance, chunks: seq<string>, i: nat, overflow: string)
    requires InStep(accepts, chunks, i, overflow)
    ensures CleanCuts(accepts, overflow, chunks[i..]) <==> GoodFrom(accepts, chunks, i)
    ensures GoodFrom(accepts, chunks, i) ==>
              Last(Cut(accepts, overflow, chunks[i..])) == Pending(accepts, chunks)
    decreases |chunks| - i
  {
    if i == |chunks| {
      assert chunks[..i] == chunks;
    } else {
      PrefixNext(chunks, i);
      GoodNext(accepts, chunks, i);
      if chunks[i] == [] {
        EmptyReadKeepsStep(accepts, chunks, i, overflow);
        CleanFrom(accepts, chunks, i + 1, overflow);
      } else {
        CleanCutsNext(accepts, overflow, chunks[i..]);
        SameUnfinished(accepts, chunks, i, overflow);
        var next := if Carried(accepts, overflow, chunks[i]) then UnfinishedAt(chunks, i) else [];
        StaysInStep(accepts, chunks, i, overflow, next);
        if GoodBoundary(accepts, chunks, i) {
          CleanFrom(accepts, chunks, i + 1, next);
        }
      }
    }
  }

  /** Clean cuts, told from the stream and where its reads end. */
  lemma CleanCutsIffGoodReads(accepts: Acceptance, chunks: seq<string>)
    ensures CleanCuts(accepts, [], chunks) <==> GoodReads(accepts, chunks)
    ensures GoodReads(accepts, chunks) ==> Last(Cut(accepts, [], chunks)) == Pending(accepts, chunks)
  {
    assert chunks[0..] == chunks && chunks[..0] == [];
    CleanFrom(accepts, chunks, 0, []);
  }

  /** What is left of the overflow decides whether the messages before it are all. */
  lemma SentIffNothingPending(cut: seq<string>, lines: seq<string>)
    requires cut != [] && Weight(cut) <= Weight(lines)
    ensures Emitted(Front(cut)) == Emitted(lines)
       <==> Emitted(cut) == Emitted(lines) && |Last(cut)| <= MINIMUM_LENGTH_MESSAGE
  {
    assert cut == Front(cut) + [Last(cut)];
    EmittedAppend(Front(cut), [Last(cut)]);
    WeightAppend(Front(cut), [Last(cut)]);
    WeightEmitted(Front(cut));
    WeightEmitted(lines);
    assert Emitted([Last(cut)]) == Kept(Last(cut)) + [];
  }

  /** For a whole connection: the messages `ReadInput` sends are the lines of the stream longer than one
      byte exactly when every read that brings anything ends with a line, or is full with an unfinished
      line that does not parse, and when no such line of more than one byte is pending at the end of the
      connection, for what is pending then is never sent. */
  lemma ConnectionLossless(accepts: Acceptance, chunks: seq<string>)
    ensures Emitted(Front(Cut(accepts, [], chunks))) == Emitted(Split(Concat(chunks), '\n'))
       <==> GoodReads(accepts, chunks) && |Pending(accepts, chunks)| <= MINIMUM_LENGTH_MESSAGE
  {
    assert [] + Concat(chunks) == Concat(chunks);
    LosslessIffCleanCuts(accepts, [], chunks);
    WeightBound(accepts, [], chunks);
    SentIffNothingPending(Cut(accepts, [], chunks), Split(Concat(chunks), '\n'));
    CleanCutsIffGoodReads(accepts, chunks);
  }

  /** A line that arrives in two short reads is not put together again. */
  lemma ShortReadCutsALine(accepts: Acceptance)
    ensures var chunks := ["a:1", "|g\n"];
      Emitted(Cut(accepts, [], chunks)) != Emitted(Split(Concat(chunks), '\n'))
  {
    var chunks: seq<string> := ["a:1", "|g\n"];
    SplitNoSeparator("a:1", '\n');
    assert [] + chunks[0] == "a:1";
    assert Concat(chunks[1..])[0] == '|';
    LosslessIffCleanCuts(accepts, [], chunks);
    assert [] + Concat(chunks) == Concat(chunks);
  }

  // ---------- Datagrams ----------

  lemma {:induction false} ShortTextEmitsNothing(pieces: seq<string>)
    requires forall p :: p in pieces ==> |p| <= MINIMUM_LENGTH_MESSAGE
    ensures Emitted(pieces) == []
  {
    if pieces != [] {
      assert pieces[0] in pieces;
      ShortTextEmitsNothing(pieces[1..]);
    }
  }

  lemma {:induction false} PieceFits(s: string, sep: char)
    ensures forall p :: p in Split(s, sep) ==> |p| <= |s|
  {
    if s != [] {
      PieceFits(s[1..], sep);
    }
  }

  /** A datagram is split once: the lines of the packet longer than one byte are sent, a packet of at
      most one byte and a failed read send nothing. */
  method ReadInputUdp(packet: Option<string>) returns (sent: seq<string>)
    ensures packet.Some? ==> sent == Emitted(Split(packet.value, '\n'))
    ensures packet.None? ==> sent == []
  {
    sent := [];
    if packet.Some? && |packet.value| > MINIMUM_LENGTH_MESSAGE {
      var metrics := Split(packet.value, '\n');
      sent := Send(metrics, |metrics|);
      assert metrics[..|metrics|] == metrics;
    } else if packet.Some? {
      PieceFits(packet.value, '\n');
      ShortTextEmitsNothing(Split(packet.value, '\n'));
    }
  }
}
