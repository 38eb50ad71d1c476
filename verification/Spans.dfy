/** Which code spans `blank_code_spans` finds, told from the whole runs of backticks alone. */
module Spans {
  import opened CodeSpans

  /** A span: its opening run `[open, text)`, and its closing run `[close, end)`. */
  datatype Span = Span(open: nat, text: nat, close: nat, end: nat)

  /** No whole run of `width` backticks lies in `[from, to)`. */
  ghost predicate NoRunBetween(s: string, from: int, to: int, width: int) {
    forall a, b :: from <= a && b <= to && IsRun(s, a, b) ==> b - a != width
  }

  /** Two whole runs of one width, and none of that width between them. */
  ghost predicate IsSpan(s: string, p: Span) {
    IsRun(s, p.open, p.text) && IsRun(s, p.close, p.end) && p.text <= p.close
    && p.end - p.close == p.text - p.open && NoRunBetween(s, p.text, p.close, p.text - p.open)
  }

  predicate Covered(ps: seq<Span>, k: int) { exists j | 0 <= j < |ps| :: ps[j].open <= k < ps[j].end }

  predicate Apart(ps: seq<Span>) { forall i, j | 0 <= i < j < |ps| :: ps[i].end <= ps[j].open }

  /**
   * The spans of a text from offset `i` on, from left to right: a run that no span covers is one that no
   * later run of its width could close.
   */
  ghost predicate SpansOf(s: string, ps: seq<Span>, i: int) {
    Apart(ps)
    && (forall j | 0 <= j < |ps| :: IsSpan(s, ps[j]) && i <= ps[j].open)
    && forall a, b :: i <= a && IsRun(s, a, b) && !Covered(ps, a) ==> NoRunFrom(s, b, b - a)
  }

  /** `out` is the text from `i` on with the spans blanked, newlines excepted, and nothing else changed. */
  predicate Painted(s: string, ps: seq<Span>, i: nat, out: string) {
    i <= |s| && |out| == |s| - i
    && forall k | i <= k < |s| :: out[k - i] == if Covered(ps, k) && s[k] != '\n' then ' ' else s[k]
  }

  // ---- The scan finds them ----------------------------------------------------------------------

  lemma {:induction false} CloserIsFirst(s: string, k: nat, width: nat)
    requires k <= |s| && Boundary(s, k) && Closer(s, k, width).Some?
    ensures NoRunBetween(s, k, Closer(s, k, width).value - width, width)
    decreases |s| - k
  {
    if s[k] != '`' {
      CloserIsFirst(s, k + 1, width);
      forall a, b | k <= a && b <= Closer(s, k, width).value - width && IsRun(s, a, b) ensures b - a != width {
        assert a != k;
      }
    } else {
      var e := RunEnd(s, k);
      assert IsRun(s, k, e);
      if e - k != width {
        CloserIsFirst(s, e, width);
        forall a, b | k <= a && b <= Closer(s, k, width).value - width && IsRun(s, a, b) ensures b - a != width {
          if a < e { RunsCoincide(s, k, e, a, b); }
        }
      }
    }
  }

  /** The spans the scan makes from `i` on. */
  function Scanned(s: string, i: nat): seq<Span>
    requires i <= |s|
    decreases |s| - i
  {
    if i == |s| then []
    else
      var (next, span) := Next(s, i);
      (if span && next >= RunEnd(s, i) - i then [Span(i, RunEnd(s, i), next - (RunEnd(s, i) - i), next)] else [])
      + Scanned(s, next)
  }

  lemma SpanAt(s: string, i: nat)
    requires i < |s| && Boundary(s, i) && Next(s, i).1
    ensures var next, e := Next(s, i).0, RunEnd(s, i);
            s[i] == '`' && next >= e - i && IsSpan(s, Span(i, e, next - (e - i), next))
  {
    hide IsRun, Boundary, Closer, RunEnd, NoRunBetween;
    var e := RunEnd(s, i);
    OpeningRun(s, i);
    CloserFindsRun(s, e, e - i);
    CloserIsFirst(s, e, e - i);
  }

  lemma OpeningRun(s: string, i: nat)
    requires i < |s| && Boundary(s, i) && s[i] == '`'
    ensures IsRun(s, i, RunEnd(s, i)) && Boundary(s, RunEnd(s, i))
  {
  }

  lemma CoveredCons(p: Span, ps: seq<Span>, k: int)
    ensures Covered([p] + ps, k) <==> p.open <= k < p.end || Covered(ps, k)
  {
    var all := [p] + ps;
    if j :| 0 <= j < |ps| && ps[j].open <= k < ps[j].end { assert all[j + 1] == ps[j]; }
    if p.open <= k < p.end { assert all[0] == p; }
  }

  lemma SpanForward(s: string, p: Span)
    requires IsSpan(s, p)
    ensures p.open < p.text <= p.close < p.end <= |s|
  {
  }

  /** One span in front of those that follow it. */
  lemma SpanFirst(s: string, p: Span, ps: seq<Span>)
    requires IsSpan(s, p) && SpansOf(s, ps, p.end)
    ensures SpansOf(s, [p] + ps, p.open)
  {
    hide IsSpan, NoRunFrom, Covered;
    SpanForward(s, p);
    var all := [p] + ps;
    forall j | 0 <= j < |all| ensures IsSpan(s, all[j]) && p.open <= all[j].open {
      assert j > 0 ==> all[j] == ps[j - 1];
    }
    forall a, b | p.open <= a && IsRun(s, a, b) && !Covered(all, a) ensures NoRunFrom(s, b, b - a) {
      CoveredCons(p, ps, a);
    }
  }

  /** A run nothing closes, or a character that is no backtick, in front of the spans that follow. */
  lemma NothingFirst(s: string, i: nat, next: nat, ps: seq<Span>)
    requires i < next <= |s| && Boundary(s, i) && SpansOf(s, ps, next)
    requires s[i] != '`' ==> next == i + 1
    requires s[i] == '`' ==> Unclosed(s, i, next)
    ensures SpansOf(s, ps, i)
  {
    hide IsSpan, NoRunFrom, Covered, Apart;
    forall a, b | i <= a && IsRun(s, a, b) && !Covered(ps, a) ensures NoRunFrom(s, b, b - a) {
      if a < next {
        if s[i] == '`' { RunsCoincide(s, i, next, a, b); }
      }
    }
  }

  lemma {:induction false} ScannedSpans(s: string, i: nat)
    requires i <= |s| && Boundary(s, i)
    ensures SpansOf(s, Scanned(s, i), i)
    decreases |s| - i
  {
    hide Next, IsSpan, SpansOf, Unclosed, Boundary;
    if i == |s| {
      NoSpansLeft(s);
    } else {
      var (next, span) := Next(s, i);
      NextStops(s, i);
      ScannedSpans(s, next);
      if span {
        SpanAt(s, i);
        SpanFirst(s, Span(i, RunEnd(s, i), next - (RunEnd(s, i) - i), next), Scanned(s, next));
      } else {
        PlainNext(s, i);
        NothingFirst(s, i, next, Scanned(s, next));
        assert [] + Scanned(s, next) == Scanned(s, next);
      }
    }
  }

  lemma PlainNext(s: string, i: nat)
    requires i < |s|
    ensures s[i] != '`' ==> Next(s, i).0 == i + 1
  {
  }

  lemma NoSpansLeft(s: string)
    ensures SpansOf(s, [], |s|)
  {
  }

  // ---- The scan blanks them ---------------------------------------------------------------------

  lemma {:induction false} ScannedAfter(s: string, i: nat)
    requires i <= |s|
    ensures forall j | 0 <= j < |Scanned(s, i)| :: i <= Scanned(s, i)[j].open
    decreases |s| - i
  {
    hide Next;
    if i < |s| { ScannedAfter(s, Next(s, i).0); }
  }

  lemma ScannedCovers(s: string, i: nat, k: nat)
    requires i < |s| && Boundary(s, i) && i <= k < |s|
    ensures var (next, span) := Next(s, i);
            Covered(Scanned(s, i), k) <==> if k < next then span else Covered(Scanned(s, next), k)
  {
    hide Next, IsSpan, Boundary, Covered;
    var (next, span) := Next(s, i);
    var rest := Scanned(s, next);
    ScannedAfter(s, next);
    if k < next { NotYet(rest, next, k); }
    if span {
      SpanAt(s, i);
      CoveredCons(Span(i, RunEnd(s, i), next - (RunEnd(s, i) - i), next), rest, k);
    } else {
      assert [] + rest == rest;
    }
  }

  lemma {:induction false} ScannedPainted(s: string, i: nat)
    requires i <= |s| && Boundary(s, i)
    ensures Painted(s, Scanned(s, i), i, BlankFrom(s, i))
    decreases |s| - i
  {
    hide Next, Boundary, Covered, Scanned, Piece;
    if i < |s| {
      var (next, span) := Next(s, i);
      NextStops(s, i);
      ScannedPainted(s, next);
      PaintedPiece(s, i);
      forall k | i <= k < |s|
        ensures BlankFrom(s, i)[k - i] == if Covered(Scanned(s, i), k) && s[k] != '\n' then ' ' else s[k]
      {
        ScannedCovers(s, i, k);
        assert BlankFrom(s, i)[k - i]
            == if k < next then Piece(s, i)[k - i] else BlankFrom(s, next)[k - next];
      }
    }
  }

  lemma NotYet(ps: seq<Span>, next: nat, k: int)
    requires k < next && forall j | 0 <= j < |ps| :: next <= ps[j].open
    ensures !Covered(ps, k)
  {
  }

  lemma PaintedPiece(s: string, i: nat)
    requires i < |s|
    ensures var (next, span) := Next(s, i);
            forall k | i <= k < next :: Piece(s, i)[k - i] == if span && s[k] != '\n' then ' ' else s[k]
  {
    hide Next;
  }

  // ---- There is only one list of them -------------------------------------------------------------

  lemma SpansTail(s: string, ps: seq<Span>, i: int)
    requires ps != [] && SpansOf(s, ps, i)
    ensures SpansOf(s, ps[1..], ps[0].end)
  {
    hide IsSpan, NoRunFrom, Covered;
    var rest := ps[1..];
    assert ps == [ps[0]] + rest;
    forall a, b | ps[0].end <= a && IsRun(s, a, b) && !Covered(rest, a) ensures NoRunFrom(s, b, b - a) {
      CoveredCons(ps[0], rest, a);
      SpanForward(s, ps[0]);
    }
  }

  /** The run that opens a span is closed, so no list leaves it uncovered. */
  lemma OpenerCovered(s: string, p: Span, qs: seq<Span>, i: int)
    requires IsSpan(s, p) && SpansOf(s, qs, i) && i <= p.open
    ensures Covered(qs, p.open)
  {
    hide Covered, NoRunBetween;
    var a, b := p.close, p.end;
    assert IsRun(s, a, b) && p.text <= a && b - a == p.text - p.open;
  }

  /** The first span of one list is no later than the first of another. */
  lemma FirstOpens(s: string, ps: seq<Span>, qs: seq<Span>, i: int)
    requires SpansOf(s, ps, i) && SpansOf(s, qs, i) && ps != []
    ensures qs != [] && qs[0].open <= ps[0].open
  {
    hide IsSpan, NoRunFrom;
    OpenerCovered(s, ps[0], qs, i);
    var j :| 0 <= j < |qs| && qs[j].open <= ps[0].open < qs[j].end;
    SpanForward(s, qs[0]);
  }

  lemma CloserNotEarlier(s: string, p: Span, q: Span)
    requires IsSpan(s, p) && IsSpan(s, q) && p.open == q.open && p.text == q.text
    ensures q.close <= p.close
  {
    if p.close < q.close { RunsApart(s, p.close, p.end, q.close, q.end); }
  }

  lemma SameSpan(s: string, p: Span, q: Span)
    requires IsSpan(s, p) && IsSpan(s, q) && p.open == q.open
    ensures p == q
  {
    hide NoRunBetween;
    RunsCoincide(s, p.open, p.text, q.open, q.text);
    CloserNotEarlier(s, p, q);
    CloserNotEarlier(s, q, p);
  }

  lemma RunsApart(s: string, a: int, b: int, a': int, b': int)
    requires IsRun(s, a, b) && IsRun(s, a', b') && a < a'
    ensures b <= a'
  {
    if a' < b { RunsCoincide(s, a, b, a', b'); }
  }

  lemma {:induction false} SpansUnique(s: string, ps: seq<Span>, qs: seq<Span>, i: int)
    requires SpansOf(s, ps, i) && SpansOf(s, qs, i)
    ensures ps == qs
    decreases |ps|
  {
    hide IsSpan, SpansOf;
    if ps == [] {
      if qs != [] { FirstOpens(s, qs, ps, i); }
    } else {
      FirstOpens(s, ps, qs, i);
      FirstOpens(s, qs, ps, i);
      HeadIsSpan(s, ps, i);
      HeadIsSpan(s, qs, i);
      SameSpan(s, ps[0], qs[0]);
      SpansTail(s, ps, i);
      SpansTail(s, qs, i);
      SpansUnique(s, ps[1..], qs[1..], ps[0].end);
      assert ps == [ps[0]] + ps[1..] && qs == [qs[0]] + qs[1..];
    }
  }

  lemma HeadIsSpan(s: string, ps: seq<Span>, i: int)
    requires SpansOf(s, ps, i) && ps != []
    ensures IsSpan(s, ps[0])
  {
  }

  /**
   * Every text has exactly one list of spans, and blanking the text blanks them and nothing else: a span
   * opens at a whole run that no earlier span covers, closes at the next whole run of its width, and a
   * run that none closes stays.
   */
  lemma BlankedSpans(s: string)
    ensures exists ps :: SpansOf(s, ps, 0)
    ensures forall ps | SpansOf(s, ps, 0) :: Painted(s, ps, 0, Blank(s))
  {
    hide SpansOf, Painted;
    ScannedSpans(s, 0);
    ScannedPainted(s, 0);
    forall ps | SpansOf(s, ps, 0) ensures ps == Scanned(s, 0) { SpansUnique(s, ps, Scanned(s, 0), 0); }
  }
}
