/**
 * Inline code spans in `scripts/check-docs.py` (section 6.1 of CommonMark 0.31): blanking the spans
 * of a paragraph without moving anything.
 */
module CodeSpans {
  import opened Ascii
  import opened Wrappers

  /** Where the run of backticks that starts at `i` ends. */
  function RunEnd(s: string, i: nat): (e: nat)
    requires i <= |s|
    ensures i <= e <= |s|
    ensures forall k | i <= k < e :: s[k] == '`'
    ensures e < |s| ==> s[e] != '`'
    decreases |s| - i
  {
    if i < |s| && s[i] == '`' then RunEnd(s, i + 1) else i
  }

  /** `[a, b)` is a whole run of backticks: it cannot be extended on either side. */
  ghost predicate IsRun(s: string, a: int, b: int) {
    && 0 <= a < b <= |s|
    && (forall k | a <= k < b :: s[k] == '`')
    && (a > 0 ==> s[a - 1] != '`')
    && (b < |s| ==> s[b] != '`')
  }

  /** No run straddles offset `i`. */
  ghost predicate Boundary(s: string, i: int) {
    0 <= i <= |s| && (0 < i < |s| ==> s[i - 1] != '`' || s[i] != '`')
  }

  /** The end of the next run of exactly `width` backticks at or after `k`. */
  function Closer(s: string, k: nat, width: nat): (r: Option<nat>)
    requires k <= |s|
    ensures r.Some? ==> k < r.value <= |s|
    decreases |s| - k
  {
    if k == |s| then None
    else if s[k] != '`' then Closer(s, k + 1, width)
    else
      var e := RunEnd(s, k);
      if e - k == width then Some(e) else Closer(s, e, width)
  }

  function Blanks(s: string): (r: string)
    ensures |r| == |s| && forall k | 0 <= k < |s| :: r[k] == if s[k] == '\n' then '\n' else ' '
  {
    seq(|s|, k requires 0 <= k < |s| => if s[k] == '\n' then '\n' else ' ')
  }

  /**
   * What the scan does at offset `i`: it goes on from `next`, and what it passes is a span to blank
   * or else a plain character or a run that nothing closes.
   */
  function Next(s: string, i: nat): (r: (nat, bool))
    requires i < |s|
    ensures i < r.0 <= |s|
  {
    if s[i] != '`' then (i + 1, false)
    else
      var e := RunEnd(s, i);
      match Closer(s, e, e - i)
      case None => (e, false)
      case Some(c) => (c, true)
  }

  function Piece(s: string, i: nat): (r: string)
    requires i < |s|
    ensures |r| == Next(s, i).0 - i
  {
    var (next, span) := Next(s, i);
    if span then Blanks(s[i..next]) else s[i..next]
  }

  /** The text from offset `i` on, with its spans blanked. */
  function BlankFrom(s: string, i: nat): (r: string)
    requires i <= |s|
    ensures |r| == |s| - i
    decreases |s| - i
  {
    if i == |s| then [] else Piece(s, i) + BlankFrom(s, Next(s, i).0)
  }

  function Blank(s: string): string { BlankFrom(s, 0) }

  /** The search for a closer, with its own index. */
  method FindCloser(line: string, from: nat, width: nat) returns (r: Option<nat>)
    requires from <= |line|
    ensures r == Closer(line, from, width)
  {
    var k := from;
    while k < |line|
      invariant from <= k <= |line|
      invariant Closer(line, k, width) == Closer(line, from, width)
      decreases |line| - k
    {
      if line[k] != '`' {
        k := k + 1;
        continue;
      }
      var closeEnd := FindRunEnd(line, k);
      if closeEnd - k == width { return Some(closeEnd); }
      k := closeEnd;
    }
    return None;
  }

  method FindRunEnd(line: string, i: nat) returns (e: nat)
    requires i <= |line|
    ensures e == RunEnd(line, i)
  {
    e := i;
    while e < |line| && line[e] == '`'
      invariant i <= e <= |line| && RunEnd(line, e) == RunEnd(line, i)
    {
      e := e + 1;
    }
  }

  /** What the scan does at `i`, found with its own indices. */
  method FindNext(line: string, i: nat) returns (next: nat, span: bool)
    requires i < |line|
    ensures (next, span) == Next(line, i)
  {
    if line[i] != '`' { return i + 1, false; }
    var openEnd := FindRunEnd(line, i);
    var closer := FindCloser(line, openEnd, openEnd - i);
    match closer
    case None => return openEnd, false;
    case Some(closeEnd) => return closeEnd, true;
  }

  /** Overwrites `[i, next)` of the buffer with spaces, newlines excepted. */
  method Overwrite(chars: array<char>, line: string, i: nat, next: nat)
    requires chars.Length == |line| && i <= next <= |line|
    modifies chars
    ensures chars[..i] == old(chars[..i]) && chars[next..] == old(chars[next..])
    ensures chars[i..next] == Blanks(line[i..next])
  {
    for x := i to next
      invariant chars[..i] == old(chars[..i]) && chars[next..] == old(chars[next..])
      invariant forall k | i <= k < x :: chars[k] == if line[k] == '\n' then '\n' else ' '
    {
      chars[x] := if line[x] == '\n' then '\n' else ' ';
    }
  }

  /** One round of the scan: the piece at `i` is settled and nothing else changes. */
  method Settle(chars: array<char>, line: string, i: nat) returns (next: nat)
    requires chars.Length == |line| && i < |line| && chars[i..] == line[i..]
    modifies chars
    ensures next == Next(line, i).0
    ensures chars[..i] == old(chars[..i]) && chars[next..] == line[next..]
    ensures chars[i..next] == Piece(line, i)
  {
    hide Next, Blanks;
    var span;
    next, span := FindNext(line, i);
    assert chars[next..] == line[next..] by {
      assert chars[next..] == chars[i..][next - i..] && line[next..] == line[i..][next - i..];
    }
    if span {
      Overwrite(chars, line, i, next);
    } else {
      assert chars[i..next] == chars[i..][..next - i] && line[i..next] == line[i..][..next - i];
    }
  }

  /** `blank_code_spans`: the character buffer is changed in place. */
  method BlankCodeSpans(line: string) returns (r: string)
    ensures r == Blank(line)
  {
    var n := |line|;
    var chars := new char[n](k requires 0 <= k < n => line[k]);
    var i := 0;
    while i < n
      invariant i <= n
      invariant chars[i..] == line[i..]
      invariant chars[..i] + BlankFrom(line, i) == Blank(line)
      decreases n - i
    {
      hide Next, BlankFrom, Piece;
      ghost var done := chars[..i];
      var next := Settle(chars, line, i);
      BlankFromStep(done, line, i);
      assert chars[..next] == done + chars[i..next];
      i := next;
    }
    assert chars[..n] == chars[..] && BlankFrom(line, n) == [];
    return chars[..];
  }

  lemma BlankFromStep(done: string, s: string, i: nat)
    requires i < |s|
    ensures done + BlankFrom(s, i) == (done + Piece(s, i)) + BlankFrom(s, Next(s, i).0)
  {
  }

  // ---- Nothing moves ------------------------------------------------------------------------

  /** The same characters in the same places, except that some became spaces; no newline did. */
  ghost predicate SameShape(s: string, t: string) {
    |s| == |t| && forall k | 0 <= k < |s| :: (s[k] == '\n' <==> t[k] == '\n') && (t[k] == s[k] || t[k] == ' ')
  }

  lemma PieceShape(s: string, i: nat)
    requires i < |s|
    ensures SameShape(s[i..Next(s, i).0], Piece(s, i))
  {
    hide Next;
  }

  lemma ShapeConcat(s: string, t: string, s': string, t': string)
    requires SameShape(s, t) && SameShape(s', t')
    ensures SameShape(s + s', t + t')
  {
  }

  lemma {:induction false} BlankFromShape(s: string, i: nat)
    requires i <= |s|
    ensures SameShape(s[i..], BlankFrom(s, i))
    decreases |s| - i
  {
    hide Next, Piece, SameShape;
    if i < |s| {
      var next := Next(s, i).0;
      PieceShape(s, i);
      BlankFromShape(s, next);
      assert s[i..] == s[i..next] + s[next..];
      ShapeConcat(s[i..next], Piece(s, i), s[next..], BlankFrom(s, next));
    } else {
      EmptyShape();
    }
  }

  lemma EmptyShape()
    ensures SameShape([], [])
  {
  }

  /** Blanking keeps the length and every newline, and writes nothing but spaces. */
  lemma BlankKeepsShape(s: string)
    ensures SameShape(s, Blank(s))
  {
    BlankFromShape(s, 0);
    assert s[0..] == s;
  }

  // ---- What survives ------------------------------------------------------------------------

  /** No whole run of `width` backticks starts at or after `k`. */
  ghost predicate NoRunFrom(s: string, k: int, width: int) {
    forall a, b :: k <= a && IsRun(s, a, b) ==> b - a != width
  }

  /** The search finds a whole run, and fails only where there is none. */
  lemma {:induction false} CloserFindsRun(s: string, k: nat, width: nat)
    requires k <= |s| && Boundary(s, k)
    ensures match Closer(s, k, width)
            case Some(c) => k <= c - width && IsRun(s, c - width, c)
            case None => NoRunFrom(s, k, width)
    decreases |s| - k
  {
    if k < |s| {
      if s[k] != '`' {
        CloserFindsRun(s, k + 1, width);
      } else {
        var e := RunEnd(s, k);
        assert IsRun(s, k, e);
        if e - k != width {
          CloserFindsRun(s, e, width);
          forall a, b | k <= a < e && IsRun(s, a, b) ensures b - a != width { RunsCoincide(s, k, e, a, b); }
        }
      }
    }
  }

  /** Whole runs that share a backtick are the same run. */
  lemma RunsCoincide(s: string, a: int, b: int, a': int, b': int)
    requires IsRun(s, a, b) && IsRun(s, a', b') && a < b' && a' < b
    ensures a == a' && b == b'
  {
  }

  /** A run that nothing later closes. */
  ghost predicate Unclosed(s: string, a: int, b: int) { IsRun(s, a, b) && NoRunFrom(s, b, b - a) }

  /** The scan stops only between runs, and leaves behind no run but an unclosed one. */
  lemma NextStops(s: string, i: nat)
    requires i < |s| && Boundary(s, i)
    ensures var (next, span) := Next(s, i);
            Boundary(s, next) && (!span && s[i] == '`' ==> Unclosed(s, i, next))
  {
    if s[i] == '`' {
      var e := RunEnd(s, i);
      assert IsRun(s, i, e);
      CloserFindsRun(s, e, e - i);
    }
  }

  /** Where a piece leaves backticks, it is one run. */
  lemma PieceRun(s: string, i: nat)
    requires i < |s| && Boundary(s, i)
    ensures var (next, span) := Next(s, i);
            var p := Piece(s, i);
            if !span && s[i] == '`' then forall k | 0 <= k < |p| :: p[k] == '`'
            else forall k | 0 <= k < |p| :: p[k] != '`'
  {
  }

  /** Every run left in the output is a whole run of the input, in place, and nothing closes it. */
  lemma {:induction false} SurvivingRuns(s: string, i: nat, a: int, b: int)
    requires i <= |s| && Boundary(s, i)
    requires IsRun(BlankFrom(s, i), a - i, b - i)
    ensures Unclosed(s, a, b)
    decreases |s| - i
  {
    hide Next, Piece, Unclosed;
    var (next, span) := Next(s, i);
    var out, tail, n := BlankFrom(s, i), BlankFrom(s, next), next - i;
    assert out == Piece(s, i) + tail && out[n..] == tail;
    NextStops(s, i);
    PieceRun(s, i);
    if !span && s[i] == '`' {
      if next < |s| { BlankFromHead(s, next, i); }
      assert IsRun(out, 0, n);
      if a < next {
        RunsCoincide(out, 0, n, a - i, b - i);
      } else {
        RunInTail(out, n, a - i, b - i);
        SurvivingRuns(s, next, a, b);
      }
    } else {
      RunInTail(out, n, a - i, b - i);
      SurvivingRuns(s, next, a, b);
    }
  }

  /** What follows a run left in place is not a backtick. */
  lemma BlankFromHead(s: string, next: nat, i: nat)
    requires i < next < |s| && Boundary(s, i) && s[i] == '`' && Next(s, i) == (next, false)
    ensures BlankFrom(s, next)[0] != '`'
  {
  }

  /** A run that starts after `n`, or at `n` behind something else, is a run of the tail. */
  lemma RunInTail(out: string, n: nat, a: int, b: int)
    requires n <= |out| && IsRun(out, a, b)
    requires n <= a || (n > 0 && forall k | 0 <= k < n :: out[k] != '`')
    ensures IsRun(out[n..], a - n, b - n)
  {
    var tail := out[n..];
    assert out[a] == '`';
    assert forall k | n <= k < |out| :: tail[k - n] == out[k];
  }

  /**
   * Only whole runs survive, each where it stood, and no two of them have the same width.
   */
  lemma SurvivorsDiffer(s: string, a: int, b: int, a': int, b': int)
    requires IsRun(Blank(s), a, b) && IsRun(Blank(s), a', b') && a < a'
    ensures IsRun(s, a, b) && IsRun(s, a', b') && b - a != b' - a'
  {
    hide IsRun, BlankFrom;
    SurvivingRuns(s, 0, a, b);
    SurvivingRuns(s, 0, a', b');
    if a' < b { RunsCoincide(s, a, b, a', b'); }
  }

  /** All whole runs have different widths. */
  ghost predicate RunsDiffer(s: string) {
    forall a, b, a', b' :: IsRun(s, a, b) && IsRun(s, a', b') && a < a' ==> b - a != b' - a'
  }

  /** A text whose runs all have different widths has no span. */
  lemma {:induction false} NothingToBlank(s: string, i: nat)
    requires i <= |s| && Boundary(s, i) && RunsDiffer(s)
    ensures BlankFrom(s, i) == s[i..]
    decreases |s| - i
  {
    hide Next, RunsDiffer, Boundary;
    if i < |s| {
      NextStops(s, i);
      NoSpanAt(s, i);
      NothingToBlank(s, Next(s, i).0);
      assert s[i..] == s[i..Next(s, i).0] + s[Next(s, i).0..];
    }
  }

  lemma NoSpanAt(s: string, i: nat)
    requires i < |s| && Boundary(s, i) && RunsDiffer(s)
    ensures !Next(s, i).1
  {
    if s[i] == '`' {
      var e := RunEnd(s, i);
      assert IsRun(s, i, e);
      CloserFindsRun(s, e, e - i);
    }
  }

  /** Blanking is idempotent. */
  lemma BlankIdempotent(s: string)
    ensures Blank(Blank(s)) == Blank(s)
  {
    forall a, b, a', b' | IsRun(Blank(s), a, b) && IsRun(Blank(s), a', b') && a < a'
      ensures b - a != b' - a'
    {
      SurvivorsDiffer(s, a, b, a', b');
    }
    NothingToBlank(Blank(s), 0);
    assert Blank(s)[0..] == Blank(s);
  }

  // ---- Paragraphs ---------------------------------------------------------------------------

  /** A line that ends a paragraph: fenced, or blank. */
  predicate Breaks(lines: seq<string>, fenced: seq<bool>, i: nat)
    requires |fenced| == |lines| && i < |lines|
  {
    fenced[i] || BlankLine(lines[i])
  }

  /** Where the paragraph that `i` belongs to ends. */
  function ParagraphEnd(lines: seq<string>, fenced: seq<bool>, i: nat): (e: nat)
    requires |fenced| == |lines| && i <= |lines|
    ensures i <= e <= |lines|
    ensures forall k | i <= k < e :: !Breaks(lines, fenced, k)
    ensures e < |lines| ==> Breaks(lines, fenced, e)
    decreases |lines| - i
  {
    if i == |lines| || Breaks(lines, fenced, i) then i else ParagraphEnd(lines, fenced, i + 1)
  }

  /** The lines from `i` on, each paragraph blanked as one text. */
  function BlankedFrom(lines: seq<string>, fenced: seq<bool>, i: nat): seq<string>
    requires |fenced| == |lines| && i <= |lines|
    decreases |lines| - i
  {
    if i == |lines| then []
    else if Breaks(lines, fenced, i) then [lines[i]] + BlankedFrom(lines, fenced, i + 1)
    else
      var e := ParagraphEnd(lines, fenced, i);
      Lines(Blank(Join(lines[i..e]))) + BlankedFrom(lines, fenced, e)
  }

  /** `blanked_lines`: paragraphs are flushed as they end. */
  method BlankedLines(lines: seq<string>, fenced: seq<bool>) returns (out: seq<string>)
    requires |fenced| == |lines|
    ensures out == BlankedFrom(lines, fenced, 0)
  {
    hide BlankedFrom, ParagraphEnd, Breaks, BlankLine, Blank, Lines, Join;
    out := [];
    var i := 0;
    while i < |lines|
      invariant i <= |lines|
      invariant out + BlankedFrom(lines, fenced, i) == BlankedFrom(lines, fenced, 0)
      decreases |lines| - i
    {
      BlankedStep(lines, fenced, i, out);
      if fenced[i] || BlankLine(lines[i]) {
        out := out + [lines[i]];
        i := i + 1;
      } else {
        var start := i;
        while i < |lines| && !fenced[i] && !BlankLine(lines[i])
          invariant start <= i <= |lines|
          invariant ParagraphEnd(lines, fenced, i) == ParagraphEnd(lines, fenced, start)
          decreases |lines| - i
        {
          ParagraphStep(lines, fenced, i);
          i := i + 1;
        }
        if i < |lines| { ParagraphStep(lines, fenced, i); } else { ParagraphLast(lines, fenced); }
        var joined := BlankCodeSpans(Join(lines[start..i]));
        out := out + Lines(joined);
      }
    }
    NothingBlanked(lines, fenced);
  }

  /** One line outside paragraphs, or one paragraph. */
  lemma BlankedStep(lines: seq<string>, fenced: seq<bool>, i: nat, out: seq<string>)
    requires |fenced| == |lines| && i < |lines|
    ensures out + BlankedFrom(lines, fenced, i)
            == if fenced[i] || BlankLine(lines[i]) then out + [lines[i]] + BlankedFrom(lines, fenced, i + 1)
               else
                 var e := ParagraphEnd(lines, fenced, i);
                 out + Lines(Blank(Join(lines[i..e]))) + BlankedFrom(lines, fenced, e)
    ensures ParagraphEnd(lines, fenced, i) > i <==> !fenced[i] && !BlankLine(lines[i])
  {
    hide BlankLine, Blank, Lines, Join;
  }

  lemma ParagraphStep(lines: seq<string>, fenced: seq<bool>, i: nat)
    requires |fenced| == |lines| && i < |lines|
    ensures ParagraphEnd(lines, fenced, i)
            == if fenced[i] || BlankLine(lines[i]) then i else ParagraphEnd(lines, fenced, i + 1)
  {
    hide BlankLine;
  }

  lemma ParagraphLast(lines: seq<string>, fenced: seq<bool>)
    requires |fenced| == |lines|
    ensures ParagraphEnd(lines, fenced, |lines|) == |lines|
  {
  }

  lemma NothingBlanked(lines: seq<string>, fenced: seq<bool>)
    requires |fenced| == |lines|
    ensures BlankedFrom(lines, fenced, |lines|) == []
  {
  }

  /** Texts of the same shape split into as many lines, each as long. */
  lemma {:induction false} ShapeLines(s: string, t: string)
    requires SameShape(s, t)
    ensures |Lines(s)| == |Lines(t)| && forall k | 0 <= k < |Lines(s)| :: |Lines(s)[k]| == |Lines(t)[k]|
  {
    if s != [] {
      ShapeTail(s, t);
      ShapeLines(s[1..], t[1..]);
      LinesFirst(s);
      LinesFirst(t);
      hide Lines, SameShape;
    }
  }

  lemma ShapeTail(s: string, t: string)
    requires SameShape(s, t) && s != []
    ensures t != [] && (s[0] == '\n' <==> t[0] == '\n') && SameShape(s[1..], t[1..])
  {
  }

  /** The lines of a text, from those of its tail. */
  lemma LinesFirst(s: string)
    requires s != []
    ensures var rest := Lines(s[1..]);
            |rest| > 0 && Lines(s) == if s[0] == '\n' then [[]] + rest else [[s[0]] + rest[0]] + rest[1..]
  {
  }

  /** Lines without newlines, joined and split, are the lines. */
  lemma {:induction false} SplitJoined(lines: seq<string>)
    requires lines != [] && forall k | 0 <= k < |lines| :: '\n' !in lines[k]
    ensures Lines(Join(lines)) == lines
  {
    if |lines| == 1 {
      LinesOne(lines[0]);
      assert lines == [lines[0]];
    } else {
      SplitJoined(lines[1..]);
      SplitFirst(lines[0], Join(lines[1..]));
      assert Join(lines) == lines[0] + ("\n" + Join(lines[1..]));
      assert lines == [lines[0]] + lines[1..];
    }
  }

  lemma {:induction false} SplitFirst(line: string, rest: string)
    requires '\n' !in line
    ensures Lines(line + ("\n" + rest)) == [line] + Lines(rest)
  {
    var s := line + ("\n" + rest);
    if line == [] {
      assert s == "\n" + rest && s[1..] == rest;
    } else {
      assert line == [line[0]] + line[1..];
      assert s[1..] == line[1..] + ("\n" + rest);
      SplitFirst(line[1..], rest);
    }
  }

  /** Flushing a paragraph keeps its number of lines and the length of each. */
  lemma FlushKeepsLines(lines: seq<string>)
    requires lines != [] && forall k | 0 <= k < |lines| :: '\n' !in lines[k]
    ensures var out := Lines(Blank(Join(lines)));
            |out| == |lines| && forall k | 0 <= k < |lines| :: |out[k]| == |lines[k]|
  {
    BlankKeepsShape(Join(lines));
    ShapeLines(Join(lines), Blank(Join(lines)));
    SplitJoined(lines);
  }

  /**
   * `blanked_lines` keeps the line count and the length of every line, whatever spans wrap across
   * lines, and leaves fenced and blank lines as they are.
   */
  lemma {:induction false} BlankedLinesKeepColumns(lines: seq<string>, fenced: seq<bool>, i: nat)
    requires |fenced| == |lines| && i <= |lines|
    requires forall k | 0 <= k < |lines| :: '\n' !in lines[k]
    ensures var out := BlankedFrom(lines, fenced, i);
            && |out| == |lines| - i
            && (forall k | i <= k < |lines| :: |out[k - i]| == |lines[k]|)
            && (forall k | i <= k < |lines| && Breaks(lines, fenced, k) :: out[k - i] == lines[k])
    decreases |lines| - i
  {
    hide Blank, Join, Lines, BlankLine;
    if i < |lines| {
      if Breaks(lines, fenced, i) {
        BlankedLinesKeepColumns(lines, fenced, i + 1);
      } else {
        var e := ParagraphEnd(lines, fenced, i);
        FlushKeepsLines(lines[i..e]);
        BlankedLinesKeepColumns(lines, fenced, e);
      }
    }
  }
}
