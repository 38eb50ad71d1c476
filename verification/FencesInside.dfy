/**
 * Fences by their spelling, and fences inside containers: behind quote markers and at an item's content
 * column the mask is that of the lines without their containers.
 */
module FencesInside {
  import opened Ascii
  import opened Wrappers
  import opened Columns
  import opened Containers
  import opened Frames
  import opened Fences

  // ---- Delimiters by their spelling -----------------------------------------------------------

  /** The mark, `n` times. */
  function Marks(c: char, n: nat): (s: string)
    ensures |s| == n && forall k | 0 <= k < n :: s[k] == c
  {
    seq(n, _ => c)
  }

  lemma {:induction false} RepeatsMarks(c: char, n: nat, rest: string)
    requires rest != "" ==> rest[0] != c
    ensures Repeats(Marks(c, n) + rest, c) == n
  {
    if n > 0 {
      assert (Marks(c, n) + rest)[1..] == Marks(c, n - 1) + rest;
      RepeatsMarks(c, n - 1, rest);
    } else {
      assert Marks(c, 0) + rest == rest;
    }
  }

  lemma {:induction false} RepeatsSplit(s: string, c: char)
    ensures var n := Repeats(s, c); s == Marks(c, n) + s[n..] && (s[n..] != "" ==> s[n..][0] != c)
  {
    if s != "" && s[0] == c {
      RepeatsSplit(s[1..], c);
      var n := Repeats(s[1..], c);
      assert s == [c] + (Marks(c, n) + s[1..][n..]);
      assert Marks(c, n + 1) == [c] + Marks(c, n) && s[1..][n..] == s[n + 1..];
    }
  }

  /** A line that is blanks, a run of marks and an info string that does not go on with the mark. */
  predicate Spells(line: string, blanks: string, c: char, n: nat, info: string) {
    line == blanks + (Marks(c, n) + info) && AllIn(blanks, IsBlank) && c in "`~" && n >= 1
    && (info != "" ==> info[0] != c)
  }

  /** Three marks make a delimiter. */
  lemma FenceRunText(line: string, blanks: string, c: char, n: nat, info: string)
    requires Spells(line, blanks, c, n, info)
    ensures FenceRun(line) == if n >= 3 then Some(Run(c, n, info)) else None
  {
    hide Marks;
    var rest := Marks(c, n) + info;
    RepeatsMarks(c, n, info);
    assert rest[0] == Marks(c, n)[0] == c && !IsBlank(c);
    RunLengthUnique(line, IsBlank, |blanks|);
    assert line[|blanks|..] == rest && rest[n..] == info;
  }

  lemma FenceRunSpelled(line: string)
    requires FenceRun(line).Some?
    ensures var r := FenceRun(line).value;
            Spells(line, line[..RunLength(line, IsBlank)], r.mark, r.width, r.info) && r.width >= 3
  {
    var rest := DropBlanks(line);
    RepeatsSplit(rest, rest[0]);
    assert line == line[..RunLength(line, IsBlank)] + rest;
  }

  /**
   * A line opens a fence exactly when it is at most three columns of blanks, three marks or more, and an
   * info string, which after backticks holds no backtick.
   */
  lemma OpenerIff(line: string, c: char, n: nat)
    ensures (OpensFence(FenceDelimiter(line))
             && FenceDelimiter(line).value.mark == c && FenceDelimiter(line).value.width == n)
            <==> exists blanks, info :: Spells(line, blanks, c, n, info) && n >= 3 && IndentFrom(line, 0) <= 3
                                        && !(c == '`' && '`' in info)
  {
    hide FenceRun, Spells, IndentFrom;
    if OpensFence(FenceDelimiter(line)) && FenceDelimiter(line).value.mark == c
       && FenceDelimiter(line).value.width == n
    {
      FenceRunSpelled(line);
      var blanks, info := line[..RunLength(line, IsBlank)], FenceDelimiter(line).value.info;
      assert Spells(line, blanks, c, n, info);
    }
    if blanks, info :| Spells(line, blanks, c, n, info) && n >= 3 && IndentFrom(line, 0) <= 3
                       && !(c == '`' && '`' in info)
    {
      FenceRunText(line, blanks, c, n, info);
    }
  }

  /** It closes one exactly when the marks are the opener's, as many at least, with blanks after them. */
  lemma CloserIff(p: Plain, line: string)
    requires p.width >= 3
    ensures PlainCloses(p, line)
            <==> exists blanks, n: nat, info ::
                   Spells(line, blanks, p.mark, n, info) && n >= p.width && AllIn(info, IsBlank)
                   && IndentFrom(line, 0) <= 3
  {
    hide FenceRun, Spells, IndentFrom;
    if PlainCloses(p, line) {
      FenceRunSpelled(line);
      var r := FenceRun(line).value;
      assert Spells(line, line[..RunLength(line, IsBlank)], p.mark, r.width, r.info);
    }
    if blanks, n: nat, info :| Spells(line, blanks, p.mark, n, info) && n >= p.width && AllIn(info, IsBlank)
                               && IndentFrom(line, 0) <= 3
    {
      FenceRunText(line, blanks, p.mark, n, info);
    }
  }

  /** A fence with its opener and its closer, and nothing between them that closes it. */
  predicate Block(lines: seq<string>, c: char, n: nat) {
    |lines| >= 2
    && OpensFence(FenceDelimiter(lines[0]))
    && FenceDelimiter(lines[0]).value.mark == c && FenceDelimiter(lines[0]).value.width == n
    && (forall k | 0 < k < |lines| - 1 :: !PlainCloses(Plain(c, n), lines[k]))
    && PlainCloses(Plain(c, n), lines[|lines| - 1])
  }

  lemma PlainGrows(lines: seq<string>, line: string)
    ensures PlainAfter(lines + [line]) == PlainStep(PlainAfter(lines), line).0
    ensures PlainMasked(lines + [line], |lines|) == PlainStep(PlainAfter(lines), line).1
  {
    assert (lines + [line])[..|lines|] == lines;
  }

  lemma {:induction false} BlockInside(before: seq<string>, block: seq<string>, c: char, n: nat, k: nat)
    requires PlainAfter(before).None? && Block(block, c, n) && 0 < k < |block|
    ensures PlainAfter(before + block[..k]) == Some(Plain(c, n))
    ensures forall j | |before| <= j < |before| + k :: PlainMasked(before + block[..k], j)
  {
    hide PlainCloses, OpensFence, FenceDelimiter, PlainMasked, PlainAfter;
    var lines := before + block[..k - 1];
    var all := before + block[..k];
    assert all == lines + [block[k - 1]] && all[..|lines|] == lines;
    PlainGrows(lines, block[k - 1]);
    if k > 1 {
      BlockInside(before, block, c, n, k - 1);
      forall j | |before| <= j < |lines| ensures PlainMasked(all, j) { PlainMaskOfPrefix(all, |lines|, j); }
    } else {
      assert lines == before;
    }
  }

  /** Where no fence is open, a block is masked from its opener to its closer, and none is open after it. */
  lemma BlockMasked(before: seq<string>, block: seq<string>, c: char, n: nat)
    requires PlainAfter(before).None? && Block(block, c, n)
    ensures PlainAfter(before + block).None?
    ensures forall j | |before| <= j < |before + block| :: PlainMasked(before + block, j)
  {
    hide PlainCloses, OpensFence, FenceDelimiter, PlainMasked, PlainAfter;
    var k := |block| - 1;
    BlockInside(before, block, c, n, k);
    var lines, all := before + block[..k], before + block;
    assert all == lines + [block[k]] && all[..|lines|] == lines;
    PlainGrows(lines, block[k]);
    forall j | |before| <= j < |lines| ensures PlainMasked(all, j) { PlainMaskOfPrefix(all, |lines|, j); }
  }

  /** Where none is open, a line that opens none is not masked. */
  lemma TextUnmasked(before: seq<string>, line: string)
    requires PlainAfter(before).None? && !OpensFence(FenceDelimiter(line))
    ensures PlainAfter(before + [line]).None? && !PlainMasked(before + [line], |before|)
  {
    hide PlainAfter, PlainMasked, OpensFence, FenceDelimiter;
    PlainGrows(before, line);
  }

  // ---- Inside containers ----------------------------------------------------------------------

  /** `d` quote markers, and then `c` spaces: where the content of an item at that depth and column is. */
  function Inner(d: nat, c: nat, line: string): string { Quotes(d) + (Spaces(c) + line) }

  function InnerLines(d: nat, c: nat, inner: seq<string>): seq<string> {
    seq(|inner|, k requires 0 <= k < |inner| => Inner(d, c, inner[k]))
  }

  /** A line without tabs and without container markers. */
  predicate Bare(line: string) { '\t' !in line && Strip(line).prefix == "" }

  lemma BareTakesNothing(line: string)
    requires Bare(line)
    ensures QuoteMarker(line).None? && ItemMarker(line).None? && Expand(line) == line
  {
    hide QuoteMarker, ItemMarker;
    NoTabsNoChange(line, 0);
    TakeAllSplits(Start(line));
    TakeAllMoves(Start(line));
  }

  lemma {:induction false} SpacesInFront(c: nat, line: string)
    ensures LeadingSpaces(Spaces(c) + line) == c + LeadingSpaces(line)
    ensures DropBlanks(Spaces(c) + line) == DropBlanks(line)
  {
    var s := Spaces(c) + line;
    var n := LeadingSpaces(line);
    forall k | 0 <= k < c + n ensures s[k] == ' ' { if k >= c { assert s[k] == line[k - c]; } }
    RunLengthUniqueSpaces(s, c + n);
    var b := RunLength(line, IsBlank);
    forall k | 0 <= k < c + b ensures IsBlank(s[k]) { if k >= c { assert s[k] == line[k - c]; } }
    RunLengthUnique(s, IsBlank, c + b);
    assert s[c + b..] == line[b..];
  }

  /** Spaces in front of a line without markers bring none. */
  lemma SpacedTakesNothing(c: nat, line: string)
    requires Bare(line)
    ensures QuoteMarker(Spaces(c) + line).None? && ItemMarker(Spaces(c) + line).None?
  {
    hide MarkerHead;
    BareTakesNothing(line);
    SpacesInFront(c, line);
    var s, n := Spaces(c) + line, LeadingSpaces(line);
    assert s[c + n..] == line[n..];
    assert c + n < |s| ==> s[c + n] == line[n];
  }

  lemma {:induction false} QuotedWalk(d: nat, text: string, w: Walk)
    requires w.base == w.pos && w.items == [] && w.columns == 0 && w.rest == Quotes(d) + text
    requires QuoteMarker(text).None? && ItemMarker(text).None?
    ensures var r := TakeAll(w);
            r.rest == text && r.depth == w.depth + d && r.items == [] && r.pos == w.pos + |Quotes(d)|
  {
    hide QuoteMarker, ItemMarker, TakeAll;
    TakeAllStep(w);
    if d == 0 {
      assert Quotes(0) + text == text;
    } else {
      OneQuote(d, text);
      QuotedWalk(d - 1, text, Walk(w.rest[2..], w.pos + 2, w.pos + 2, w.depth + 1, 0, []));
    }
  }

  /** What the walk finds on an inner line: its quotes, and no marker. */
  lemma InnerStrip(d: nat, c: nat, line: string)
    requires Bare(line)
    ensures var s := Strip(Inner(d, c, line));
            s.content == Spaces(c) + line && s.depth == d && s.items == [] && s.prefix == Quotes(d)
    ensures QuoteRest(Inner(d, c, line), d) == Some(Spaces(c) + line)
  {
    hide QuoteMarker, ItemMarker, TakeAll, Bare;
    var text := Spaces(c) + line;
    SpacedTakesNothing(c, line);
    InnerTabFree(c, line);
    QuotedExpand(d, text);
    QuotedWalk(d, text, Start(Inner(d, c, line)));
    QuotesRead(d, text, d);
    assert Quotes(0) + text == text && (Quotes(d) + text)[..|Quotes(d)|] == Quotes(d);
  }

  lemma InnerTabFree(c: nat, line: string)
    requires Bare(line)
    ensures '\t' !in Spaces(c) + line
  {
  }

  /** The chain inside: one item at depth `d` and column `c`, or none where `c` is 0. */
  function InnerChain(d: nat, c: nat): Chain { if c == 0 then [] else [Item(d, c)] }

  lemma InnerKeepsChain(d: nat, c: nat, line: string)
    requires Bare(line)
    ensures NextChain(InnerChain(d, c), Inner(d, c, line)) == InnerChain(d, c)
  {
    hide Bare, Strip, BlankLine, QuoteRest;
    InnerStrip(d, c, line);
    SpacesInFront(c, line);
    if c > 0 { assert Reaches(Inner(d, c, line), Item(d, c)); }
    KeptUnique(InnerChain(d, c), Inner(d, c, line), |InnerChain(d, c)|);
  }

  lemma {:induction false} InnerChains(head: seq<string>, d: nat, c: nat, inner: seq<string>)
    requires ChainAfter(head) == InnerChain(d, c) && forall k | 0 <= k < |inner| :: Bare(inner[k])
    ensures ChainAfter(head + InnerLines(d, c, inner)) == InnerChain(d, c)
  {
    hide Bare, NextChain, Inner;
    var all := head + InnerLines(d, c, inner);
    if inner == [] {
      assert all == head;
    } else {
      var n := |inner| - 1;
      InnerChains(head, d, c, inner[..n]);
      assert all[..|all| - 1] == head + InnerLines(d, c, inner[..n]) && all[|all| - 1] == Inner(d, c, inner[n]);
      ChainGrows(all[..|all| - 1], Inner(d, c, inner[n]));
      InnerKeepsChain(d, c, inner[n]);
      assert all == all[..|all| - 1] + [Inner(d, c, inner[n])];
    }
  }

  /** An inner line opens a fence exactly when the line itself does. */
  lemma InnerOpening(d: nat, c: nat, line: string, at: nat)
    requires Bare(line)
    ensures Opening(Inner(d, c, line), InnerChain(d, c), at)
            == if OpensFence(FenceDelimiter(line)) then
                 Some(Open(FenceDelimiter(line).value.mark, FenceDelimiter(line).value.width, d, InnerChain(d, c), c,
                           at))
               else None
  {
    hide Bare, Strip, QuoteRest, BareRun, BlankLine, Spaces, Quotes, IndentFrom, LeadingSpaces, DropBlanks;
    InnerStrip(d, c, line);
    SpacesInFront(c, line);
    Fences.DropTwice(line);
    BareColumns(line);
    InnerNotBlank(d, c, line);
    InnerMargin(d, c, line);
    assert ChainColumn(InnerChain(d, c), d) == c;
  }

  lemma BareColumns(line: string)
    requires Bare(line)
    ensures IndentFrom(line, 0) == LeadingSpaces(line)
  {
    BareTakesNothing(line);
    ExpandedColumns(line);
  }

  /** A delimiter is no blank line, wherever it stands. */
  lemma InnerNotBlank(d: nat, c: nat, line: string)
    ensures FenceRun(line).Some? ==> !BlankLine(Inner(d, c, line))
  {
    if FenceRun(line).Some? {
      RunIsText(line);
      var k :| 0 <= k < |line| && !IsSpace(line[k]);
      assert Inner(d, c, line)[|Quotes(d)| + c + k] == line[k];
    }
  }

  /** Quote markers stand at the margin, so what is behind them is no indented code. */
  lemma InnerMargin(d: nat, c: nat, line: string)
    ensures d > 0 ==> IndentFrom(Inner(d, c, line), 0) == 0
    ensures Quotes(d) == "" <==> d == 0
  {
  }

  /** An inner line does not leave the fence, and closes it exactly when the line itself does. */
  lemma InnerClosing(o: Open, d: nat, c: nat, line: string)
    requires Bare(line) && o.depth == d && o.items == InnerChain(d, c) && o.column == c
    ensures !Leaves(o, Inner(d, c, line))
    ensures Closes(o, Inner(d, c, line)) == PlainCloses(Plain(o.mark, o.width), line)
  {
    hide Bare, Strip, QuoteRest, BareRun, BlankLine, Spaces;
    InnerStrip(d, c, line);
    SpacesInFront(c, line);
    BareColumns(line);
  }

  /** The states of the two machines. */
  predicate SameInside(a: Option<Open>, b: Option<Plain>, d: nat, c: nat) {
    match (a, b)
    case (None, None) => true
    case (Some(o), Some(p)) => o == Open(p.mark, p.width, d, InnerChain(d, c), c, o.at)
    case _ => false
  }

  lemma PlainMaskOfPrefix(lines: seq<string>, n: nat, i: nat)
    requires i < n <= |lines|
    ensures PlainMasked(lines[..n], i) == PlainMasked(lines, i)
  {
    assert lines[..n][..i] == lines[..i];
  }

  /** The machine without containers, started in a state. */
  function PlainFrom(start: Option<Plain>, lines: seq<string>): Option<Plain> {
    if lines == [] then start else PlainStep(PlainFrom(start, lines[..|lines| - 1]), lines[|lines| - 1]).0
  }

  predicate PlainMaskedFrom(start: Option<Plain>, lines: seq<string>, i: nat)
    requires i < |lines|
  {
    PlainStep(PlainFrom(start, lines[..i]), lines[i]).1
  }

  /** Starting where some lines led is reading those lines first. */
  lemma {:induction false} FromAfter(before: seq<string>, lines: seq<string>)
    ensures PlainFrom(PlainAfter(before), lines) == PlainAfter(before + lines)
  {
    hide PlainStep;
    if lines == [] {
      assert before + lines == before;
    } else {
      FromAfter(before, lines[..|lines| - 1]);
      assert (before + lines)[..|before + lines| - 1] == before + lines[..|lines| - 1];
    }
  }

  lemma MaskedAfter(before: seq<string>, lines: seq<string>, i: nat)
    requires i < |lines|
    ensures PlainMaskedFrom(PlainAfter(before), lines, i) == PlainMasked(before + lines, |before| + i)
  {
    hide PlainStep, PlainFrom, PlainAfter;
    FromAfter(before, lines[..i]);
    assert (before + lines)[..|before| + i] == before + lines[..i];
  }

  lemma InnerStep(head: seq<string>, start: Option<Plain>, d: nat, c: nat, inner: seq<string>)
    requires inner != [] && ChainAfter(head) == InnerChain(d, c) && forall k | 0 <= k < |inner| :: Bare(inner[k])
    requires var front := inner[..|inner| - 1];
             SameInside(FenceAfter(head + InnerLines(d, c, front)), PlainFrom(start, front), d, c)
    ensures var n, all := |inner| - 1, head + InnerLines(d, c, inner);
            SameInside(FenceAfter(all), PlainFrom(start, inner), d, c)
            && Masked(all, |head| + n) == PlainStep(PlainFrom(start, inner[..n]), inner[n]).1
  {
    hide FenceStep, PlainStep, SameInside, Bare, Inner, InnerChain, InnerLines, Masked, FenceAfter, ChainAfter;
    var n, all := |inner| - 1, head + InnerLines(d, c, inner);
    LastInner(head, d, c, inner);
    InnerChains(head, d, c, inner);
    MaskedLast(all);
    StepInside(FenceAfter(all[..|all| - 1]), PlainFrom(start, inner[..n]), d, c, inner[n], |all| - 1);
  }

  /** The two machines take one inner line in step. */
  lemma StepInside(state: Option<Open>, plain: Option<Plain>, d: nat, c: nat, line: string, at: nat)
    requires Bare(line) && SameInside(state, plain, d, c)
    ensures var after, plainAfter := FenceStep(state, Inner(d, c, line), InnerChain(d, c), at), PlainStep(plain, line);
            SameInside(after.0, plainAfter.0, d, c) && after.1 == plainAfter.1
  {
    hide Opening, Leaves, Closes, PlainCloses, OpensFence, FenceDelimiter, Bare, Inner, InnerChain;
    InnerOpening(d, c, line, at);
    if state.Some? { InnerClosing(state.value, d, c, line); }
  }

  /** The last inner line, and what comes before it. */
  lemma LastInner(head: seq<string>, d: nat, c: nat, inner: seq<string>)
    requires inner != []
    ensures var n, all := |inner| - 1, head + InnerLines(d, c, inner);
            |all| == |head| + |inner| && all[|all| - 1] == Inner(d, c, inner[n])
            && all[..|all| - 1] == head + InnerLines(d, c, inner[..n])
  {
    hide Inner;
  }

  predicate AllBare(inner: seq<string>) { forall k | 0 <= k < |inner| :: Bare(inner[k]) }

  /** The lines so far open no container but these, and left the fence state that `start` is at the margin. */
  predicate Behind(head: seq<string>, start: Option<Plain>, d: nat, c: nat) {
    ChainAfter(head) == InnerChain(d, c) && SameInside(FenceAfter(head), start, d, c)
  }

  lemma {:induction false} InnerMachine(head: seq<string>, start: Option<Plain>, d: nat, c: nat, inner: seq<string>)
    requires Behind(head, start, d, c) && AllBare(inner)
    ensures SameInside(FenceAfter(head + InnerLines(d, c, inner)), PlainFrom(start, inner), d, c)
  {
    hide Bare, Inner;
    if inner == [] {
      assert head + InnerLines(d, c, inner) == head;
    } else {
      InnerMachine(head, start, d, c, inner[..|inner| - 1]);
      InnerStep(head, start, d, c, inner);
    }
  }

  lemma LastInnerMask(head: seq<string>, start: Option<Plain>, d: nat, c: nat, inner: seq<string>)
    requires Behind(head, start, d, c) && AllBare(inner) && inner != []
    ensures Masked(head + InnerLines(d, c, inner), |head| + |inner| - 1)
            == PlainMaskedFrom(start, inner, |inner| - 1)
  {
    hide Bare, Inner, InnerLines, Masked, PlainStep, PlainFrom, FenceAfter, ChainAfter, SameInside;
    InnerMachine(head, start, d, c, inner[..|inner| - 1]);
    InnerStep(head, start, d, c, inner);
  }

  lemma MaskOfPlainPrefix(start: Option<Plain>, lines: seq<string>, n: nat, i: nat)
    requires i < n <= |lines|
    ensures PlainMaskedFrom(start, lines[..n], i) == PlainMaskedFrom(start, lines, i)
  {
    assert lines[..n][..i] == lines[..i];
  }

  /**
   * Behind `d` quote markers and at the content column of an item opened there, a line is masked exactly
   * when it is masked among the lines without their containers.
   */
  lemma InnerMask(head: seq<string>, start: Option<Plain>, d: nat, c: nat, inner: seq<string>, i: nat)
    requires Behind(head, start, d, c) && AllBare(inner) && i < |inner|
    ensures Masked(head + InnerLines(d, c, inner), |head| + i) == PlainMaskedFrom(start, inner, i)
  {
    hide *;
    var upTo := inner[..i + 1];
    BareFront(inner, i + 1);
    LastInnerMask(head, start, d, c, upTo);
    MaskOfPlainPrefix(start, inner, i + 1, i);
    MaskUpTo(head, d, c, inner, i);
  }

  lemma BareFront(inner: seq<string>, n: nat)
    requires AllBare(inner) && n <= |inner|
    ensures AllBare(inner[..n])
  {
    hide Bare;
  }

  /** The lines after line `i` do not matter to it. */
  lemma MaskUpTo(head: seq<string>, d: nat, c: nat, inner: seq<string>, i: nat)
    requires i < |inner|
    ensures |InnerLines(d, c, inner)| == |inner| && |InnerLines(d, c, inner[..i + 1])| == i + 1
    ensures Masked(head + InnerLines(d, c, inner), |head| + i)
            == Masked(head + InnerLines(d, c, inner[..i + 1]), |head| + i)
  {
    hide Masked, InnerLines;
    var more := InnerMore(head, d, c, inner, i + 1);
    MaskOfPrefix(head + InnerLines(d, c, inner[..i + 1]), more, |head| + i);
  }

  lemma InnerMore(head: seq<string>, d: nat, c: nat, inner: seq<string>, n: nat) returns (more: seq<string>)
    requires n <= |inner|
    ensures head + InnerLines(d, c, inner) == (head + InnerLines(d, c, inner[..n])) + more
    ensures |InnerLines(d, c, inner[..n])| == n && |InnerLines(d, c, inner)| == |inner|
  {
    hide Inner;
    more := InnerLines(d, c, inner)[n..];
  }

  /** Inside block quotes, with one marker for each. */
  lemma QuotedFences(d: nat, inner: seq<string>, i: nat)
    requires i < |inner| && AllBare(inner)
    ensures Masked(InnerLines(d, 0, inner), i) == PlainMasked(inner, i)
  {
    hide Bare, Inner, Masked;
    assert [] + InnerLines(d, 0, inner) == InnerLines(d, 0, inner) && [] + inner == inner;
    InnerMask([], PlainAfter([]), d, 0, inner, i);
    MaskedAfter([], inner, i);
  }

  /** Inside a list item at quote depth `d`: `item` is the line that opens it, with its content column `c`. */
  lemma ItemFences(item: string, d: nat, c: nat, inner: seq<string>, i: nat)
    requires Strip(item).items == [Item(d, c)] && '`' !in item && '~' !in item && c > 0
    requires i < |inner| && AllBare(inner)
    ensures Masked([item] + InnerLines(d, c, inner), 1 + i) == PlainMasked(inner, i)
  {
    hide Bare, Inner, Masked, Strip;
    ItemLineAlone(item, d, c);
    assert [] + inner == inner;
    InnerMask([item], PlainAfter([]), d, c, inner, i);
    MaskedAfter([], inner, i);
  }

  lemma ItemLineAlone(item: string, d: nat, c: nat)
    requires Strip(item).items == [Item(d, c)] && '`' !in item && '~' !in item && c > 0
    ensures ChainAfter([item]) == InnerChain(d, c) && FenceAfter([item]).None?
  {
    hide Strip, BareRun;
    NoMarkNoRun(item);
    assert [item][..0] == [] && ChainAfter([]) == [];
    if BlankLine(item) { BlankOpensNothing(item); }
  }

  // ---- Leaving the containers -----------------------------------------------------------------

  /** A text that starts with no space and no marker, and holds no tab. */
  predicate Flush(text: string) { Bare(text) && text != "" && !IsSpace(text[0]) }

  /** A line of `e` quote markers and `f` spaces leaves an item iff it falls short of its quotes or its column. */
  lemma LeavesItemIff(e: nat, f: nat, text: string, item: Item)
    requires Flush(text)
    ensures LeavesItem(Inner(e, f, text), item)
            <==> e < item.depth || (e > item.depth && item.column > 0) || (e == item.depth && f < item.column)
  {
    hide Bare, QuoteMarker, LeadingSpaces, BlankLine, Spaces;
    var rest := Spaces(f) + text;
    InnerTabFree(f, text);
    QuotedExpand(e, rest);
    SpacedTakesNothing(f, text);
    Indented(f, text);
    if e < item.depth {
      QuotesReadBeyond(e, rest, item.depth);
    } else {
      QuotesRead(e, rest, item.depth);
      if e > item.depth {
        Indented(0, Quotes(e - item.depth) + rest);
        assert Spaces(0) + (Quotes(e - item.depth) + rest) == Quotes(e - item.depth) + rest;
      } else {
        assert Quotes(0) + rest == rest;
      }
    }
  }

  /** A blank line behind an item's own quotes never leaves it. */
  lemma BlankStays(f: nat, item: Item)
    ensures !LeavesItem(Inner(item.depth, f, ""), item)
  {
    hide QuoteMarker;
    var rest := Spaces(f) + "";
    NoTabsNoChange(rest, 0);
    QuotedExpand(item.depth, rest);
    QuotesRead(item.depth, rest, item.depth);
    assert Quotes(0) + rest == rest;
  }

  lemma LeavesIff(o: Open, e: nat, f: nat, text: string)
    requires Flush(text)
    ensures Leaves(o, Inner(e, f, text))
            <==> e < o.depth
                 || exists k | 0 <= k < |o.items| ::
                      e < o.items[k].depth || (e > o.items[k].depth && o.items[k].column > 0)
                      || (e == o.items[k].depth && f < o.items[k].column)
  {
    hide Bare, Strip, LeavesItem, Inner;
    InnerStrip(e, f, text);
    forall item | item in o.items
      ensures LeavesItem(Inner(e, f, text), item)
              <==> e < item.depth || (e > item.depth && item.column > 0) || (e == item.depth && f < item.column)
    {
      LeavesItemIff(e, f, text, item);
    }
  }

  lemma FlushText(text: string)
    requires text != "" && !IsSpace(text[0]) && text[0] !in "`~"
    ensures DropBlanks(text) == text && FenceRun(text).None?
  {
  }

  /**
   * Behind an open fence a line of text is in it iff it carries the fence's quotes and, where the fence stands
   * in an item, no further ones and the item's column.
   */
  lemma FenceLeftIff(head: seq<string>, start: Option<Plain>, d: nat, c: nat, inner: seq<string>, e: nat, f: nat,
                     text: string)
    requires Behind(head, start, d, c) && AllBare(inner) && PlainFrom(start, inner).Some?
    requires Flush(text) && text[0] !in "`~"
    ensures var lines := head + InnerLines(d, c, inner) + [Inner(e, f, text)];
            Masked(lines, |lines| - 1) <==> e >= d && (c > 0 ==> e == d && f >= c)
  {
    hide Bare, Inner, InnerLines, Strip, Leaves, Closes, BlankLine, QuoteRest, Spaces;
    var front := head + InnerLines(d, c, inner);
    var line := Inner(e, f, text);
    InnerMachine(head, start, d, c, inner);
    var o := FenceAfter(front).value;
    LeavesIff(o, e, f, text);
    InnerStrip(e, f, text);
    SpacesInFront(f, text);
    Fences.DropTwice(text);
    FlushText(text);
    MaskedLast(front + [line]);
    assert (front + [line])[..|front|] == front;
    assert o.items == InnerChain(d, c) && (c > 0 ==> o.items[0] == Item(d, c));
    assert Opening(line, ChainAfter(front + [line]), |front|).None?;
  }

  /**
   * An item whose own first line opens a fence: `ms` are the markers of that line, the item's the last, and
   * `text` is what stands behind them. The lines under it are read as if they followed `text` at the margin.
   */
  lemma ItemOpeningFence(ms: seq<Marker>, text: string, d: nat, c: nat, inner: seq<string>, i: nat)
    requires WellSpelled(ms, text) && Bare(text) && '\t' !in Spell(ms, text) && c > 0
    requires ms != [] && Opened(ms, 0, 0) == [Item(d, c)] && QuoteCount(ms) == d
    requires ms[0].indent <= (if d == 0 then c else 0) + 3
    requires i < |inner| && AllBare(inner)
    ensures var lines := [Spell(ms, text)] + InnerLines(d, c, inner);
            Masked(lines, 0) == PlainMasked([text] + inner, 0)
            && Masked(lines, 1 + i) == PlainMasked([text] + inner, 1 + i)
  {
    hide Bare, Inner, Masked, PlainMasked, Strip, Opening, WellSpelled, Spell;
    var item := Spell(ms, text);
    ItemLineOpening(ms, text, d, c);
    InnerMask([item], PlainAfter([text]), d, c, inner, i);
    MaskedAfter([text], inner, i);
    FirstMasked(item, text, InnerLines(d, c, inner), inner);
  }

  /** The first line of either document. */
  lemma FirstMasked(item: string, text: string, more: seq<string>, inner: seq<string>)
    requires Masked([item], 0) == PlainMasked([text], 0)
    ensures Masked([item] + more, 0) == PlainMasked([text] + inner, 0)
  {
    hide Masked;
    MaskOfPrefix([item], more, 0);
    assert ([text] + inner)[..0] == [text][..0];
  }

  lemma ItemLineOpening(ms: seq<Marker>, text: string, d: nat, c: nat)
    requires WellSpelled(ms, text) && Bare(text) && '\t' !in Spell(ms, text) && c > 0
    requires ms != [] && Opened(ms, 0, 0) == [Item(d, c)] && QuoteCount(ms) == d
    requires ms[0].indent <= (if d == 0 then c else 0) + 3
    ensures var item := Spell(ms, text);
            Behind([item], PlainAfter([text]), d, c)
            && Masked([item], 0) == PlainMasked([text], 0)
  {
    hide Bare, Strip, Opening, WellSpelled, Spell, OpensFence, FenceDelimiter, BlankLine;
    var item := Spell(ms, text);
    BareTakesNothing(text);
    SpelledIndent(ms, text);
    StripSpelled(ms, text);
    MarkerLineOpens(ms, text, [Item(d, c)], 0);
    assert [item][..0] == [] && ChainAfter([]) == [] && [text][..0] == [];
    assert ChainAfter([item]) == [Item(d, c)];
    assert ChainColumn([Item(d, c)], d) == c;
    MaskedLast([item]);
    assert PlainAfter([text]) == PlainStep(None, text).0;
    assert FenceAfter([item]) == Opening(item, [Item(d, c)], 0);
  }

  /** A line of markers is indented as its first marker is, and is not blank. */
  lemma SpelledIndent(ms: seq<Marker>, text: string)
    requires ms != [] && WellSpelled(ms, text) && '\t' !in Spell(ms, text)
    ensures IndentFrom(Spell(ms, text), 0) == ms[0].indent && !BlankLine(Spell(ms, text))
  {
    hide Spaces, LeadingSpaces, BlankLine;
    var line := Spell(ms, text);
    NoTabsNoChange(line, 0);
    ExpandedColumns(line);
    match ms[0]
    case Quote(n, spaced) => Indented(n, ">" + ((if spaced then " " else "") + Spell(ms[1..], text)));
    case Bullet(n, head, gap) =>
      HeadIsText(head);
      Indented(n, head + (Spaces(gap) + Spell(ms[1..], text)));
  }

  lemma HeadIsText(head: string)
    requires IsHead(head)
    ensures head != "" && !IsSpace(head[0])
  {
    if |head| > 1 { assert IsDigit(head[..|head| - 1][0]); }
  }

  lemma Indented(n: nat, rest: string)
    requires rest != "" && !IsSpace(rest[0])
    ensures LeadingSpaces(Spaces(n) + rest) == n && !BlankLine(Spaces(n) + rest)
  {
    SpacesThen(n, rest);
    assert (Spaces(n) + rest)[n] == rest[0];
  }

  /** A line of markers opens a fence iff what is behind them does. */
  lemma MarkerLineOpens(ms: seq<Marker>, text: string, chain: Chain, at: nat)
    requires WellSpelled(ms, text) && Bare(text) && '\t' !in Spell(ms, text) && Opened(ms, 0, 0) != []
    requires ms != [] && ms[0].indent <= ChainColumn(chain, 0) + 3
    ensures Opening(Spell(ms, text), chain, at)
            == if OpensFence(FenceDelimiter(text)) then
                 Some(Open(FenceDelimiter(text).value.mark, FenceDelimiter(text).value.width, QuoteCount(ms), chain,
                           ChainColumn(chain, QuoteCount(ms)), at))
               else None
  {
    hide Bare, Strip, Spell, WellSpelled, Opened, BareRun, BlankLine, QuoteCount;
    BareTakesNothing(text);
    StripSpelled(ms, text);
    BareColumns(text);
    Fences.DropTwice(text);
    SpelledIndent(ms, text);
  }

  /** Without a mark in the line there is no delimiter in its content. */
  lemma NoMarkNoRun(line: string)
    requires '`' !in line && '~' !in line
    ensures FenceRun(DropBlanks(Strip(line).content)).None?
  {
    hide Strip;
    var content := Strip(line).content;
    ContentCharacters(line);
    var t := DropBlanks(DropBlanks(content));
    if t != "" { assert t[0] in content; }
  }

  /** The content of a line is made of its characters, and of spaces. */
  lemma ContentCharacters(line: string)
    ensures forall x | x in Strip(line).content :: x == ' ' || x in line
  {
    hide Strip;
    StripConservesColumns(line);
    ExpandedCharacters(line, 0);
    var prefix, content := Strip(line).prefix, Strip(line).content;
    forall x | x in content ensures x in Expand(line) { assert x in prefix + content; }
  }

  lemma {:induction false} ExpandedCharacters(line: string, col: nat)
    ensures forall x | x in ExpandFrom(line, col) :: x == ' ' || x in line
  {
    if line != "" { ExpandedCharacters(line[1..], col + Width(line[0], col)); }
  }

  lemma {:induction false} BlankOpensNothing(line: string)
    requires BlankLine(line)
    ensures Strip(line).items == []
  {
    ExpandedCharacters(line, 0);
    var e := Expand(line);
    forall x | x in e ensures IsSpace(x) {
      if x in line { var k :| 0 <= k < |line| && line[k] == x; }
    }
    var n := LeadingSpaces(e);
    assert n < |e| ==> e[n] in e && IsSpace(e[n]);
    assert QuoteMarker(e).None?;
    assert ItemMarker(e).None? by { assert e[n..] != "" ==> e[n..][0] == e[n]; }
    assert TakeAll(Start(line)) == Start(line);
  }
}
