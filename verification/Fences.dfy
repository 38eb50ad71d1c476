/** Fenced code blocks in `scripts/check-docs.py` (CommonMark 0.31, section 4.5). */
module Fences {
  import opened Ascii
  import opened Wrappers
  import opened Columns
  import opened Containers

  // ---- Delimiters ---------------------------------------------------------------------------

  /** A run of three or more backticks or tildes, and the info string after it. */
  datatype Run = Run(mark: char, width: nat, info: string)

  /** How many times `c` is repeated at the front. */
  function Repeats(s: string, c: char): (n: nat)
    ensures n <= |s|
  {
    if s == [] || s[0] != c then 0 else 1 + Repeats(s[1..], c)
  }

  /** A delimiter at the front of a text without indentation. */
  function BareRun(t: string): Option<Run> {
    if t == [] || t[0] !in "`~" || Repeats(t, t[0]) < 3 then None
    else Some(Run(t[0], Repeats(t, t[0]), t[Repeats(t, t[0])..]))
  }

  /** `fence_run` */
  function FenceRun(text: string): Option<Run> { BareRun(DropBlanks(text)) }

  /** `opens_fence`: a backtick fence may not have a backtick in its info string. */
  predicate OpensFence(run: Option<Run>) { run.Some? && !(run.value.mark == '`' && '`' in run.value.info) }

  /** `fence_delimiter`: the top-level delimiter, at most three columns in. */
  function FenceDelimiter(line: string): Option<Run> {
    if IndentFrom(line, 0) > 3 then None else FenceRun(line)
  }

  // ---- The machine --------------------------------------------------------------------------

  /** The innermost item's column when it sits in the frame at `depth`, or 0. */
  function ChainColumn(chain: Chain, depth: nat): nat {
    if chain != [] && chain[|chain| - 1].depth == depth then chain[|chain| - 1].column else 0
  }

  /** An open fence: its delimiter, the containers it was opened in, and the opener's line index. */
  datatype Open = Open(mark: char, width: nat, depth: nat, items: Chain, column: nat, at: nat)

  /** The line leaves the item: it does not carry the item's quotes, or is dedented inside them. */
  predicate LeavesItem(line: string, item: Item) {
    match QuoteRest(line, item.depth)
    case None => true
    case Some(rest) => !BlankLine(rest) && LeadingSpaces(rest) < item.column
  }

  /** The line leaves a container the fence was opened in. */
  predicate Leaves(o: Open, line: string) {
    Strip(line).depth < o.depth || exists k | 0 <= k < |o.items| :: LeavesItem(line, o.items[k])
  }

  /** The line is the fence's closer. */
  predicate Closes(o: Open, line: string) {
    match QuoteRest(line, o.depth)
    case None => false
    case Some(rest) =>
      match FenceRun(rest)
      case None => false
      case Some(run) =>
        && LeadingSpaces(rest) - o.column <= 3
        && run.mark == o.mark && run.width >= o.width
        && AllIn(run.info, IsBlank)
  }

  /** The fence a line opens in its chain, if any. */
  function Opening(line: string, chain: Chain, at: nat): Option<Open> {
    var s := Strip(line);
    var run := FenceRun(DropBlanks(s.content));
    var indent: int :=
      if s.items != [] then IndentFrom(s.content, 0)
      else
        match QuoteRest(line, s.depth)
        case None => 4
        case Some(rest) => LeadingSpaces(rest) - ChainColumn(chain, s.depth);
    var genuine := s.prefix == "" || IndentFrom(line, 0) <= ChainColumn(chain, 0) + 3;
    if !BlankLine(line) && genuine && OpensFence(run) && indent <= 3 then
      Some(Open(run.value.mark, run.value.width, s.depth, chain, ChainColumn(chain, s.depth), at))
    else None
  }

  /** One line: the fence open after it, and whether the line belongs to a fence. */
  function FenceStep(state: Option<Open>, line: string, chain: Chain, at: nat): (Option<Open>, bool) {
    if state.Some? && !Leaves(state.value, line) then
      (if Closes(state.value, line) then None else state, true)
    else
      var o := Opening(line, chain, at);
      (o, o.Some?)
  }

  /** The fence open after the lines of a document. */
  function FenceAfter(lines: seq<string>): Option<Open> {
    if lines == [] then None
    else
      var n := |lines| - 1;
      FenceStep(FenceAfter(lines[..n]), lines[n], ChainAfter(lines), n).0
  }

  /** Line `i` of a document is inside a fence or delimits one. */
  predicate Masked(lines: seq<string>, i: nat)
    requires i < |lines|
  {
    FenceStep(FenceAfter(lines[..i]), lines[i], ChainAfter(lines[..i + 1]), i).1
  }

  lemma StepAt(lines: seq<string>, i: nat)
    requires i < |lines|
    ensures (FenceAfter(lines[..i + 1]), Masked(lines, i))
            == FenceStep(FenceAfter(lines[..i]), lines[i], ChainAfter(lines[..i + 1]), i)
  {
    hide FenceStep;
    assert lines[..i + 1][..i] == lines[..i];
  }

  lemma NothingOpen(lines: seq<string>)
    ensures FenceAfter(lines[..0]) == None
  {
  }

  /** The loop over the items the fence was opened in. */
  method LeftSomeItem(items: Chain, line: string) returns (ended: bool)
    ensures ended <==> exists k | 0 <= k < |items| :: LeavesItem(line, items[k])
  {
    for k := 0 to |items|
      invariant forall j | 0 <= j < k :: !LeavesItem(line, items[j])
    {
      var rest := ComputeQuoteRest(line, items[k].depth);
      if rest.None? {
        assert LeavesItem(line, items[k]);
        return true;
      }
      if BlankLine(rest.value) { continue; }
      if LeadingSpaces(rest.value) < items[k].column {
        assert LeavesItem(line, items[k]);
        return true;
      }
    }
    return false;
  }

  /** The dedent test: the quote depth first, then every item. */
  method LeftFence(o: Open, line: string) returns (ended: bool)
    ensures ended == Leaves(o, line)
  {
    var s := StripContainers(line);
    ended := s.depth < o.depth;
    if !ended && o.items != [] { ended := LeftSomeItem(o.items, line); }
  }

  /** The body of the loop, for one line. */
  method FenceLine(state: Option<Open>, line: string, chain: Chain, at: nat)
    returns (state': Option<Open>, masked: bool)
    ensures (state', masked) == FenceStep(state, line, chain, at)
  {
    state' := state;
    if state'.Some? {
      var ended := LeftFence(state'.value, line);
      if !ended {
        if Closes(state'.value, line) { state' := None; }
        return state', true;
      }
      state' := None;
    }
    state' := Opening(line, chain, at);
    masked := state'.Some?;
  }

  /** `fence_mask`: the mask, and the 1-based line of an opener that was never closed. */
  method FenceMask(lines: seq<string>) returns (mask: array<bool>, openedAt: Option<nat>)
    ensures mask.Length == |lines| && forall i | 0 <= i < |lines| :: mask[i] == Masked(lines, i)
    ensures openedAt == match FenceAfter(lines) case None => None case Some(o) => Some(o.at + 1)
  {
    hide FenceStep, Masked, FenceAfter, ChainAfter;
    mask := new bool[|lines|](_ => false);
    var state: Option<Open> := None;
    var chains := ContainerChains(lines);
    NothingOpen(lines);
    for i := 0 to |lines|
      invariant state == FenceAfter(lines[..i])
      invariant forall k | 0 <= k < i :: mask[k] == Masked(lines, k)
      invariant forall k | i <= k < |lines| :: !mask[k]
    {
      StepAt(lines, i);
      var masked;
      state, masked := FenceLine(state, lines[i], chains[i], i);
      if masked { mask[i] := true; }
    }
    assert lines[..|lines|] == lines;
    openedAt := match state case None => None case Some(o) => Some(o.at + 1);
  }

  // ---- Properties over every document -------------------------------------------------------

  /** The mask is computed from the lines so far: later lines never change it. */
  lemma MaskOfPrefix(lines: seq<string>, more: seq<string>, i: nat)
    requires i < |lines|
    ensures Masked(lines + more, i) == Masked(lines, i)
  {
    assert (lines + more)[..i] == lines[..i] && (lines + more)[..i + 1] == lines[..i + 1];
  }

  /** The fence open after `n` lines, read from a longer document. */
  lemma MaskedLast(lines: seq<string>)
    requires lines != []
    ensures var n := |lines| - 1;
            (FenceAfter(lines), Masked(lines, n)) == FenceStep(FenceAfter(lines[..n]), lines[n], ChainAfter(lines), n)
  {
    assert lines[..|lines|] == lines;
  }

  /**
   * An opener reported as unclosed: every line from it to the end of the document is masked, and
   * the line before it is not in the same fence.
   */
  lemma {:induction false} UnclosedMasksToEnd(lines: seq<string>)
    requires FenceAfter(lines).Some?
    ensures var at := FenceAfter(lines).value.at;
            && at < |lines|
            && Opening(lines[at], ChainAfter(lines[..at + 1]), at) == FenceAfter(lines)
            && forall j | at <= j < |lines| :: Masked(lines, j)
  {
    hide Opening, Leaves, Closes, Masked;
    var n := |lines| - 1;
    var before := FenceAfter(lines[..n]);
    MaskedLast(lines);
    assert lines[..n + 1] == lines && lines == lines[..n] + [lines[n]];
    if before.Some? && !Leaves(before.value, lines[n]) {
      UnclosedMasksToEnd(lines[..n]);
      var at := before.value.at;
      assert lines[..n][..at + 1] == lines[..at + 1];
      forall j | at <= j < n ensures Masked(lines, j) { MaskOfPrefix(lines[..n], [lines[n]], j); }
    } else {
      OpeningAt(lines[n], ChainAfter(lines), n);
    }
  }

  lemma OpeningAt(line: string, chain: Chain, at: nat)
    ensures Opening(line, chain, at).Some? ==> Opening(line, chain, at).value.at == at
  {
  }

  // ---- The plain machine of section 4.5 -----------------------------------------------------

  /** Without containers a fence is its delimiter's character and width. */
  datatype Plain = Plain(mark: char, width: nat)

  predicate PlainCloses(p: Plain, line: string) {
    var d := FenceDelimiter(line);
    d.Some? && d.value.mark == p.mark && d.value.width >= p.width && AllIn(d.value.info, IsBlank)
  }

  function PlainStep(state: Option<Plain>, line: string): (Option<Plain>, bool) {
    match state
    case Some(p) => (if PlainCloses(p, line) then None else state, true)
    case None =>
      var d := FenceDelimiter(line);
      if OpensFence(d) then (Some(Plain(d.value.mark, d.value.width)), true) else (None, false)
  }

  function PlainAfter(lines: seq<string>): Option<Plain> {
    if lines == [] then None else PlainStep(PlainAfter(lines[..|lines| - 1]), lines[|lines| - 1]).0
  }

  predicate PlainMasked(lines: seq<string>, i: nat)
    requires i < |lines|
  {
    PlainStep(PlainAfter(lines[..i]), lines[i]).1
  }

  /** No line carries a container marker. */
  predicate NoContainers(lines: seq<string>) { forall k | 0 <= k < |lines| :: Strip(lines[k]).prefix == "" }

  /** A line without a prefix opens nothing and is its own content. */
  lemma BareLine(line: string)
    requires Strip(line).prefix == ""
    ensures Strip(line) == Stripped("", Expand(line), 0, 0, [])
  {
    TakeAllSplits(Start(line));
    TakeAllMoves(Start(line));
  }

  /** Every marker takes at least a column. */
  lemma TakeAllMoves(w: Walk)
    requires w.base <= w.pos
    ensures Take(w).None? ==> TakeAll(w) == w
    ensures Take(w).Some? ==> TakeAll(w).pos > w.pos
  {
    match Take(w)
    case None =>
    case Some(next) => TakeAllSplits(next);
  }

  lemma {:induction false} BareChain(lines: seq<string>)
    requires NoContainers(lines)
    ensures ChainAfter(lines) == []
  {
    hide Strip;
    if lines != [] {
      BareChain(lines[..|lines| - 1]);
      BareLine(lines[|lines| - 1]);
    }
  }

  // ---- Delimiters before and after tab expansion --------------------------------------------

  lemma {:induction false} RepeatsExpanded(t: string, c: char, col: nat)
    requires c != '\t' && c != ' '
    ensures Repeats(ExpandFrom(t, col), c) == Repeats(t, c)
    ensures ExpandFrom(t, col)[Repeats(t, c)..] == ExpandFrom(t[Repeats(t, c)..], col + Repeats(t, c))
  {
    if t != [] && t[0] == c {
      var rest := ExpandFrom(t[1..], col + 1);
      assert ExpandFrom(t, col) == [c] + rest;
      assert ExpandFrom(t, col)[1..] == rest;
      RepeatsExpanded(t[1..], c, col + 1);
      var n := Repeats(t[1..], c);
      assert ([c] + rest)[n + 1..] == rest[n..];
      assert t[n + 1..] == t[1..][n..];
    } else if t != [] {
      assert ExpandFrom(t, col)[0] == (if t[0] == '\t' then ' ' else t[0]);
      assert ExpandFrom(t, col)[0..] == ExpandFrom(t, col);
    }
  }

  lemma {:induction false} InfoExpanded(s: string, col: nat)
    ensures AllIn(ExpandFrom(s, col), IsBlank) <==> AllIn(s, IsBlank)
    ensures '`' in ExpandFrom(s, col) <==> '`' in s
  {
    if s != [] {
      var first := if s[0] == '\t' then Spaces(Width('\t', col)) else [s[0]];
      var rest := ExpandFrom(s[1..], col + Width(s[0], col));
      InfoExpanded(s[1..], col + Width(s[0], col));
      assert s == [s[0]] + s[1..];
      AllInConcat([s[0]], s[1..]);
      AllInConcat(first, rest);
      assert first[0] == s[0] || (s[0] == '\t' && first[0] == ' ');
    }
  }

  lemma AllInConcat(s: string, t: string)
    ensures AllIn(s + t, IsBlank) <==> AllIn(s, IsBlank) && AllIn(t, IsBlank)
  {
    forall k | 0 <= k < |s| ensures (s + t)[k] == s[k] {}
    forall k | 0 <= k < |t| ensures (s + t)[|s| + k] == t[k] {}
  }

  /** Two delimiters that differ at most by tabs in their info strings. */
  predicate SameDelimiter(a: Option<Run>, b: Option<Run>) {
    && a.Some? == b.Some?
    && (a.Some? ==>
          && a.value.mark == b.value.mark && a.value.width == b.value.width
          && AllIn(a.value.info, IsBlank) == AllIn(b.value.info, IsBlank)
          && ('`' in a.value.info) == ('`' in b.value.info))
  }

  lemma BareRunExpanded(t: string, col: nat)
    requires t == [] || !IsBlank(t[0])
    ensures SameDelimiter(BareRun(ExpandFrom(t, col)), BareRun(t))
  {
    ExpandedHead(t, col);
    if t != [] {
      var n := Repeats(t, t[0]);
      RepeatsExpanded(t, t[0], col);
      InfoExpanded(t[n..], col + n);
    }
  }

  /** What follows an expanded line's indentation is the expansion of what follows its blanks. */
  lemma DropExpanded(line: string)
    ensures DropBlanks(Expand(line)) == ExpandFrom(DropBlanks(line), IndentFrom(line, 0))
  {
    var t, n := DropBlanks(line), IndentFrom(line, 0);
    ExpandedIndent(line, 0);
    BlanksDropped(line);
    ExpandedHead(t, n);
    DropLeading(n, ExpandFrom(t, n));
  }

  lemma BlanksDropped(line: string)
    ensures DropBlanks(line) == [] || !IsBlank(DropBlanks(line)[0])
  {
  }

  lemma DropLeading(n: nat, rest: string)
    requires rest == [] || !IsBlank(rest[0])
    ensures DropBlanks(Spaces(n) + rest) == rest
  {
    RunLengthUnique(Spaces(n) + rest, IsBlank, n);
  }

  lemma DropTwice(s: string)
    ensures DropBlanks(DropBlanks(s)) == DropBlanks(s)
  {
  }

  /** Expanding a line's tabs does not change what delimiter it is. */
  lemma FenceRunExpanded(line: string)
    ensures SameDelimiter(FenceRun(Expand(line)), FenceRun(line))
  {
    hide BareRun, ExpandFrom, SameDelimiter, DropBlanks, Expand;
    DropExpanded(line);
    BlanksDropped(line);
    BareRunExpanded(DropBlanks(line), IndentFrom(line, 0));
  }

  lemma RunIsText(line: string)
    requires FenceRun(line).Some?
    ensures !BlankLine(line)
  {
    var n := RunLength(line, IsBlank);
    assert line[n] == DropBlanks(line)[0] && !IsSpace(line[n]);
  }

  /** A line without containers opens a fence exactly when it is a top-level opening delimiter. */
  lemma PlainOpening(line: string, at: nat)
    requires Strip(line).prefix == ""
    ensures Opening(line, [], at) ==
            if OpensFence(FenceDelimiter(line)) then
              Some(Open(FenceDelimiter(line).value.mark, FenceDelimiter(line).value.width, 0, [], 0, at))
            else None
  {
    hide Strip, FenceRun, DropBlanks, Expand, BlankLine, IndentFrom;
    BareLine(line);
    FenceRunExpanded(line);
    ContentRun(line);
    ExpandedColumns(line);
    if FenceRun(line).Some? { RunIsText(line); }
  }

  lemma ContentRun(line: string)
    ensures FenceRun(DropBlanks(Expand(line))) == FenceRun(Expand(line))
  {
    DropTwice(Expand(line));
  }

  lemma ExpandedColumns(line: string)
    ensures QuoteRest(line, 0) == Some(Expand(line)) && LeadingSpaces(Expand(line)) == IndentFrom(line, 0)
  {
    IndentIsExpandedSpaces(line, 0);
  }

  /** A line without containers leaves no top-level fence, and closes it as a top-level closer. */
  lemma PlainClosing(o: Open, line: string)
    requires Strip(line).prefix == ""
    requires o.depth == 0 && o.items == [] && o.column == 0
    ensures !Leaves(o, line) && Closes(o, line) == PlainCloses(Plain(o.mark, o.width), line)
  {
    hide Strip, FenceRun, Expand, IndentFrom;
    BareLine(line);
    FenceRunExpanded(line);
    ExpandedColumns(line);
  }

  /** The states of the two machines. */
  predicate SameState(a: Option<Open>, b: Option<Plain>) {
    match (a, b)
    case (None, None) => true
    case (Some(o), Some(p)) => o == Open(p.mark, p.width, 0, [], 0, o.at)
    case _ => false
  }

  lemma {:induction false} PlainMachineState(lines: seq<string>)
    requires NoContainers(lines)
    ensures SameState(FenceAfter(lines), PlainAfter(lines))
  {
    hide Opening, Leaves, Closes, PlainCloses, OpensFence, FenceDelimiter, Strip;
    if lines != [] {
      var n := |lines| - 1;
      PlainMachineState(lines[..n]);
      BareChain(lines);
      PlainOpening(lines[n], n);
      if FenceAfter(lines[..n]).Some? { PlainClosing(FenceAfter(lines[..n]).value, lines[n]); }
    }
  }

  /**
   * Where no line carries a container marker, the fence machine is the two-state machine of
   * section 4.5: an opener, everything up to a closer of its character and at least its width, and
   * the closer.
   */
  lemma FenceRefinesPlain(lines: seq<string>, i: nat)
    requires NoContainers(lines) && i < |lines|
    ensures Masked(lines, i) == PlainMasked(lines, i)
  {
    hide Opening, Leaves, Closes, PlainCloses, OpensFence, FenceDelimiter, Strip;
    PlainMachineState(lines[..i]);
    BareChain(lines[..i + 1]);
    PlainOpening(lines[i], i);
    if FenceAfter(lines[..i]).Some? { PlainClosing(FenceAfter(lines[..i]).value, lines[i]); }
  }
}
