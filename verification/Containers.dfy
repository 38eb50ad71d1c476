/**
 * Block quotes and list items in `scripts/check-docs.py` (CommonMark 0.31, sections 5.1 and 5.2), and
 * the chain of list items carried from line to line.
 */
module Containers {
  import opened Ascii
  import opened Wrappers
  import opened Columns

  // ---- One marker ---------------------------------------------------------------------------

  /** `quote_marker`: the columns of one `>` with its indentation and at most one space after it. */
  function QuoteMarker(rest: string): (r: Option<nat>)
    ensures r.Some? ==> LeadingSpaces(rest) < r.value <= |rest|
  {
    var indent := LeadingSpaces(rest);
    if indent == |rest| || rest[indent] != '>' then None
    else if indent + 1 < |rest| && rest[indent + 1] == ' ' then Some(indent + 2)
    else Some(indent + 1)
  }

  /** `LIST_MARKER_HEAD`: the length of a bullet or of one to nine digits and a delimiter. */
  function MarkerHead(body: string): (r: Option<nat>)
    ensures r.Some? ==> 0 < r.value <= |body|
  {
    if body == [] then None
    else if body[0] in "-*+" then Some(1)
    else
      var n := RunLength(body, IsDigit);
      if 1 <= n <= 9 && n < |body| && body[n] in ".)" then Some(n + 1) else None
  }

  /**
   * The columns a list marker takes: its indentation, the marker, and the one to four columns of
   * space that belong to it; a fifth column, or nothing after them, leaves it one.
   */
  function ItemMarker(rest: string): (r: Option<nat>)
    ensures r.Some? ==> LeadingSpaces(rest) < r.value <= |rest|
  {
    var indent := LeadingSpaces(rest);
    var body := rest[indent..];
    match MarkerHead(body)
    case None => None
    case Some(after) =>
      var tail := body[after..];
      var spaces := LeadingSpaces(tail);
      if spaces == 0 then None
      else Some(indent + after + (if spaces >= 5 || spaces == |tail| then 1 else spaces))
  }

  // ---- One line -----------------------------------------------------------------------------

  /** A list item: the quote depth it sits at and its content column inside that quote. */
  datatype Item = Item(depth: nat, column: nat)

  type Chain = seq<Item>

  /** The walk of `strip_containers`: what is left, the columns consumed, and what they opened. */
  datatype Walk = Walk(rest: string, pos: nat, base: nat, depth: nat, columns: nat, items: Chain)

  /** Consumes one marker, or nothing where no container starts. */
  function Take(w: Walk): Option<Walk>
    requires w.base <= w.pos
  {
    match QuoteMarker(w.rest)
    case Some(take) => Some(Walk(w.rest[take..], w.pos + take, w.pos + take, w.depth + 1, 0, w.items))
    case None =>
      match ItemMarker(w.rest)
      case None => None
      case Some(take) =>
        var columns := w.pos + take - w.base;
        Some(Walk(w.rest[take..], w.pos + take, w.base, w.depth, columns, w.items + [Item(w.depth, columns)]))
  }

  /** Consumes every marker. */
  function TakeAll(w: Walk): (r: Walk)
    requires w.base <= w.pos
    ensures r.base <= r.pos
    decreases |w.rest|
  {
    match Take(w)
    case None => w
    case Some(next) => TakeAll(next)
  }

  function Start(line: string): Walk { Walk(Expand(line), 0, 0, 0, 0, []) }

  /** What `strip_containers` returns. */
  datatype Stripped = Stripped(prefix: string, content: string, depth: nat, columns: nat, items: Chain)

  function Strip(line: string): Stripped {
    var w := TakeAll(Start(line));
    TakeAllSplits(Start(line));
    Stripped(Expand(line)[..w.pos], w.rest, w.depth, w.columns, w.items)
  }

  /** `strip_containers` */
  method StripContainers(line: string) returns (r: Stripped)
    ensures r == Strip(line)
  {
    hide TakeAll, Take, QuoteMarker, ItemMarker, Expand;
    var expanded := ExpandTabs(line);
    var rest: string, pos: nat, base: nat, depth: nat, columns: nat := expanded, 0, 0, 0, 0;
    var items: Chain := [];
    while true
      invariant base <= pos
      invariant TakeAll(Walk(rest, pos, base, depth, columns, items)) == TakeAll(Start(line))
      decreases |rest|
    {
      TakeAllStep(Walk(rest, pos, base, depth, columns, items));
      var quote := QuoteMarker(rest);
      if quote.Some? {
        rest, pos := rest[quote.value..], pos + quote.value;
        base, depth, columns := pos, depth + 1, 0;
        continue;
      }
      var take := ItemMarker(rest);
      if take.None? { break; }
      columns := pos + take.value - base;
      items := items + [Item(depth, columns)];
      rest, pos := rest[take.value..], pos + take.value;
    }
    TakeAllSplits(Start(line));
    return Stripped(expanded[..pos], rest, depth, columns, items);
  }

  /** The walk, one marker at a time. */
  lemma TakeAllStep(w: Walk)
    requires w.base <= w.pos
    ensures match QuoteMarker(w.rest)
            case Some(take) =>
              TakeAll(w) == TakeAll(Walk(w.rest[take..], w.pos + take, w.pos + take, w.depth + 1, 0, w.items))
            case None =>
              match ItemMarker(w.rest)
              case Some(take) =>
                TakeAll(w) == TakeAll(Walk(w.rest[take..], w.pos + take, w.base, w.depth, w.pos + take - w.base,
                                           w.items + [Item(w.depth, w.pos + take - w.base)]))
              case None => TakeAll(w) == w
  {
    hide QuoteMarker, ItemMarker;
  }

  /** The columns consumed and the content left always make up the same text. */
  lemma {:induction false} TakeAllSplits(w: Walk)
    requires w.base <= w.pos
    ensures var r := TakeAll(w);
            w.pos <= r.pos && r.pos - w.pos <= |w.rest| && r.rest == w.rest[r.pos - w.pos..] && Take(r) == None
    decreases |w.rest|
  {
    match Take(w)
    case None =>
    case Some(next) =>
      TakeAllSplits(next);
      DropTwice(w.rest, next.pos - w.pos, TakeAll(next).pos - next.pos);
  }

  lemma DropTwice(s: string, i: nat, j: nat)
    requires i + j <= |s|
    ensures s[i..][j..] == s[i + j..]
  {
  }

  /** Stripping conserves columns: the prefix and the content are the expanded line. */
  lemma StripConservesColumns(line: string)
    ensures Strip(line).prefix + Strip(line).content == Expand(line)
    ensures '\t' !in Strip(line).prefix && '\t' !in Strip(line).content
  {
    hide TakeAll, Take, Expand;
    TakeAllSplits(Start(line));
    TabFree(line);
    var expanded, pos := Expand(line), TakeAll(Start(line)).pos;
    assert expanded == expanded[..pos] + expanded[pos..];
    PartsTabFree(expanded, pos);
  }

  lemma PartsTabFree(s: string, n: nat)
    requires n <= |s| && '\t' !in s
    ensures '\t' !in s[..n] && '\t' !in s[n..]
  {
  }

  lemma TabFree(line: string)
    ensures '\t' !in Expand(line)
  {
    ExpandedHasNoTabs(line, 0);
  }

  /** What is left is content: stripping it again removes nothing. */
  lemma StripFixpoint(line: string)
    ensures Strip(Strip(line).content) == Stripped("", Strip(line).content, 0, 0, [])
  {
    hide QuoteMarker, ItemMarker;
    var content := Strip(line).content;
    TakeAllSplits(Start(line));
    StripConservesColumns(line);
    NoTabsNoChange(content, 0);
    assert Take(Start(content)) == None;
  }

  // ---- A quote frame ------------------------------------------------------------------------

  function QuoteRestFrom(rest: string, depth: nat): Option<string>
    decreases depth
  {
    if depth == 0 then Some(rest)
    else
      match QuoteMarker(rest)
      case None => None
      case Some(take) => QuoteRestFrom(rest[take..], depth - 1)
  }

  /** `quote_rest`: the line after exactly `depth` quote markers. */
  function QuoteRest(line: string, depth: nat): Option<string> { QuoteRestFrom(Expand(line), depth) }

  method ComputeQuoteRest(line: string, depth: nat) returns (r: Option<string>)
    ensures r == QuoteRest(line, depth)
  {
    var rest := ExpandTabs(line);
    for i := 0 to depth
      invariant QuoteRestFrom(rest, depth - i) == QuoteRest(line, depth)
    {
      var take := QuoteMarker(rest);
      if take.None? { return None; }
      rest := rest[take.value..];
    }
    return Some(rest);
  }

  /** The line, read inside the item's quote, is indented to the item's content column. */
  predicate Reaches(line: string, item: Item) {
    var rest := QuoteRest(line, item.depth);
    rest.Some? && LeadingSpaces(rest.value) >= item.column
  }

  // ---- The chain ----------------------------------------------------------------------------

  /** How many items of the chain, from the outermost in, the line still reaches. */
  function Kept(chain: Chain, line: string): (n: nat)
    ensures n <= |chain|
    ensures forall k | 0 <= k < n :: Reaches(line, chain[k])
    ensures n < |chain| ==> !Reaches(line, chain[n])
  {
    if chain == [] || !Reaches(line, chain[0]) then 0 else 1 + Kept(chain[1..], line)
  }

  /** Trim, then extend; a blank line changes nothing. */
  function NextChain(chain: Chain, line: string): Chain {
    if BlankLine(line) then chain else chain[..Kept(chain, line)] + Strip(line).items
  }

  /** The chain after the lines of a document. */
  function ChainAfter(lines: seq<string>): Chain {
    if lines == [] then [] else NextChain(ChainAfter(lines[..|lines| - 1]), lines[|lines| - 1])
  }

  /** The items the line still reaches, tested from the outermost in. */
  method CountKept(chain: Chain, line: string) returns (keep: nat)
    ensures keep == Kept(chain, line)
  {
    keep := 0;
    while keep < |chain|
      invariant 0 <= keep <= |chain|
      invariant forall k | 0 <= k < keep :: Reaches(line, chain[k])
    {
      var rest := ComputeQuoteRest(line, chain[keep].depth);
      if rest.None? || LeadingSpaces(rest.value) < chain[keep].column { break; }
      keep := keep + 1;
    }
    KeptUnique(chain, line, keep);
  }

  /** `container_chains`: the chain each line sits in. */
  method ContainerChains(lines: seq<string>) returns (out: seq<Chain>)
    ensures |out| == |lines| && forall i | 0 <= i < |lines| :: out[i] == ChainAfter(lines[..i + 1])
  {
    hide Strip, Kept, BlankLine;
    out := [];
    var context: Chain := [];
    for i := 0 to |lines|
      invariant |out| == i && context == ChainAfter(lines[..i])
      invariant forall k | 0 <= k < i :: out[k] == ChainAfter(lines[..k + 1])
    {
      assert lines[..i + 1][..i] == lines[..i];
      if !BlankLine(lines[i]) {
        var keep := CountKept(context, lines[i]);
        var s := StripContainers(lines[i]);
        context := context[..keep] + s.items;
      }
      out := out + [context];
    }
  }

  lemma {:induction false} KeptUnique(chain: Chain, line: string, n: nat)
    requires n <= |chain|
    requires forall k | 0 <= k < n :: Reaches(line, chain[k])
    requires n < |chain| ==> !Reaches(line, chain[n])
    ensures Kept(chain, line) == n
  {
  }

  /** Lexicographic order on quote depth and column. */
  predicate Inside(outer: Item, inner: Item) {
    outer.depth < inner.depth || (outer.depth == inner.depth && outer.column < inner.column)
  }

  predicate Nested(chain: Chain) { forall i, j | 0 <= i < j < |chain| :: Inside(chain[i], chain[j]) }

  /** Everything the walk opened lies before its position in its frame. */
  predicate Behind(w: Walk) {
    && w.base <= w.pos
    && Nested(w.items)
    && forall k | 0 <= k < |w.items| ::
         w.items[k].depth < w.depth || (w.items[k].depth == w.depth && w.items[k].column <= w.pos - w.base)
  }

  /** The items one line states are properly nested. */
  lemma {:induction false} TakeAllNested(w: Walk)
    requires Behind(w)
    ensures Nested(TakeAll(w).items) && w.items <= TakeAll(w).items
    decreases |w.rest|
  {
    match Take(w)
    case None =>
    case Some(next) => TakeAllNested(next);
  }

  lemma LineItemsNested(line: string)
    ensures Nested(Strip(line).items)
  {
    TakeAllNested(Start(line));
  }

  /** A walk at a frame's start opens items only deeper, or beyond the frame's indentation. */
  lemma {:induction false} FrameItems(w: Walk)
    requires w.base == w.pos && w.items == []
    ensures var items := TakeAll(w).items;
            items != [] ==> items[0].depth > w.depth
                            || (items[0].depth == w.depth && items[0].column > LeadingSpaces(w.rest))
    decreases |w.rest|
  {
    match Take(w)
    case None =>
    case Some(next) =>
      if QuoteMarker(w.rest).Some? {
        FrameItems(next);
      } else {
        TakeAllNestedFrom(next);
      }
  }

  /** The first item opened stays first. */
  lemma {:induction false} TakeAllNestedFrom(w: Walk)
    requires w.base <= w.pos
    ensures w.items <= TakeAll(w).items
    decreases |w.rest|
  {
    match Take(w)
    case None =>
    case Some(next) => TakeAllNestedFrom(next);
  }

  /** After the quote markers of an enclosing frame, the walk goes on from that frame. */
  lemma {:induction false} WalkThroughQuotes(w: Walk, depth: nat)
    requires w.base == w.pos && w.items == []
    requires QuoteRestFrom(w.rest, depth).Some?
    ensures var items := TakeAll(w).items;
            items != [] ==> items[0].depth > w.depth + depth
                            || (items[0].depth == w.depth + depth
                                && items[0].column > LeadingSpaces(QuoteRestFrom(w.rest, depth).value))
    decreases depth
  {
    if depth == 0 {
      FrameItems(w);
    } else {
      WalkThroughQuotes(Take(w).value, depth - 1);
    }
  }

  /** An item a line still reaches encloses everything the line opens itself. */
  lemma ReachedEncloses(line: string, item: Item)
    requires Reaches(line, item)
    ensures forall k | 0 <= k < |Strip(line).items| :: Inside(item, Strip(line).items[k])
  {
    var items := Strip(line).items;
    WalkThroughQuotes(Start(line), item.depth);
    LineItemsNested(line);
    forall k | 0 <= k < |items| ensures Inside(item, items[k]) {
      assert Inside(item, items[0]);
      assert k > 0 ==> Inside(items[0], items[k]);
    }
  }

  /** One line keeps the chain nested. */
  lemma NextChainNested(chain: Chain, line: string)
    requires Nested(chain)
    ensures Nested(NextChain(chain, line))
  {
    if !BlankLine(line) {
      var n := Kept(chain, line);
      LineItemsNested(line);
      forall k | 0 <= k < n ensures forall j | 0 <= j < |Strip(line).items| :: Inside(chain[k], Strip(line).items[j]) {
        ReachedEncloses(line, chain[k]);
      }
    }
  }

  /** Container chains are well formed for every document: strictly nested, whatever the lines. */
  lemma {:induction false} ChainsNested(lines: seq<string>)
    ensures Nested(ChainAfter(lines))
  {
    if lines != [] {
      ChainsNested(lines[..|lines| - 1]);
      NextChainNested(ChainAfter(lines[..|lines| - 1]), lines[|lines| - 1]);
    }
  }

  /**
   * An enclosing item is never erased: the new chain is the previous one up to the first item the
   * line misses, followed by the items the line states. So an item stays, at its place, exactly
   * while the line reaches it and every item outside it.
   */
  lemma EnclosingItemKept(lines: seq<string>, line: string)
    requires !BlankLine(line)
    ensures var before, after := ChainAfter(lines), ChainAfter(lines + [line]);
            var n := Kept(before, line);
            && n <= |after| && after[..n] == before[..n] && after[n..] == Strip(line).items
            && forall k :: 0 <= k < |before| ==> (k < n <==> ReachesThrough(line, before, k))
  {
    hide Reaches, Strip;
    var before := ChainAfter(lines);
    assert (lines + [line])[..|lines|] == lines;
    var n := Kept(before, line);
    var after := before[..n] + Strip(line).items;
    assert ChainAfter(lines + [line]) == after;
    assert after[..n] == before[..n] && after[n..] == Strip(line).items;
  }

  /** The line reaches the item at `k` and every item outside it. */
  predicate ReachesThrough(line: string, chain: Chain, k: nat)
    requires k < |chain|
  {
    forall j | 0 <= j <= k :: Reaches(line, chain[j])
  }

  /**
   * An item's lifetime: as long as every line that is not blank reaches it and every item outside it,
   * it and they stay in the chain, unchanged and in place.
   */
  lemma {:induction false} ItemLives(lines: seq<string>, more: seq<string>, k: nat)
    requires k < |ChainAfter(lines)|
    requires forall j | 0 <= j < |more| :: BlankLine(more[j]) || ReachesThrough(more[j], ChainAfter(lines), k)
    ensures var chain, later := ChainAfter(lines), ChainAfter(lines + more);
            k < |later| && later[..k + 1] == chain[..k + 1]
  {
    hide ReachesThrough, ChainAfter, NextChain;
    if more == [] {
      assert lines + more == lines;
    } else {
      var n := |more| - 1;
      var front := lines + more[..n];
      assert (lines + more)[..|front|] == front && lines + more == front + [more[n]];
      ItemLives(lines, more[..n], k);
      ChainGrows(front, more[n]);
      if !BlankLine(more[n]) { ItemReached(ChainAfter(lines), ChainAfter(front), more[n], k); }
      BlankKeeps(ChainAfter(front), more[n]);
    }
  }

  lemma ChainGrows(lines: seq<string>, line: string)
    ensures ChainAfter(lines + [line]) == NextChain(ChainAfter(lines), line)
  {
    hide NextChain;
    assert (lines + [line])[..|lines|] == lines;
  }

  lemma BlankKeeps(chain: Chain, line: string)
    ensures BlankLine(line) ==> NextChain(chain, line) == chain
  {
  }

  lemma ItemReached(before: Chain, chain: Chain, line: string, k: nat)
    requires k < |before| && k < |chain| && chain[..k + 1] == before[..k + 1]
    requires !BlankLine(line) && ReachesThrough(line, before, k)
    ensures var next := NextChain(chain, line); k < |next| && next[..k + 1] == before[..k + 1]
  {
    hide Reaches, Strip;
    forall j | 0 <= j <= k ensures Reaches(line, chain[j]) {
      assert chain[j] == chain[..k + 1][j] == before[j];
    }
    var n := Kept(chain, line);
    assert n > k;
    assert (chain[..n] + Strip(line).items)[..k + 1] == chain[..k + 1];
  }
}
