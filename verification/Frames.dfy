/**
 * Container markers by their spelling: which texts are quote and list markers and where their content
 * starts, and which items a line still belongs to, told from its indentation alone.
 */
module Frames {
  import opened Ascii
  import opened Wrappers
  import opened Columns
  import opened Containers

  // ---- Quote markers --------------------------------------------------------------------------

  lemma SpacesThen(n: nat, rest: string)
    requires rest == "" || rest[0] != ' '
    ensures LeadingSpaces(Spaces(n) + rest) == n && (Spaces(n) + rest)[n..] == rest
  {
    SpacesThenOther(n, rest);
  }

  /** A marker is its indentation, the `>` and one space where there is one. */
  lemma QuoteMarkerText(n: nat, tail: string)
    ensures QuoteMarker(Spaces(n) + (">" + tail)) == Some(n + if tail != "" && tail[0] == ' ' then 2 else 1)
  {
    hide Spaces, LeadingSpaces;
    var rest := Spaces(n) + (">" + tail);
    SpacesThen(n, ">" + tail);
    assert rest[n] == '>' && (tail != "" ==> rest[n + 1] == tail[0]);
  }

  /** Nothing else is one. */
  lemma NoQuoteMarker(n: nat, tail: string)
    requires tail != "" ==> tail[0] != ' ' && tail[0] != '>'
    ensures QuoteMarker(Spaces(n) + tail) == None
  {
    hide Spaces, LeadingSpaces;
    SpacesThen(n, tail);
    assert tail != "" ==> (Spaces(n) + tail)[n] == tail[0];
  }

  /** `d` markers, each with its space. */
  function Quotes(d: nat): string { if d == 0 then "" else "> " + Quotes(d - 1) }

  lemma OneQuote(d: nat, text: string)
    requires d > 0
    ensures Quotes(d) + text == Spaces(0) + (">" + (" " + (Quotes(d - 1) + text)))
    ensures QuoteMarker(Quotes(d) + text) == Some(2) && (Quotes(d) + text)[2..] == Quotes(d - 1) + text
  {
    QuoteMarkerText(0, " " + (Quotes(d - 1) + text));
    assert Quotes(d) + text == Spaces(0) + (">" + (" " + (Quotes(d - 1) + text)));
  }

  lemma {:induction false} QuotesTabFree(d: nat)
    ensures '\t' !in Quotes(d)
  {
    if d > 0 { QuotesTabFree(d - 1); }
  }

  /** The markers are read off one by one. */
  lemma {:induction false} QuotesRead(d: nat, text: string, e: nat)
    requires e <= d
    ensures QuoteRestFrom(Quotes(d) + text, e) == Some(Quotes(d - e) + text)
  {
    hide QuoteMarker;
    if e > 0 {
      OneQuote(d, text);
      QuotesRead(d - 1, text, e - 1);
    }
  }

  lemma {:induction false} QuotesReadBeyond(d: nat, text: string, e: nat)
    requires e > d && QuoteMarker(text).None?
    ensures QuoteRestFrom(Quotes(d) + text, e) == None
  {
    hide QuoteMarker;
    if d > 0 {
      OneQuote(d, text);
      QuotesReadBeyond(d - 1, text, e - 1);
    } else {
      assert Quotes(0) + text == text;
    }
  }

  lemma QuotedExpand(d: nat, text: string)
    requires '\t' !in text
    ensures Expand(Quotes(d) + text) == Quotes(d) + text
  {
    QuotesTabFree(d);
    NoTabsNoChange(Quotes(d) + text, 0);
  }

  // ---- List markers ---------------------------------------------------------------------------

  /** A bullet, or one to nine digits and a delimiter. */
  predicate IsHead(head: string) {
    head in ["-", "*", "+"]
    || (2 <= |head| <= 10 && head[|head| - 1] in ".)" && AllIn(head[..|head| - 1], IsDigit))
  }

  /** The head of a text is the one prefix of it that is a head. */
  lemma MarkerHeadIff(body: string, n: nat)
    ensures MarkerHead(body) == Some(n) <==> n <= |body| && IsHead(body[..n])
  {
    if n <= |body| && IsHead(body[..n]) {
      if |body[..n]| == 1 {
        assert body[..n][0] == body[0];
        assert body[0] in "-*+";
      } else {
        var head := body[..n];
        assert head[..n - 1] == body[..n - 1] && head[n - 1] == body[n - 1];
        assert IsDigit(head[..n - 1][0]) && body[0] == head[0];
        RunLengthUnique(body, IsDigit, n - 1);
      }
    }
    if MarkerHead(body) == Some(n) {
      if body[0] in "-*+" {
        assert body[..1] == [body[0]];
      } else {
        assert body[..n][..n - 1] == body[..n - 1];
      }
    }
  }

  /**
   * An item marker is its indentation, a head and the spaces that belong to it: up to four, or one where
   * there are more or nothing follows.
   */
  lemma ItemMarkerText(n: nat, head: string, gap: nat, tail: string)
    requires IsHead(head) && (tail != "" ==> tail[0] != ' ')
    ensures var width := if gap <= 4 && tail != "" then gap else 1;
            ItemMarker(Spaces(n) + (head + (Spaces(gap) + tail)))
            == if gap == 0 then None else Some(n + |head| + width)
  {
    hide Spaces, LeadingSpaces, MarkerHead, IsHead;
    var after := Spaces(gap) + tail;
    var body := head + after;
    HeadStart(head);
    SpacesThen(n, body);
    assert body[..|head|] == head && body[|head|..] == after;
    MarkerHeadIff(body, |head|);
    SpacesThen(gap, tail);
  }

  lemma HeadStart(head: string)
    requires IsHead(head)
    ensures head != "" && head[0] != ' ' && head[0] != '>'
  {
    if |head| > 1 { assert IsDigit(head[..|head| - 1][0]); }
  }

  /** Nothing else is one. */
  lemma NoItemMarker(n: nat, body: string)
    requires body != "" ==> body[0] != ' '
    requires forall k | 0 <= k <= |body| :: !IsHead(body[..k])
    ensures ItemMarker(Spaces(n) + body) == None
  {
    hide Spaces, LeadingSpaces, MarkerHead, IsHead;
    SpacesThen(n, body);
    if MarkerHead(body).Some? { MarkerHeadIff(body, MarkerHead(body).value); }
  }

  // ---- A line of markers ------------------------------------------------------------------------

  /** A quote marker with its space or without, or a list marker with one to four spaces after it. */
  datatype Marker = Quote(indent: nat, spaced: bool) | Bullet(indent: nat, head: string, gap: nat)

  /** The markers, one after the other, and the text they contain. */
  function Spell(ms: seq<Marker>, text: string): string {
    if ms == [] then text
    else
      var rest := Spell(ms[1..], text);
      match ms[0]
      case Quote(n, spaced) => Spaces(n) + (">" + ((if spaced then " " else "") + rest))
      case Bullet(n, head, gap) => Spaces(n) + (head + (Spaces(gap) + rest))
  }

  /** Every space belongs to the marker it is written with. */
  predicate WellSpelled(ms: seq<Marker>, text: string) {
    ms == []
    || (WellSpelled(ms[1..], text)
        && match ms[0]
           case Quote(_, spaced) => !spaced ==> !BeginsBlank(Spell(ms[1..], text))
           case Bullet(_, head, gap) =>
             IsHead(head) && 1 <= gap <= 4 && Spell(ms[1..], text) != "" && !BeginsBlank(Spell(ms[1..], text)))
  }

  predicate BeginsBlank(s: string) { s != "" && s[0] == ' ' }

  /** The items the markers open: each at its quote depth, at the columns passed since that quote. */
  function Opened(ms: seq<Marker>, depth: nat, column: nat): Chain {
    if ms == [] then []
    else
      match ms[0]
      case Quote(_, _) => Opened(ms[1..], depth + 1, 0)
      case Bullet(n, head, gap) =>
        var c := column + n + |head| + gap;
        [Item(depth, c)] + Opened(ms[1..], depth, c)
  }

  function QuoteCount(ms: seq<Marker>): nat {
    if ms == [] then 0 else (if ms[0].Quote? then 1 else 0) + QuoteCount(ms[1..])
  }

  /** The first marker is what the walk takes. */
  lemma TakeFirst(ms: seq<Marker>, text: string)
    requires ms != [] && WellSpelled(ms, text)
    ensures var line, rest := Spell(ms, text), Spell(ms[1..], text);
            match ms[0]
            case Quote(n, spaced) =>
              var take := n + if spaced then 2 else 1;
              QuoteMarker(line) == Some(take) && take <= |line| && line[take..] == rest
            case Bullet(n, head, gap) =>
              var take := n + |head| + gap;
              QuoteMarker(line) == None && ItemMarker(line) == Some(take) && take <= |line| && line[take..] == rest
  {
    hide Spaces, QuoteMarker, ItemMarker, IsHead;
    var rest := Spell(ms[1..], text);
    match ms[0]
    case Quote(n, spaced) => QuoteTaken(n, spaced, rest);
    case Bullet(n, head, gap) => BulletTaken(n, head, gap, rest);
  }

  lemma QuoteTaken(n: nat, spaced: bool, rest: string)
    requires !spaced ==> !BeginsBlank(rest)
    ensures var line, take := Spaces(n) + (">" + ((if spaced then " " else "") + rest)), n + if spaced then 2 else 1;
            QuoteMarker(line) == Some(take) && take <= |line| && line[take..] == rest
  {
    hide Spaces, QuoteMarker;
    QuoteMarkerText(n, (if spaced then " " else "") + rest);
  }

  lemma BulletTaken(n: nat, head: string, gap: nat, rest: string)
    requires IsHead(head) && 1 <= gap <= 4 && rest != "" && !BeginsBlank(rest)
    ensures var line, take := Spaces(n) + (head + (Spaces(gap) + rest)), n + |head| + gap;
            QuoteMarker(line) == None && ItemMarker(line) == Some(take) && take <= |line| && line[take..] == rest
  {
    hide Spaces, QuoteMarker, ItemMarker, IsHead;
    HeadStart(head);
    NoQuoteMarker(n, head + (Spaces(gap) + rest));
    ItemMarkerText(n, head, gap, rest);
  }

  /** The walk after the first marker. */
  function WalkOn(w: Walk, m: Marker, rest: string): Walk {
    match m
    case Quote(n, spaced) =>
      var pos := w.pos + n + if spaced then 2 else 1;
      Walk(rest, pos, pos, w.depth + 1, 0, w.items)
    case Bullet(n, head, gap) =>
      var pos := w.pos + n + |head| + gap;
      if w.base <= pos then Walk(rest, pos, w.base, w.depth, pos - w.base, w.items + [Item(w.depth, pos - w.base)])
      else w
  }

  lemma WalkFirst(ms: seq<Marker>, text: string, w: Walk)
    requires ms != [] && WellSpelled(ms, text) && w.base <= w.pos && w.rest == Spell(ms, text)
    ensures var next := WalkOn(w, ms[0], Spell(ms[1..], text)); next.base <= next.pos && TakeAll(w) == TakeAll(next)
  {
    hide QuoteMarker, ItemMarker, Spell, WellSpelled, TakeAll;
    TakeAllStep(w);
    TakeFirst(ms, text);
  }

  /** The content column of the innermost list marker inside the innermost quote, or 0. */
  function LastColumn(ms: seq<Marker>, column: nat, columns: nat): nat {
    if ms == [] then columns
    else
      match ms[0]
      case Quote(_, _) => LastColumn(ms[1..], 0, 0)
      case Bullet(n, head, gap) => LastColumn(ms[1..], column + n + |head| + gap, column + n + |head| + gap)
  }

  lemma {:induction false} WalkSpelled(ms: seq<Marker>, text: string, w: Walk)
    requires WellSpelled(ms, text) && QuoteMarker(text).None? && ItemMarker(text).None?
    requires w.base <= w.pos && w.rest == Spell(ms, text)
    ensures var r := TakeAll(w);
            r.rest == text && r.depth == w.depth + QuoteCount(ms)
            && r.items == w.items + Opened(ms, w.depth, w.pos - w.base)
            && r.columns == LastColumn(ms, w.pos - w.base, w.columns)
  {
    hide QuoteMarker, ItemMarker, Spell, WellSpelled, TakeAll;
    if ms == [] {
      NothingSpelled(text);
      TakeAllStep(w);
    } else {
      var next := WalkOn(w, ms[0], Spell(ms[1..], text));
      WalkFirst(ms, text, w);
      SpelledRest(ms, text);
      WalkOnItems(ms, w, Spell(ms[1..], text));
      hide WalkOn, Opened, QuoteCount, LastColumn;
      WalkSpelled(ms[1..], text, next);
    }
  }

  /** What one marker does to the walk, and to what the markers open. */
  lemma WalkOnItems(ms: seq<Marker>, w: Walk, rest: string)
    requires ms != [] && w.base <= w.pos
    ensures var next := WalkOn(w, ms[0], rest);
            next.base <= next.pos && next.rest == rest
            && w.depth + QuoteCount(ms) == next.depth + QuoteCount(ms[1..])
            && w.items + Opened(ms, w.depth, w.pos - w.base)
               == next.items + Opened(ms[1..], next.depth, next.pos - next.base)
            && LastColumn(ms, w.pos - w.base, w.columns)
               == LastColumn(ms[1..], next.pos - next.base, next.columns)
  {
    hide Spaces;
    var next, column := WalkOn(w, ms[0], rest), w.pos - w.base;
    match ms[0]
    case Quote(_, _) =>
    case Bullet(n, head, gap) =>
      var c := column + n + |head| + gap;
      assert next.pos - next.base == c && next.items == w.items + [Item(w.depth, c)];
      Regroup(w.items, [Item(w.depth, c)], Opened(ms[1..], w.depth, c));
  }

  lemma Regroup(a: Chain, b: Chain, c: Chain)
    ensures a + (b + c) == a + b + c
  {
  }

  lemma NothingSpelled(text: string)
    ensures Spell([], text) == text
  {
  }

  lemma SpelledRest(ms: seq<Marker>, text: string)
    requires ms != [] && WellSpelled(ms, text)
    ensures WellSpelled(ms[1..], text)
  {
  }

  /**
   * Stripping a line written with markers gives back the text, the number of its quotes and, for each
   * list marker, the quote depth and the column its content starts at inside that quote.
   */
  lemma StripSpelled(ms: seq<Marker>, text: string)
    requires WellSpelled(ms, text) && '\t' !in Spell(ms, text)
    requires QuoteMarker(text).None? && ItemMarker(text).None?
    ensures var s := Strip(Spell(ms, text));
            s.content == text && s.depth == QuoteCount(ms) && s.items == Opened(ms, 0, 0)
            && s.columns == LastColumn(ms, 0, 0)
  {
    hide QuoteMarker, ItemMarker, Spell, WellSpelled, TakeAll;
    NoTabsNoChange(Spell(ms, text), 0);
    WalkSpelled(ms, text, Start(Spell(ms, text)));
    assert [] + Opened(ms, 0, 0) == Opened(ms, 0, 0);
  }

  // ---- Which items a line belongs to ------------------------------------------------------------

  /** The text of a line inside its quotes is indented to the item's column, in the item's own quote. */
  predicate Meets(d: nat, indent: nat, item: Item) {
    (item.depth == d && item.column <= indent) || (item.depth < d && item.column == 0)
  }

  lemma MarginReaches(line: string, item: Item)
    requires item.depth == 0
    ensures Reaches(line, item) <==> item.column <= IndentFrom(line, 0)
  {
    IndentIsExpandedSpaces(line, 0);
  }

  /** At the margin, tabs included: an item stays while the line's columns of indentation reach it. */
  lemma ChainAtMargin(lines: seq<string>, line: string, n: nat)
    requires !BlankLine(line) && n <= |ChainAfter(lines)|
    requires forall k | 0 <= k < n :: ChainAfter(lines)[k].depth == 0
    requires forall k | 0 <= k < n :: ChainAfter(lines)[k].column <= IndentFrom(line, 0)
    requires n < |ChainAfter(lines)| ==>
               ChainAfter(lines)[n].depth == 0 && ChainAfter(lines)[n].column > IndentFrom(line, 0)
    ensures ChainAfter(lines + [line]) == ChainAfter(lines)[..n] + Strip(line).items
  {
    hide Reaches, Strip, BlankLine, IndentFrom;
    var before := ChainAfter(lines);
    forall k | 0 <= k < |before| && before[k].depth == 0
      ensures Reaches(line, before[k]) <==> before[k].column <= IndentFrom(line, 0)
    {
      MarginReaches(line, before[k]);
    }
    KeptUnique(before, line, n);
    ChainGrows(lines, line);
  }

  lemma QuotedReaches(d: nat, text: string, item: Item)
    requires '\t' !in text && QuoteMarker(text).None?
    ensures Reaches(Quotes(d) + text, item) <==> Meets(d, LeadingSpaces(text), item)
  {
    hide QuoteMarker;
    QuotedExpand(d, text);
    if item.depth <= d {
      QuotesRead(d, text, item.depth);
      if item.depth < d {
        OneQuote(d - item.depth, text);
      } else {
        assert Quotes(0) + text == text;
      }
    } else {
      QuotesReadBeyond(d, text, item.depth);
    }
  }

  /** The same behind `d` quote markers, in the columns of the text that follows them. */
  lemma ChainInQuotes(lines: seq<string>, d: nat, text: string, n: nat)
    requires '\t' !in text && QuoteMarker(text).None? && !BlankLine(Quotes(d) + text) && n <= |ChainAfter(lines)|
    requires forall k | 0 <= k < n :: Meets(d, LeadingSpaces(text), ChainAfter(lines)[k])
    requires n < |ChainAfter(lines)| ==> !Meets(d, LeadingSpaces(text), ChainAfter(lines)[n])
    ensures ChainAfter(lines + [Quotes(d) + text]) == ChainAfter(lines)[..n] + Strip(Quotes(d) + text).items
  {
    hide Reaches, Strip, BlankLine, Meets, QuoteMarker;
    var line, before := Quotes(d) + text, ChainAfter(lines);
    forall k | 0 <= k < |before| ensures Reaches(line, before[k]) <==> Meets(d, LeadingSpaces(text), before[k]) {
      QuotedReaches(d, text, before[k]);
    }
    KeptUnique(before, line, n);
    ChainGrows(lines, line);
  }
}
