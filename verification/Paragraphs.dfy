/** Which lines interrupt a paragraph, and which pairs of lines make a setext heading. */
module Paragraphs {
  import opened Ascii
  import opened Columns
  import opened Containers
  import opened Headings
  import opened ChangelogParse
  import opened Frames
  import opened FencesInside
  import opened HeadingTexts
  import F = Fences

  // ---- List markers ---------------------------------------------------------------------------

  /** A head, and then nothing or a character of the class. */
  predicate HeadThen(s: string, head: string, rest: string) { s == head + rest && IsHead(head) }

  lemma MarkerThenIff(s: string, p: char -> bool, end: bool)
    ensures MarkerThen(s, p, end)
            <==> exists head, rest :: HeadThen(s, head, rest) && if rest == "" then end else p(rest[0])
  {
    hide MarkerHead, IsHead;
    if head, rest :| HeadThen(s, head, rest) && if rest == "" then end else p(rest[0]) {
      assert s[..|head|] == head && s[|head|..] == rest;
      MarkerHeadIff(s, |head|);
    }
    if MarkerThen(s, p, end) {
      var n := MarkerHead(s).value;
      MarkerHeadIff(s, n);
      assert s == s[..n] + s[n..] && HeadThen(s, s[..n], s[n..]);
    }
  }

  lemma HeadStarts(head: string)
    requires IsHead(head)
    ensures head != "" && !IsSpace(head[0])
  {
  }

  /** Whitespace, a head, and then nothing or whitespace. */
  predicate ItemParts(line: string, before: string, head: string, rest: string) {
    line == before + (head + rest) && AllIn(before, IsSpace) && IsHead(head) && (rest == "" || IsSpace(rest[0]))
  }

  /** A line is a list item's iff, whitespace aside, a head starts it that nothing or whitespace follows. */
  lemma ListItemIff(line: string)
    ensures IsListItem(line) <==> exists before, head, rest :: ItemParts(line, before, head, rest)
  {
    hide IsHead, MarkerThen, IsSpace;
    var s := LStrip(line);
    MarkerThenIff(s, IsSpace, true);
    if before, head, rest :| ItemParts(line, before, head, rest) {
      HeadStarts(head);
      assert line[|before|] == head[0] && line[|before|..] == head + rest;
      RunLengthUnique(line, IsSpace, |before|);
      assert HeadThen(s, head, rest);
    }
    if head, rest :| HeadThen(s, head, rest) && (rest == "" || IsSpace(rest[0])) {
      var before := line[..RunLength(line, IsSpace)];
      assert line == before + s;
      assert ItemParts(line, before, head, rest);
    }
  }

  /** A head that a blank follows, at the start or after a blank. */
  predicate HeadWithin(prefix: string, before: string, head: string, rest: string) {
    prefix == before + (head + rest) && (before == "" || IsBlank(before[|before| - 1])) && IsHead(head)
    && rest != "" && IsBlank(rest[0])
  }

  lemma HeadWithinRead(prefix: string, before: string, head: string, rest: string)
    requires HeadWithin(prefix, before, head, rest)
    ensures HasListMarker(prefix)
  {
    hide IsHead, MarkerThen, IsBlank;
    HeadStarts(head);
    var i := |before|;
    assert prefix[i..] == head + rest && HeadThen(prefix[i..], head, rest);
    MarkerThenIff(prefix[i..], IsBlank, false);
    assert i > 0 ==> prefix[i - 1] == before[i - 1];
  }

  lemma HeadWithinFound(prefix: string, i: nat)
    requires i < |prefix| && (i == 0 || IsBlank(prefix[i - 1])) && MarkerThen(prefix[i..], IsBlank, false)
    ensures exists before, head, rest :: HeadWithin(prefix, before, head, rest)
  {
    hide IsHead, MarkerThen, IsBlank;
    MarkerThenIff(prefix[i..], IsBlank, false);
    var head, rest :| HeadThen(prefix[i..], head, rest) && if rest == "" then false else IsBlank(rest[0]);
    var before := prefix[..i];
    assert prefix == before + prefix[i..] && (i > 0 ==> before[i - 1] == prefix[i - 1]);
    assert HeadWithin(prefix, before, head, rest);
  }

  /** A prefix holds a list marker iff a head stands in it between blanks, or at its start. */
  lemma HasListMarkerIff(prefix: string)
    ensures HasListMarker(prefix) <==> exists before, head, rest :: HeadWithin(prefix, before, head, rest)
  {
    hide HeadWithin, MarkerThen, IsBlank;
    if before, head, rest :| HeadWithin(prefix, before, head, rest) { HeadWithinRead(prefix, before, head, rest); }
    if i :| 0 <= i < |prefix| && (i == 0 || IsBlank(prefix[i - 1])) && MarkerThen(prefix[i..], IsBlank, false) {
      HeadWithinFound(prefix, i);
    }
  }

  // ---- Interrupting lines ---------------------------------------------------------------------

  /** A run of `c`, and what follows it. */
  predicate RunThen(s: string, c: char, n: nat, rest: string) {
    s == Marks(c, n) + rest && (rest != "" ==> rest[0] != c)
  }

  lemma RunThenIs(s: string, c: char, n: nat, rest: string)
    ensures RunThen(s, c, n, rest) <==> n == F.Repeats(s, c) && rest == s[n..]
  {
    RepeatsSplit(s, c);
    if RunThen(s, c, n, rest) { RepeatsMarks(c, n, rest); }
  }

  ghost predicate HeadingLike(s: string) {
    exists n: nat, rest :: RunThen(s, '#', n, rest) && 1 <= n <= 6 && (rest == "" || IsSpace(rest[0]))
  }

  ghost predicate FenceLike(s: string) {
    exists c, n: nat, rest :: c in "`~" && RunThen(s, c, n, rest) && n >= 3
  }

  ghost predicate UnderlineLike(s: string) {
    exists n: nat, rest :: RunThen(s, '=', n, rest) && n >= 1 && AllIn(rest, IsSpace)
  }

  /** A bullet, or a list that starts with 1. */
  ghost predicate ListLike(s: string) {
    exists head, rest :: head in ["-", "*", "+", "1.", "1)"] && s == head + rest && (rest == "" || IsSpace(rest[0]))
  }

  lemma ListLikeIff(s: string)
    requires s != ""
    ensures ListLike(s) <==> (s[0] in "-*+" && (|s| == 1 || IsSpace(s[1])))
                             || (|s| >= 2 && s[0] == '1' && s[1] in ".)" && (|s| == 2 || IsSpace(s[2])))
  {
    if s[0] in "-*+" { assert s == [s[0]] + s[1..]; }
    if |s| >= 2 && s[0] == '1' && s[1] in ".)" { assert s == s[..2] + s[2..] && s[..2] == [s[0], s[1]]; }
  }

  lemma HeadingLikeIff(s: string)
    ensures var h := F.Repeats(s, '#');
            HeadingLike(s) <==> 1 <= h <= 6 && (h == |s| || IsSpace(s[h]))
  {
    hide RunThen, IsSpace;
    var h := F.Repeats(s, '#');
    RunThenIs(s, '#', h, s[h..]);
    if n: nat, rest :| RunThen(s, '#', n, rest) && 1 <= n <= 6 && (rest == "" || IsSpace(rest[0])) {
      RunThenIs(s, '#', n, rest);
    }
  }

  lemma FenceLikeIff(s: string)
    ensures FenceLike(s) <==> F.Repeats(s, '`') >= 3 || F.Repeats(s, '~') >= 3
  {
    hide RunThen;
    RunThenIs(s, '`', F.Repeats(s, '`'), s[F.Repeats(s, '`')..]);
    RunThenIs(s, '~', F.Repeats(s, '~'), s[F.Repeats(s, '~')..]);
    if c, n: nat, rest :| c in "`~" && RunThen(s, c, n, rest) && n >= 3 { RunThenIs(s, c, n, rest); }
  }

  lemma UnderlineLikeIff(s: string)
    ensures var e := F.Repeats(s, '='); UnderlineLike(s) <==> e > 0 && AllIn(s[e..], IsSpace)
  {
    hide RunThen, AllIn;
    var e := F.Repeats(s, '=');
    RunThenIs(s, '=', e, s[e..]);
    if n: nat, rest :| RunThen(s, '=', n, rest) && n >= 1 && AllIn(rest, IsSpace) { RunThenIs(s, '=', n, rest); }
  }

  /** Leading whitespace aside, a line interrupts a paragraph exactly when it is one of these. */
  lemma InterruptsIff(line: string)
    ensures var s := LStrip(line);
            InterruptsParagraph(line)
            <==> s != "" && (HeadingLike(s) || FenceLike(s) || IsThematicBreak(s) || s[0] in ">|<" || ListLike(s)
                             || UnderlineLike(s))
  {
    hide IsThematicBreak, HeadingLike, FenceLike, UnderlineLike, ListLike, LStrip, IsSpace, AllIn;
    var s := LStrip(line);
    if s != "" {
      ListLikeIff(s);
      HeadingLikeIff(s);
      FenceLikeIff(s);
      UnderlineLikeIff(s);
    }
  }

  // ---- Setext headings --------------------------------------------------------------------------

  /** A line of text that starts with a letter and holds no tab. */
  predicate Lettered(text: string) { text != "" && IsAlpha(text[0]) && '\t' !in text }

  lemma LetteredBare(text: string)
    requires Lettered(text)
    ensures Bare(text)
  {
    NoTabsNoChange(text, 0);
    assert LeadingSpaces(text) == 0 && text[0..] == text;
    assert RunLength(text, IsDigit) == 0;
    assert QuoteMarker(text).None? && ItemMarker(text).None?;
    TakeAllSplits(Start(text));
  }

  /** Behind spaces it is no list item, no definition and nothing that interrupts. */
  lemma LetteredPlain(c: nat, text: string)
    requires Lettered(text)
    ensures var s := Spaces(c) + text;
            !BlankLine(s) && LStrip(s) == text && !IsListItem(s) && !InterruptsParagraph(s) && LinkDefinition(s).None?
  {
    hide IsLinkTail;
    var s := Spaces(c) + text;
    RunLengthUnique(s, IsSpace, c);
    assert s[c] == text[0] && !IsSpace(s[c]);
    assert s[c..] == text;
    SpacesThen(c, text);
    assert RunLength(text, IsDigit) == 0;
  }

  lemma UnderlineBare(c: char, n: nat)
    requires c in "=-" && n >= 1
    ensures Bare(Marks(c, n))
  {
    var s := Marks(c, n);
    NoTabsNoChange(s, 0);
    assert LeadingSpaces(s) == 0 && s[0..] == s;
    assert RunLength(s, IsDigit) == 0;
    if n > 1 { assert s[1..][0] == c; }
    assert QuoteMarker(s).None? && ItemMarker(s).None?;
    TakeAllSplits(Start(s));
  }

  lemma {:induction false} QuotesNoList(d: nat)
    ensures !HasListMarker(Quotes(d))
  {
    QuoteCharacters(d);
    forall i | 0 <= i < |Quotes(d)| ensures !MarkerThen(Quotes(d)[i..], IsBlank, false) {
      var s := Quotes(d)[i..];
      assert s[0] == Quotes(d)[i];
      assert RunLength(s, IsDigit) == 0;
    }
  }

  lemma {:induction false} QuoteCharacters(d: nat)
    ensures forall k | 0 <= k < |Quotes(d)| :: Quotes(d)[k] == '>' || Quotes(d)[k] == ' '
  {
    if d > 0 { QuoteCharacters(d - 1); }
  }

  /**
   * A run of `=` or `-` under a line of text makes a heading exactly when both stand behind the same number
   * of quote markers and the run is indented to the text's item or up to three columns more.
   */
  lemma SetextIff(d: nat, column: nat, text: string, e: nat, indent: nat, c: char, n: nat)
    requires Lettered(text) && c in "=-" && n >= 1
    ensures IsSetext(Inner(d, column, text), InnerChain(d, column), Inner(e, indent, Marks(c, n)))
            <==> d == e && column <= indent <= column + 3
  {
    hide Strip, Bare, IsListItem, InterruptsParagraph, LinkDefinition, LStrip, BlankLine, HasListMarker;
    LetteredBare(text);
    LetteredPlain(column, text);
    UnderlineBare(c, n);
    InnerStrip(d, column, text);
    InnerStrip(e, indent, Marks(c, n));
    QuotesNoList(e);
    UnderlineRead(c, n, indent);
    assert F.ChainColumn(InnerChain(d, column), d) == column;
    assert text[0] !in "|<";
  }

  lemma UnderlineRead(c: char, n: nat, indent: nat)
    requires c in "=-" && n >= 1
    ensures var s := Spaces(indent) + Marks(c, n); IsUnderline(DropBlanks(s)) && IndentFrom(s, 0) == indent
  {
    var u := Marks(c, n);
    SpacesColumns(indent, u);
    RepeatsMarks(c, n, "");
    assert u + "" == u && u[n..] == "";
  }
}
