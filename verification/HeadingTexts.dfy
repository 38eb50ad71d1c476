/** Headings, underlines and breaks by their spelling. */
module HeadingTexts {
  import opened Ascii
  import opened Wrappers
  import opened Columns
  import opened Containers
  import opened Frames
  import opened Headings
  import opened FencesInside
  import F = Fences

  // ---- ATX headings -------------------------------------------------------------------------

  predicate Blanks(s: string) { AllIn(s, IsBlank) }

  /** A text without whitespace at its ends. */
  predicate Trimmed(s: string) { s == "" || (!IsSpace(s[0]) && !IsSpace(s[|s| - 1])) }

  /** What a heading line holds after its marks: blanks first, unless it holds nothing. */
  predicate HeadingLine(line: string, indent: nat, level: nat, rest: string) {
    line == Spaces(indent) + (Marks('#', level) + rest) && (level == 0 ==> rest == "" || rest[0] != ' ')
    && (rest != "" ==> rest[0] != '#')
  }

  lemma HeadingParts(line: string, indent: nat, level: nat, rest: string)
    requires HeadingLine(line, indent, level, rest)
    ensures LeadingSpaces(line) == indent && indent <= |line|
    ensures F.Repeats(line[indent..], '#') == level && line[indent..][level..] == rest
  {
    hide Spaces, Marks;
    var body := Marks('#', level) + rest;
    assert level > 0 ==> body[0] == Marks('#', level)[0] == '#';
    SpacesThen(indent, body);
    RepeatsMarks('#', level, rest);
  }

  /** The text of what follows the marks. */
  function TextOf(rest: string): string { Trim(DropClosingRun(DropTrailingBlanks(DropBlanks(rest)))) }

  /** At most three spaces, one to six marks, and then a blank or nothing. */
  lemma AtxIff(line: string, indent: nat, level: nat, rest: string)
    requires HeadingLine(line, indent, level, rest)
    ensures AtxHeading(line)
            == if indent <= 3 && 1 <= level <= 6 && (rest == "" || IsBlank(rest[0])) then Some((level, TextOf(rest)))
               else None
  {
    HeadingParts(line, indent, level, rest);
  }

  lemma {:induction false} DropTrailing(s: string, b: string)
    requires Blanks(b) && (s == "" || !IsBlank(s[|s| - 1]))
    ensures DropTrailingBlanks(s + b) == s
  {
    if b == "" {
      assert s + b == s;
    } else {
      var n := |b| - 1;
      assert (s + b)[..|s + b| - 1] == s + b[..n] && (s + b)[|s + b| - 1] == b[n];
      DropTrailing(s, b[..n]);
    }
  }

  lemma DropLeadingBlanks(b: string, s: string)
    requires Blanks(b) && (s == "" || !IsBlank(s[0]))
    ensures DropBlanks(b + s) == s
  {
    RunLengthUnique(b + s, IsBlank, |b|);
  }

  lemma {:induction false} Hashes(s: string, n: nat)
    requires s == "" || s[|s| - 1] != '#'
    ensures TrailingHashes(s + Marks('#', n)) == n
  {
    var t := s + Marks('#', n);
    if n > 0 {
      assert t[..|t| - 1] == s + Marks('#', n - 1);
      Hashes(s, n - 1);
    } else {
      assert t == s;
    }
  }

  lemma TrimTrimmed(s: string)
    requires Trimmed(s)
    ensures Trim(s) == s
  {
    if s != "" {
      RunLengthUnique(s, IsSpace, 0);
      assert s[0..] == s;
    }
  }

  /** No `#` ends the text, or one that belongs to a word. */
  predicate NoClosing(t: string) {
    t == "" || t[|t| - 1] != '#' || (TrailingHashes(t) < |t| && !IsBlank(t[|t| - TrailingHashes(t) - 1]))
  }

  /** The text of a heading without closing marks, blanks around it dropped. */
  lemma OpenHeadingText(before: string, text: string, after: string)
    requires Blanks(before) && Blanks(after) && Trimmed(text) && NoClosing(text) && text != ""
    ensures TextOf(before + (text + after)) == text
  {
    hide Trim;
    FirstNotBlank(text);
    DropLeadingBlanks(before, text + after);
    DropTrailing(text, after);
    NotClosed(text);
    TrimTrimmed(text);
  }

  lemma FirstNotBlank(text: string)
    requires Trimmed(text) && text != ""
    ensures !IsBlank(text[0]) && !IsBlank(text[|text| - 1])
  {
  }

  lemma NotClosed(text: string)
    requires NoClosing(text)
    ensures DropClosingRun(text) == text
  {
  }

  lemma ClosingDropped(text: string, gap: string, n: nat)
    requires gap != "" && Blanks(gap) && n > 0 && (text == "" || !IsBlank(text[|text| - 1]))
    ensures DropClosingRun(text + gap + Marks('#', n)) == text
  {
    hide IsBlank;
    var front := text + gap;
    var closed := front + Marks('#', n);
    assert front[|front| - 1] == gap[|gap| - 1] && IsBlank(gap[|gap| - 1]);
    HashIsNoBlank();
    Hashes(front, n);
    assert closed[|closed| - n - 1] == front[|front| - 1] && closed[..|closed| - n] == front;
    DropTrailing(text, gap);
  }

  lemma HashIsNoBlank()
    ensures !IsBlank('#')
  {
  }

  /** A closing run of marks behind a blank is no part of the text, whatever its length. */
  lemma ClosedHeadingText(before: string, text: string, gap: string, n: nat, after: string)
    requires Blanks(before) && gap != "" && Blanks(gap) && Blanks(after) && Trimmed(text) && text != "" && n > 0
    ensures TextOf(before + (text + gap + Marks('#', n) + after)) == text
  {
    hide Trim, DropClosingRun, IsBlank;
    var closed := text + gap + Marks('#', n);
    FirstNotBlank(text);
    HashIsNoBlank();
    assert closed[|closed| - 1] == Marks('#', n)[n - 1] && (closed + after)[0] == text[0];
    DropLeadingBlanks(before, closed + after);
    DropTrailing(closed, after);
    ClosingDropped(text, gap, n);
    TrimTrimmed(text);
  }

  /** A heading may be empty, closing marks included. */
  lemma EmptyHeadingText(before: string, n: nat, after: string)
    requires Blanks(before) && Blanks(after)
    ensures TextOf(before + (Marks('#', n) + after)) == ""
  {
    hide Trim, IsBlank;
    TrimTrimmed("");
    DropTrailing("", "");
    assert "" + "" == "";
    if n == 0 {
      var rest := before + (Marks('#', 0) + after);
      assert Marks('#', 0) == "" && rest == before + after && rest + "" == rest;
      DropLeadingBlanks(rest, "");
    } else {
      HashIsNoBlank();
      DropLeadingBlanks(before, Marks('#', n) + after);
      DropTrailing(Marks('#', n), after);
      Hashes("", n);
      assert "" + Marks('#', n) == Marks('#', n) && Marks('#', n)[..0] == "";
    }
  }

  // ---- Where a heading stands -----------------------------------------------------------------

  lemma SpacesColumns(n: nat, rest: string)
    requires rest == "" || !IsBlank(rest[0])
    ensures IndentFrom(Spaces(n) + rest, 0) == n && DropBlanks(Spaces(n) + rest) == rest
  {
    SpacesColumnsFrom(n, rest, 0);
    RunLengthUnique(Spaces(n) + rest, IsBlank, n);
  }

  lemma {:induction false} SpacesColumnsFrom(n: nat, rest: string, col: nat)
    requires rest == "" || !IsBlank(rest[0])
    ensures IndentFrom(Spaces(n) + rest, col) == col + n
  {
    if n > 0 {
      assert (Spaces(n) + rest)[1..] == Spaces(n - 1) + rest;
      SpacesColumnsFrom(n - 1, rest, col + 1);
    } else {
      assert Spaces(0) + rest == rest;
    }
  }

  /** Behind `n` spaces a heading stands at the margin, indented by one to three columns, or deep. */
  lemma PlacedBySpaces(n: nat, heading: string, level: nat, text: string, chain: Chain)
    requires heading != "" && heading[0] == '#' && AtxHeading(heading) == Some((level, text))
    ensures ClassifyHeading(Spaces(n) + heading, chain)
            == Some(Heading(level, text, if n == 0 then Column0 else if n <= 3 then Indented else Deep))
  {
    hide Spaces, DropClosingRun, DropTrailingBlanks, Trim;
    SpacesColumns(n, heading);
    SpacesThen(n, heading);
    LeadingNone(heading);
    if n > 0 { assert (Spaces(n) + heading)[0] == Spaces(n)[0] == ' '; }
  }

  lemma LeadingNone(s: string)
    requires s != "" && s[0] != ' '
    ensures LeadingSpaces(s) == 0 && s[0..] == s
  {
  }

  /** Behind container markers it is a heading of the container, which the changelog's readers pass over. */
  lemma PlacedByMarkers(ms: seq<Marker>, heading: string, level: nat, text: string, chain: Chain)
    requires ms != [] && WellSpelled(ms, heading) && '\t' !in Spell(ms, heading)
    requires heading != "" && heading[0] == '#' && AtxHeading(heading) == Some((level, text))
    requires AtxHeading(Spell(ms, heading)).None? && DeepHeading(Spell(ms, heading)).None?
    ensures ClassifyHeading(Spell(ms, heading), chain) == Some(Heading(level, text, Container))
  {
    hide AtxHeading, DeepHeading, Spell, WellSpelled, QuoteMarker, ItemMarker;
    HashTakesNothing(heading);
    StripSpelled(ms, heading);
    SpelledPrefix(ms, heading);
  }

  lemma HeadingBare(heading: string)
    requires heading != "" && heading[0] == '#' && '\t' !in heading
    ensures Bare(heading)
  {
    NoTabsNoChange(heading, 0);
    HashTakesNothing(heading);
    TakeAllSplits(Start(heading));
  }

  lemma SpacedHeading(n: nat, heading: string)
    requires heading != "" && heading[0] == '#'
    ensures AtxHeading(Spaces(n) + heading) == if n <= 3 then AtxHeading(heading) else None
  {
    hide Spaces, DropClosingRun, DropTrailingBlanks, Trim;
    SpacesThen(n, heading);
    LeadingNone(heading);
  }

  lemma QuotedNoHeading(d: nat, n: nat, heading: string)
    requires d > 0
    ensures var line := Inner(d, n, heading); AtxHeading(line).None? && DeepHeading(line).None?
  {
    var line := Inner(d, n, heading);
    assert line[0] == Quotes(d)[0] == '>';
    LeadingNone(line);
  }

  /**
   * Behind quote markers and `n` spaces a heading is found iff at most three of the spaces are left once those
   * of the item the line continues, if any, are taken.
   */
  lemma PlacedInItem(d: nat, column: nat, n: nat, heading: string, level: nat, text: string)
    requires d > 0 && heading != "" && heading[0] == '#' && '\t' !in heading
    requires AtxHeading(heading) == Some((level, text))
    ensures ClassifyHeading(Inner(d, n, heading), InnerChain(d, column))
            == if n <= 3 || column <= n <= column + 3 then Some(Heading(level, text, Container)) else None
  {
    hide AtxHeading, DeepHeading, Strip, Bare, Spaces;
    HeadingBare(heading);
    InnerStrip(d, n, heading);
    QuotedNoHeading(d, n, heading);
    assert Quotes(d) != "";
    SpacedHeading(n, heading);
    SpacesColumns(n, heading);
    assert F.ChainColumn(InnerChain(d, column), d) == column;
    if column <= n {
      assert (Spaces(n) + heading)[column..] == Spaces(n - column) + heading;
      SpacedHeading(n - column, heading);
    }
  }

  lemma HashTakesNothing(heading: string)
    requires heading != "" && heading[0] == '#'
    ensures QuoteMarker(heading).None? && ItemMarker(heading).None?
  {
    LeadingNone(heading);
    assert RunLength(heading, IsDigit) == 0;
  }

  /** A line with a marker has a prefix. */
  lemma SpelledPrefix(ms: seq<Marker>, text: string)
    requires ms != [] && WellSpelled(ms, text) && '\t' !in Spell(ms, text)
    ensures Strip(Spell(ms, text)).prefix != ""
  {
    hide QuoteMarker, ItemMarker, Spell, WellSpelled, TakeAll;
    var line := Spell(ms, text);
    NoTabsNoChange(line, 0);
    TakeFirst(ms, text);
    TakeMoves(Start(line));
    TakeAllSplits(Start(line));
  }

  lemma TakeMoves(w: Walk)
    requires w.base <= w.pos && Take(w).Some?
    ensures TakeAll(w).pos > w.pos
  {
    TakeAllSplits(Take(w).value);
  }

  // ---- Setext underlines and breaks -----------------------------------------------------------

  predicate BlankOrReturns(s: string) { forall k | 0 <= k < |s| :: IsBlank(s[k]) || s[k] == '\r' }

  /** One run of `=` or of `-`, and blanks. */
  lemma UnderlineIff(s: string)
    ensures IsUnderline(s)
            <==> exists c, n: nat, rest :: UnderlineParts(s, c, n, rest)
  {
    if IsUnderline(s) {
      RepeatsSplit(s, s[0]);
      var n := F.Repeats(s, s[0]);
      forall k | 0 <= k < |s[n..]| ensures IsBlank(s[n..][k]) || s[n..][k] == '\r' {}
      assert UnderlineParts(s, s[0], n, s[n..]);
    }
    if c, n: nat, rest :| UnderlineParts(s, c, n, rest) {
      assert s[0] == Marks(c, n)[0] == c;
      RepeatsMarks(c, n, rest);
      assert s[n..] == rest;
    }
  }

  predicate UnderlineParts(s: string, c: char, n: nat, rest: string) {
    s == Marks(c, n) + rest && c in "=-" && n >= 1 && BlankOrReturns(rest)
  }

  /** Three marks of one kind, and whitespace. */
  lemma ThematicBreakIff(s: string)
    ensures IsThematicBreak(s)
            <==> s != "" && s[0] in "-*_" && (forall k | 0 <= k < |s| :: s[k] == s[0] || IsSpace(s[k]))
                 && exists i, j | 0 < i < j < |s| :: s[i] == s[0] && s[j] == s[0]
  {
    if s != "" {
      var c := s[0];
      CountSome(s[1..], c);
      if i, j :| 0 < i < j < |s| && s[i] == c && s[j] == c {
        assert s[1..][i - 1] == c && s[1..][j - 1] == c;
      }
      if i, j :| 0 <= i < j < |s[1..]| && s[1..][i] == c && s[1..][j] == c {
        assert s[i + 1] == c && s[j + 1] == c;
      }
    }
  }

  lemma {:induction false} CountSome(s: string, c: char)
    ensures Count(s, c) >= 1 <==> exists i | 0 <= i < |s| :: s[i] == c
    ensures Count(s, c) >= 2 <==> exists i, j | 0 <= i < j < |s| :: s[i] == c && s[j] == c
  {
    if s != "" {
      var t := s[1..];
      CountSome(t, c);
      assert forall k | 0 <= k < |t| :: t[k] == s[k + 1];
      if i :| 0 <= i < |t| && t[i] == c { assert s[i + 1] == c; }
      if i :| 0 < i < |s| && s[i] == c { assert t[i - 1] == c; }
      if i, j :| 0 <= i < j < |t| && t[i] == c && t[j] == c { assert s[i + 1] == c && s[j + 1] == c; }
      if i, j :| 0 < i < j < |s| && s[i] == c && s[j] == c { assert t[i - 1] == c && t[j - 1] == c; }
      if s[0] == c && Count(t, c) >= 1 {
        var i :| 0 <= i < |t| && t[i] == c;
        assert s[0] == c && s[i + 1] == c;
      }
    }
  }
}
