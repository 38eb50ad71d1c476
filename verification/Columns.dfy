/**
 * The column model of `scripts/check-docs.py` (section 2.2 of CommonMark 0.31): a tab advances to
 * the next four-column stop. Expansion is what every block rule reads, so it is shown to be
 * idempotent and to agree with the count of a line's indentation.
 */
module Columns {
  import opened Ascii

  /** The columns a character at column `col` takes. */
  function Width(c: char, col: nat): (w: nat)
    ensures 1 <= w <= 4
  {
    if c == '\t' then 4 - col % 4 else 1
  }

  /** `text`, which starts at column `col`, with its tabs expanded. */
  function ExpandFrom(text: string, col: nat): string {
    if text == [] then []
    else
      (if text[0] == '\t' then Spaces(Width('\t', col)) else [text[0]])
      + ExpandFrom(text[1..], col + Width(text[0], col))
  }

  function Expand(text: string): string { ExpandFrom(text, 0) }

  /** `expand_tabs` */
  method ExpandTabs(text: string) returns (r: string)
    ensures r == Expand(text)
  {
    if '\t' !in text {
      NoTabsNoChange(text, 0);
      return text;
    }
    var out: string := [];
    var col: nat := 0;
    for i := 0 to |text|
      invariant out + ExpandFrom(text[i..], col) == Expand(text)
    {
      hide ExpandFrom, Spaces;
      ghost var before, at := out, col;
      if text[i] == '\t' {
        var width := 4 - col % 4;
        out := out + Spaces(width);
        col := col + width;
      } else {
        out := out + [text[i]];
        col := col + 1;
      }
      ExpandStep(before, text, i, at);
    }
    assert text[|text|..] == [];
    return out;
  }

  lemma ExpandStep(before: string, text: string, i: nat, col: nat)
    requires i < |text|
    ensures before + ExpandFrom(text[i..], col)
            == before + (if text[i] == '\t' then Spaces(4 - col % 4) else [text[i]])
               + ExpandFrom(text[i + 1..], col + Width(text[i], col))
  {
    assert text[i..][0] == text[i] && text[i..][1..] == text[i + 1..];
  }

  lemma {:induction false} NoTabsNoChange(text: string, col: nat)
    requires '\t' !in text
    ensures ExpandFrom(text, col) == text
  {
    if text != [] {
      assert text == [text[0]] + text[1..];
      NoTabsNoChange(text[1..], col + 1);
    }
  }

  lemma {:induction false} ExpandedHasNoTabs(text: string, col: nat)
    ensures '\t' !in ExpandFrom(text, col)
  {
    if text != [] { ExpandedHasNoTabs(text[1..], col + Width(text[0], col)); }
  }

  /**
   * All there is to expansion: a text without tabs stays as it is, and a text's first tab becomes the one to
   * four spaces that end at the next column four divides, the text after it expanding as if it stood alone.
   */
  lemma TabStop(before: string, after: string)
    requires '\t' !in before
    ensures Expand(before) == before
    ensures exists n | 1 <= n <= 4 ::
              (|before| + n) % 4 == 0 && Expand(before + ("\t" + after)) == before + Spaces(n) + Expand(after)
  {
    NoTabsNoChange(before, 0);
    var n := 4 - |before| % 4;
    PlainPrefix(before, "\t" + after, 0);
    assert ("\t" + after)[1..] == after;
    AtStop(after, (|before| + n) / 4);
    assert before + (Spaces(n) + Expand(after)) == before + Spaces(n) + Expand(after);
  }

  lemma {:induction false} PlainPrefix(before: string, rest: string, col: nat)
    requires '\t' !in before
    ensures ExpandFrom(before + rest, col) == before + ExpandFrom(rest, col + |before|)
  {
    if before == "" {
      assert before + rest == rest;
    } else {
      assert (before + rest)[1..] == before[1..] + rest;
      PlainPrefix(before[1..], rest, col + 1);
      assert before == [before[0]] + before[1..];
    }
  }

  lemma {:induction false} StopsRepeat(text: string, col: nat)
    ensures ExpandFrom(text, col + 4) == ExpandFrom(text, col)
  {
    if text != "" { StopsRepeat(text[1..], col + Width(text[0], col)); }
  }

  /** A text reads from any tab stop as it reads from the margin. */
  lemma {:induction false} AtStop(text: string, k: nat)
    ensures ExpandFrom(text, 4 * k) == Expand(text)
  {
    if k > 0 {
      AtStop(text, k - 1);
      StopsRepeat(text, 4 * (k - 1));
    }
  }

  /** Expanding twice is expanding once, wherever the second text starts. */
  lemma ExpandIdempotent(text: string, col: nat)
    ensures ExpandFrom(Expand(text), col) == Expand(text)
  {
    ExpandedHasNoTabs(text, 0);
    NoTabsNoChange(Expand(text), col);
  }

  /** The columns of leading spaces and tabs of a text that starts at column `col`. */
  function IndentFrom(line: string, col: nat): nat {
    if line == [] || !IsBlank(line[0]) then col else IndentFrom(line[1..], col + Width(line[0], col))
  }

  /** `indent_columns` */
  method IndentColumns(line: string) returns (col: nat)
    ensures col == IndentFrom(line, 0)
  {
    col := 0;
    var i := 0;
    while i < |line|
      invariant 0 <= i <= |line|
      invariant IndentFrom(line[i..], col) == IndentFrom(line, 0)
    {
      if line[i] == ' ' { col := col + 1; }
      else if line[i] == '\t' { col := col + 4 - col % 4; }
      else { return; }
      i := i + 1;
    }
  }

  lemma BlankStep(line: string, col: nat)
    requires line != [] && IsBlank(line[0])
    ensures ExpandFrom(line, col) == Spaces(Width(line[0], col)) + ExpandFrom(line[1..], col + Width(line[0], col))
    ensures DropBlanks(line) == DropBlanks(line[1..])
  {
    assert line[0] == ' ' ==> [line[0]] == Spaces(1);
  }

  lemma SpacesAppend(a: nat, b: nat, rest: string)
    ensures Spaces(a) + (Spaces(b) + rest) == Spaces(a + b) + rest
  {
  }

  /** The expansion of a line is its indentation and the expansion of what follows the blanks. */
  lemma {:induction false} ExpandedIndent(line: string, col: nat)
    ensures col <= IndentFrom(line, col)
    ensures ExpandFrom(line, col)
            == Spaces(IndentFrom(line, col) - col) + ExpandFrom(DropBlanks(line), IndentFrom(line, col))
  {
    hide ExpandFrom, DropBlanks, Spaces;
    if line == [] || !IsBlank(line[0]) {
      NothingToDrop(line, col);
    } else {
      var w, n := Width(line[0], col), IndentFrom(line, col);
      BlankStep(line, col);
      ExpandedIndent(line[1..], col + w);
      SpacesAppend(w, n - (col + w), ExpandFrom(DropBlanks(line), n));
    }
  }

  lemma NothingToDrop(line: string, col: nat)
    requires line == [] || !IsBlank(line[0])
    ensures DropBlanks(line) == line && Spaces(0) + ExpandFrom(line, col) == ExpandFrom(line, col)
  {
  }

  /** A line's indentation, in columns, is the number of leading spaces of its expansion. */
  lemma IndentIsExpandedSpaces(line: string, col: nat)
    ensures col <= IndentFrom(line, col)
    ensures LeadingSpaces(ExpandFrom(line, col)) == IndentFrom(line, col) - col
  {
    var n := IndentFrom(line, col);
    var rest := DropBlanks(line);
    ExpandedIndent(line, col);
    ExpandedHead(rest, n);
    SpacesThenOther(n - col, ExpandFrom(rest, n));
  }

  /** Expansion keeps a first character that is not a tab. */
  lemma ExpandedHead(text: string, col: nat)
    ensures text == [] ==> ExpandFrom(text, col) == []
    ensures text != [] && text[0] != '\t' ==> ExpandFrom(text, col) != [] && ExpandFrom(text, col)[0] == text[0]
  {
  }

  lemma SpacesThenOther(n: nat, rest: string)
    requires rest == [] || rest[0] != ' '
    ensures LeadingSpaces(Spaces(n) + rest) == n
  {
    RunLengthUniqueSpaces(Spaces(n) + rest, n);
  }

  lemma {:induction false} RunLengthUniqueSpaces(s: string, n: nat)
    requires n <= |s|
    requires forall k | 0 <= k < n :: s[k] == ' '
    requires n < |s| ==> s[n] != ' '
    ensures LeadingSpaces(s) == n
  {
    LeadingSpacesStep(s);
    if n > 0 { RunLengthUniqueSpaces(s[1..], n - 1); }
  }

  /** Leading spaces, one character at a time. */
  lemma LeadingSpacesStep(s: string)
    ensures LeadingSpaces(s) == if s == [] || s[0] != ' ' then 0 else 1 + LeadingSpaces(s[1..])
  {
  }
}
