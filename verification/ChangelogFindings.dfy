/** What a changelog without findings is, line by line, and what the parser reads from it. */
module ChangelogFindings {
  import opened Ascii
  import opened Wrappers
  import opened Columns
  import opened Containers
  import opened Versions
  import opened Headings
  import opened ChangelogParse
  import opened FencesInside
  import F = Fences

  // ---- Deep fences --------------------------------------------------------------------------

  /** The deep fence open after the first `n` lines. */
  function DeepAfter(lines: seq<string>, skip: seq<bool>, n: nat): Option<DeepFence>
    requires |skip| == |lines| && n <= |lines|
  {
    if n == 0 then None
    else
      var before := DeepAfter(lines, skip, n - 1);
      if skip[n - 1] then before else DeepStep(before, lines[n - 1]).0
  }

  /** The line belongs to a deep fence and is not read. */
  predicate Silenced(lines: seq<string>, skip: seq<bool>, i: nat)
    requires |skip| == |lines| && i < |lines|
  {
    DeepStep(DeepAfter(lines, skip, i), lines[i]).1
  }

  /** Three columns in or less, a line has nothing to do with deep fences. */
  lemma ShallowLine(deep: Option<DeepFence>, line: string)
    requires IndentFrom(line, 0) <= 3
    ensures DeepStep(deep, line) == (deep, false)
  {
  }

  /** Four columns in or more, a delimiter opens a deep fence at its column where none is open. */
  lemma DeepOpens(line: string, blanks: string, c: char, n: nat, info: string)
    requires Spells(line, blanks, c, n, info) && n >= 3 && IndentFrom(line, 0) >= 4
    ensures DeepStep(None, line)
            == (if c == '`' && '`' in info then None else Some(DeepFence(c, n, IndentFrom(line, 0))), true)
  {
    hide Spells, IndentFrom;
    FenceRunText(line, blanks, c, n, info);
    F.DropTwice(line);
  }

  /** It closes one of its mark that is no longer than itself, with nothing but blanks after it. */
  lemma DeepCloses(deep: DeepFence, line: string, blanks: string, c: char, n: nat, info: string)
    requires Spells(line, blanks, c, n, info) && n >= 3 && IndentFrom(line, 0) >= 4
    ensures DeepStep(Some(deep), line)
            == (if c == deep.mark && n >= deep.width && AllIn(info, IsBlank) then None else Some(deep), true)
  {
    hide Spells, IndentFrom;
    FenceRunText(line, blanks, c, n, info);
    F.DropTwice(line);
  }

  /** Any other line is silenced while it is indented as far as the fence that is open. */
  lemma DeepText(deep: Option<DeepFence>, line: string)
    requires F.FenceRun(line).None? && IndentFrom(line, 0) >= 4
    ensures DeepStep(deep, line) == (deep, deep.Some? && IndentFrom(line, 0) >= deep.value.indent)
  {
    hide F.BareRun, IndentFrom;
    F.DropTwice(line);
  }

  // ---- A line without findings ----------------------------------------------------------------

  /**
   * A heading nothing is found wrong with. A release heading is a level-2 heading at column 0, spelled as
   * the release pipeline cuts, and a version with its date, `[Unreleased]` or a reconstructed heading; no
   * heading of another level names a release; and once there is an entry, no category hides.
   */
  predicate HeadingClean(h: Heading, line: string, started: bool) {
    if h.level == 2 then
      (h.text != "" && h.text[0] == '[') || NamesRelease(h.text) ==>
        h.placement == Column0 && h.text != "" && h.text[0] == '[' && "## [" <= line && EntryKind(h.text) != Malformed
    else
      !NamesRelease(h.text)
      && (h.level == 3 && started && h.placement != Column0 ==>
            h.placement != Indented && h.text !in ["Added", "Changed", "Deprecated", "Removed", "Fixed", "Security"])
  }

  /** An entry stands above line `i`. */
  predicate Started(lines: seq<string>, skip: seq<bool>, i: nat)
    requires |skip| == |lines| && i <= |lines|
  {
    exists j | 0 <= j < i :: !skip[j] && "## [" <= lines[j]
  }

  /** Line `i` makes a setext heading of the line above it. */
  predicate Underlines(lines: seq<string>, skip: seq<bool>, i: nat)
    requires |skip| == |lines| && i < |lines|
  {
    i > 0 && !skip[i - 1] && IsSetext(lines[i - 1], ChainAfter(lines[..i]), lines[i])
  }

  /** The line is read as a heading, if it is one: no fence, definition or underline takes it. */
  predicate Readable(lines: seq<string>, skip: seq<bool>, i: nat)
    requires |skip| == |lines| && i < |lines|
  {
    !skip[i] && !Silenced(lines, skip, i) && LinkDefinition(lines[i]).None?
  }

  predicate LineClean(lines: seq<string>, skip: seq<bool>, i: nat)
    requires |skip| == |lines| && i < |lines|
  {
    '\r' !in lines[i]
    && (Readable(lines, skip, i) ==>
          !Underlines(lines, skip, i)
          && match ClassifyHeading(lines[i], ChainAfter(lines[..i + 1]))
             case None => true
             case Some(h) => HeadingClean(h, lines[i], Started(lines, skip, i)))
  }

  lemma {:induction false} DeepParsed(lines: seq<string>, skip: seq<bool>, n: nat)
    requires |skip| == |lines| && n <= |lines|
    ensures ParseTo(lines, skip, n).deep == DeepAfter(lines, skip, n)
  {
    hide DeepStep, LinkDefinition, IsSetext, ClassifyHeading, NamesRelease, EntryKind, ChainAfter;
    if n > 0 { DeepParsed(lines, skip, n - 1); }
  }

  lemma HeadingFindings(p: Parse, n: nat, line: string, h: Heading)
    ensures HeadingStep(p, n, line, h).findings == p.findings <==> HeadingClean(h, line, p.entries != [])
  {
    hide NamesRelease, EntryKind;
  }

  lemma StartedIff(lines: seq<string>, skip: seq<bool>, n: nat)
    requires |skip| == |lines| && n <= |lines| && ParseTo(lines, skip, n).findings == []
    ensures ParseTo(lines, skip, n).entries != [] <==> Started(lines, skip, n)
  {
    hide LineStep, ChainAfter, IsBoundary;
    ReadersAgree(lines, skip, n);
    SomeBoundary(lines, skip, n);
  }

  lemma {:induction false} SomeBoundary(lines: seq<string>, skip: seq<bool>, n: nat)
    requires |skip| == |lines| && n <= |lines|
    ensures Boundaries(lines, skip, n) != [] <==> Started(lines, skip, n)
  {
    if n > 0 {
      hide IsBoundary;
      SomeBoundary(lines, skip, n - 1);
      StartedMore(lines, skip, n);
    }
  }

  lemma StartedMore(lines: seq<string>, skip: seq<bool>, n: nat)
    requires |skip| == |lines| && 0 < n <= |lines|
    ensures Started(lines, skip, n) <==> Started(lines, skip, n - 1) || (!skip[n - 1] && IsBoundary(lines[n - 1]))
  {
  }

  lemma ReadFindings(p: Parse, n: nat, line: string, chain: Chain, above: Option<Above>)
    ensures ReadLine(p, n, line, chain, above).findings == p.findings
            <==> (DeepStep(p.deep, line).1 || LinkDefinition(line).Some?
                  || (!(above.Some? && IsSetext(above.value.line, above.value.chain, line))
                      && (ClassifyHeading(line, chain).None?
                          || HeadingClean(ClassifyHeading(line, chain).value, line, p.entries != []))))
  {
    hide DeepStep, LinkDefinition, IsSetext, ClassifyHeading, HeadingStep, HeadingClean;
    var h := ClassifyHeading(line, chain);
    if h.Some? { HeadingFindings(p.(deep := DeepStep(p.deep, line).0), n, line, h.value); }
  }

  lemma LineFindings(lines: seq<string>, skip: seq<bool>, i: nat)
    requires |skip| == |lines| && i < |lines| && ParseTo(lines, skip, i).findings == []
    ensures ParseTo(lines, skip, i + 1).findings == [] <==> LineClean(lines, skip, i)
  {
    hide DeepStep, LinkDefinition, IsSetext, ClassifyHeading, HeadingClean, ReadLine, ChainAfter, Started;
    var p := ParseTo(lines, skip, i);
    DeepParsed(lines, skip, i);
    StartedIff(lines, skip, i);
    ReadFindings(p, i + 1, lines[i], ChainAfter(lines[..i + 1]), AboveOf(lines, skip, i));
    StepKeepsFindings(p, i + 1, lines[i], skip[i], ChainAfter(lines[..i + 1]), AboveOf(lines, skip, i));
    if '\r' in lines[i] {
      CarriageFound(p, i + 1, lines[i], skip[i], ChainAfter(lines[..i + 1]), AboveOf(lines, skip, i));
    }
  }

  lemma CarriageFound(p: Parse, n: nat, line: string, skipped: bool, chain: Chain, above: Option<Above>)
    requires '\r' in line
    ensures LineStep(p, n, line, skipped, chain, above).findings != []
  {
    hide ReadLine;
    ReadKeepsFindings(Report(p, n, CarriageReturn), n, line, chain, above);
  }

  /** The parser finds nothing exactly in the files every line of which is clean. */
  lemma {:induction false} FindingsIff(lines: seq<string>, skip: seq<bool>, n: nat)
    requires |skip| == |lines| && n <= |lines|
    ensures ParseTo(lines, skip, n).findings == [] <==> forall i | 0 <= i < n :: LineClean(lines, skip, i)
  {
    hide LineClean, LineStep, ChainAfter;
    if n > 0 {
      var i := n - 1;
      FindingsIff(lines, skip, i);
      if ParseTo(lines, skip, i).findings == [] {
        LineFindings(lines, skip, i);
      } else {
        var p := ParseTo(lines, skip, i);
        StepKeepsFindings(p, n, lines[i], skip[i], ChainAfter(lines[..n]), AboveOf(lines, skip, i));
      }
    }
  }

  // ---- What is read ---------------------------------------------------------------------------

  /** The definitions of the lines that are read, each with its line. */
  function DefinitionsIn(lines: seq<string>, skip: seq<bool>, n: nat): seq<Definition>
    requires |skip| == |lines| && n <= |lines|
  {
    if n == 0 then []
    else
      DefinitionsIn(lines, skip, n - 1)
      + if !skip[n - 1] && !Silenced(lines, skip, n - 1) && LinkDefinition(lines[n - 1]).Some?
        then [Definition(n, LinkDefinition(lines[n - 1]).value.0, LinkDefinition(lines[n - 1]).value.1)]
        else []
  }

  /** The definitions the parser reads, with findings or without. */
  lemma {:induction false} DefinitionsParsed(lines: seq<string>, skip: seq<bool>, n: nat)
    requires |skip| == |lines| && n <= |lines|
    ensures ParseTo(lines, skip, n).definitions == DefinitionsIn(lines, skip, n)
  {
    hide DeepStep, LinkDefinition, IsSetext, ClassifyHeading, NamesRelease, EntryKind, ChainAfter;
    if n > 0 {
      DefinitionsParsed(lines, skip, n - 1);
      DeepParsed(lines, skip, n - 1);
    }
  }

  /** The heading line `i` is read as, if it is read. */
  function HeadingAt(lines: seq<string>, skip: seq<bool>, i: nat): Option<Heading>
    requires |skip| == |lines| && i < |lines|
  {
    if Readable(lines, skip, i) then ClassifyHeading(lines[i], ChainAfter(lines[..i + 1])) else None
  }

  /** The category headings below the first entry, each with its line. */
  function CategoriesIn(lines: seq<string>, skip: seq<bool>, n: nat): seq<(string, nat)>
    requires |skip| == |lines| && n <= |lines|
  {
    if n == 0 then []
    else
      var h := HeadingAt(lines, skip, n - 1);
      CategoriesIn(lines, skip, n - 1)
      + if h.Some? && h.value.level == 3 && h.value.placement == Column0 && Started(lines, skip, n - 1)
        then [(h.value.text, n)]
        else []
  }

  /** All categories, entry after entry. */
  function AllCategories(entries: seq<Entry>): seq<(string, nat)> {
    if entries == [] then []
    else AllCategories(entries[..|entries| - 1]) + entries[|entries| - 1].categories
  }

  /** An entry is the heading on its line. */
  predicate EntryRead(lines: seq<string>, skip: seq<bool>, e: Entry)
    requires |skip| == |lines|
  {
    1 <= e.line <= |lines|
    && match HeadingAt(lines, skip, e.line - 1)
       case None => false
       case Some(h) => h.level == 2 && h.placement == Column0 && e.text == h.text && e.kind == EntryKind(h.text)
  }

  lemma EntryAdded(p: Parse, n: nat, text: string, kind: Kind)
    ensures AllCategories(AddEntry(p, n, text, kind).entries) == AllCategories(p.entries)
  {
    assert (p.entries + [Entry(n, text, kind, [])])[..|p.entries|] == p.entries;
  }

  lemma CategoryAdded(p: Parse, text: string, n: nat)
    requires p.entries != []
    ensures AllCategories(AddCategory(p, text, n).entries) == AllCategories(p.entries) + [(text, n)]
    ensures forall k | 0 <= k < |p.entries| ::
              var e, e' := p.entries[k], AddCategory(p, text, n).entries[k];
              e'.line == e.line && e'.text == e.text && e'.kind == e.kind
    ensures |AddCategory(p, text, n).entries| == |p.entries|
  {
    var last := |p.entries| - 1;
    var q := AddCategory(p, text, n).entries;
    assert q[..last] == p.entries[..last];
    assert AllCategories(p.entries[..last]) + (p.entries[last].categories + [(text, n)])
        == AllCategories(p.entries) + [(text, n)];
  }

  /** What a clean heading adds. */
  lemma HeadingAdds(p: Parse, n: nat, line: string, h: Heading)
    requires HeadingClean(h, line, p.entries != [])
    ensures var q := HeadingStep(p, n, line, h);
            AllCategories(q.entries)
            == AllCategories(p.entries)
               + (if h.level == 3 && h.placement == Column0 && p.entries != [] then [(h.text, n)] else [])
            && |q.entries| == |p.entries|
               + (if h.level == 2 && ReleaseLike(h.text) then 1 else 0)
            && (forall k | 0 <= k < |p.entries| ::
                  q.entries[k].line == p.entries[k].line && q.entries[k].text == p.entries[k].text
                  && q.entries[k].kind == p.entries[k].kind)
            && (h.level == 2 && ReleaseLike(h.text) ==>
                  q.entries[|p.entries|].line == n && q.entries[|p.entries|].text == h.text
                  && q.entries[|p.entries|].kind == EntryKind(h.text) && h.placement == Column0)
  {
    hide NamesRelease, EntryKind, AllCategories;
    EntryAdded(p, n, h.text, EntryKind(h.text));
    if p.entries != [] { CategoryAdded(p, h.text, n); }
    assert AllCategories(p.entries) + [] == AllCategories(p.entries);
  }

  /** In a clean file the entries are the headings on their lines, and the categories all those below the first. */
  lemma {:induction false} EntriesParsed(lines: seq<string>, skip: seq<bool>, n: nat)
    requires |skip| == |lines| && n <= |lines| && ParseTo(lines, skip, n).findings == []
    ensures var p := ParseTo(lines, skip, n);
            (forall k | 0 <= k < |p.entries| :: EntryRead(lines, skip, p.entries[k]))
            && AllCategories(p.entries) == CategoriesIn(lines, skip, n)
  {
    hide LineStep, ChainAfter, EntryRead, LineClean, AllCategories, HeadingAt, Started;
    if n == 0 {
      NoCategoriesYet();
    } else {
      var i := n - 1;
      var p := ParseTo(lines, skip, i);
      StepKeepsFindings(p, n, lines[i], skip[i], ChainAfter(lines[..n]), AboveOf(lines, skip, i));
      EntriesParsed(lines, skip, i);
      LineFindings(lines, skip, i);
      StartedIff(lines, skip, i);
      StepEntries(lines, skip, i);
    }
  }

  lemma NoCategoriesYet()
    ensures AllCategories([]) == []
  {
  }

  lemma StepEntries(lines: seq<string>, skip: seq<bool>, i: nat)
    requires |skip| == |lines| && i < |lines| && ParseTo(lines, skip, i).findings == [] && LineClean(lines, skip, i)
    requires var p := ParseTo(lines, skip, i);
             forall k | 0 <= k < |p.entries| :: EntryRead(lines, skip, p.entries[k])
    requires ParseTo(lines, skip, i).entries != [] <==> Started(lines, skip, i)
    ensures var p, q, h := ParseTo(lines, skip, i), ParseTo(lines, skip, i + 1), HeadingAt(lines, skip, i);
            (forall k | 0 <= k < |q.entries| :: EntryRead(lines, skip, q.entries[k]))
            && AllCategories(q.entries) == AllCategories(p.entries)
               + (if h.Some? && h.value.level == 3 && h.value.placement == Column0 && Started(lines, skip, i)
                  then [(h.value.text, i + 1)] else [])
  {
    hide DeepStep, LinkDefinition, IsSetext, ClassifyHeading, HeadingStep, HeadingClean, ChainAfter, Started;
    hide AllCategories, NamesRelease, EntryKind;
    var p, q := ParseTo(lines, skip, i), ParseTo(lines, skip, i + 1);
    DeepParsed(lines, skip, i);
    var h := HeadingAt(lines, skip, i);
    if h.Some? {
      var p' := p.(deep := DeepStep(p.deep, lines[i]).0);
      HeadingAdds(p', i + 1, lines[i], h.value);
      assert q == HeadingStep(p', i + 1, lines[i], h.value);
    } else {
      assert q.entries == p.entries;
    }
  }

  /** The kinds of entry by their texts. */
  lemma EntryKinds(text: string)
    ensures EntryKind(text) == Unreleased <==> text == "[Unreleased]"
    ensures EntryKind(text) == Reconstructed(0)
            <==> text == "[0.7.5] \U{2013} [0.7.0] \U{2014} 2026-06-21\U{2026}22"
    ensures EntryKind(text) == Reconstructed(1)
            <==> text == "[0.6.x] and earlier \U{2014} 2026-06 (reconstructed)"
    ensures EntryKind(text).Reconstructed? ==> EntryKind(text).rank <= 1
  {
    hide VersionHeading;
    ShortHeading("[Unreleased]");
    var a := "[0.7.5] \U{2013} [0.7.0] \U{2014} 2026-06-21\U{2026}22";
    var b := "[0.6.x] and earlier \U{2014} 2026-06 (reconstructed)";
    UndatedHeading(a);
    assert b == "[0.6.x] a" + "nd earlier \U{2014} 2026-06 (reconstructed)";
    UndatedHeading(b);
    assert a[3] == '7' && b[3] == '6' && "[Unreleased]"[3] == 'r';
  }

  lemma ShortHeading(text: string)
    requires |text| == 12 && text[11] == ']' && forall k | 0 <= k < 11 :: text[k] != ']'
    ensures VersionHeading(text).None?
  {
    IndexAt(text, 11);
  }

  lemma UndatedHeading(text: string)
    requires |text| > 8 && text[6] == ']' && (forall k | 0 <= k < 6 :: text[k] != ']') && text[8] !in "\U{2014}-"
    ensures VersionHeading(text).None?
  {
    hide ParseVersion, IsoShape;
    IndexAt(text, 6);
  }

  lemma {:induction false} IndexAt(s: string, n: nat)
    requires n < |s| && s[n] == ']' && forall k | 0 <= k < n :: s[k] != ']'
    ensures IndexOf(s, ']') == n
  {
    if n > 0 { IndexAt(s[1..], n - 1); }
  }
}
