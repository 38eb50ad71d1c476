/**
 * `parse_changelog` of `scripts/check-docs.py`: the entries, categories and link definitions of a
 * changelog, and the findings about headings that are not where the release pipeline looks. Two
 * programs cut a changelog into entries: this parser, which reads Markdown, and the release-notes
 * extractor, which knows one line shape only. A file without findings is cut by both in the same
 * places.
 */
module ChangelogParse {
  import opened Ascii
  import opened Wrappers
  import opened Columns
  import opened Containers
  import opened Versions
  import opened Headings
  import F = Fences

  datatype Kind = Unreleased | Release(version: Version, date: string) | Reconstructed(rank: nat) | Malformed

  /** An entry: its line, its heading's text, and the category headings below it with their lines. */
  datatype Entry = Entry(line: nat, text: string, kind: Kind, categories: seq<(string, nat)>)

  datatype Defect =
    | CarriageReturn | SetextHeading | HiddenEntry | WrongLevel | Unbracketed | Unpublishable | BadEntry
    | HiddenCategory

  datatype Finding = Finding(line: nat, defect: Defect)

  /** A fence delimiter four columns in or more: its character, width and column. */
  datatype DeepFence = DeepFence(mark: char, width: nat, indent: nat)

  datatype Parse = Parse(entries: seq<Entry>, definitions: seq<Definition>, findings: seq<Finding>,
                         deep: Option<DeepFence>)

  /** Keep a Changelog 1.1.0's change types, in its order. */
  const KAC_CATEGORIES: seq<string> := ["Added", "Changed", "Deprecated", "Removed", "Fixed", "Security"]

  // ---- One line -----------------------------------------------------------------------------

  /** The pass over deep fences: the fence open after the line, and whether the line is left unread. */
  function DeepStep(deep: Option<DeepFence>, line: string): (Option<DeepFence>, bool) {
    var indent := IndentFrom(line, 0);
    if indent < 4 then (deep, false)
    else
      match F.FenceRun(DropBlanks(line))
      case Some(run) =>
        if deep.None? then
          (if F.OpensFence(Some(run)) then Some(DeepFence(run.mark, run.width, indent)) else None, true)
        else if run.mark == deep.value.mark && run.width >= deep.value.width && AllIn(run.info, IsBlank) then
          (None, true)
        else (deep, true)
      case None => (deep, deep.Some? && indent >= deep.value.indent)
  }

  /** The line above and the line make a setext heading. */
  predicate IsSetext(above: string, chainAbove: Chain, line: string) {
    var under := Strip(line);
    IsUnderline(DropBlanks(under.content)) && !HasListMarker(under.prefix) &&
    var subject := Strip(above);
    var column := if subject.items == [] then F.ChainColumn(chainAbove, subject.depth) else subject.columns;
    var indent := IndentFrom(under.content, 0);
    && subject.depth == under.depth
    && column <= indent <= column + 3
    && !BlankLine(subject.content)
    && !IsListItem(subject.content)
    && !InterruptsParagraph(subject.content)
    && LinkDefinition(subject.content).None?
    && !(LStrip(subject.content) != [] && LStrip(subject.content)[0] in "|<")
  }

  function EntryKind(text: string): Kind {
    match VersionHeading(text)
    case Some((v, date)) => Release(v, date)
    case None =>
      if text == "[Unreleased]" then Unreleased
      else if text == RECONSTRUCTED_HEADINGS[0] then Reconstructed(0)
      else if text == RECONSTRUCTED_HEADINGS[1] then Reconstructed(1)
      else Malformed
  }

  function Report(p: Parse, line: nat, defect: Defect): Parse {
    p.(findings := p.findings + [Finding(line, defect)])
  }

  function AddEntry(p: Parse, line: nat, text: string, kind: Kind): Parse {
    p.(entries := p.entries + [Entry(line, text, kind, [])])
  }

  function AddCategory(p: Parse, text: string, line: nat): Parse
    requires p.entries != []
  {
    var last := |p.entries| - 1;
    var e := p.entries[last];
    p.(entries := p.entries[..last] + [e.(categories := e.categories + [(text, line)])])
  }

  /** A heading of any placement: an entry, a category, a defect, or prose. */
  function HeadingStep(p: Parse, n: nat, line: string, h: Heading): Parse {
    if h.level == 2 && ReleaseLike(h.text) && h.placement != Column0 then
      AddEntry(Report(p, n, HiddenEntry), n, h.text, Malformed)
    else if h.level != 2 && NamesRelease(h.text) then Report(p, n, WrongLevel)
    else if h.level == 2 && ReleaseLike(h.text) then
      if h.text == [] || h.text[0] != '[' then AddEntry(Report(p, n, Unbracketed), n, h.text, Malformed)
      else
        var p := if IsBoundary(line) then p else Report(p, n, Unpublishable);
        var p := AddEntry(p, n, h.text, EntryKind(h.text));
        if EntryKind(h.text) == Malformed then Report(p, n, BadEntry) else p
    else if h.level == 3 && p.entries != [] then
      if h.placement in {Deep, Container} && h.text !in KAC_CATEGORIES then p
      else AddCategory(if h.placement != Column0 then Report(p, n, HiddenCategory) else p, h.text, n)
    else p
  }

  /** What the line before a line offers a setext underline: its text and chain, unless it is skipped. */
  datatype Above = Above(line: string, chain: Chain)

  /** One line, numbered `n`, that is not skipped. */
  function ReadLine(p: Parse, n: nat, line: string, chain: Chain, above: Option<Above>): Parse {
    var (deep, silenced) := DeepStep(p.deep, line);
    var p := p.(deep := deep);
    if silenced then p
    else
      match LinkDefinition(line)
      case Some((name, url)) => p.(definitions := p.definitions + [Definition(n, name, url)])
      case None =>
        if above.Some? && IsSetext(above.value.line, above.value.chain, line) then Report(p, n, SetextHeading)
        else
          match ClassifyHeading(line, chain)
          case None => p
          case Some(h) => HeadingStep(p, n, line, h)
  }

  function LineStep(p: Parse, n: nat, line: string, skipped: bool, chain: Chain, above: Option<Above>): Parse {
    var p := if '\r' in line then Report(p, n, CarriageReturn) else p;
    if skipped then p else ReadLine(p, n, line, chain, above)
  }

  // ---- The whole file -----------------------------------------------------------------------

  const NOTHING: Parse := Parse([], [], [], None)

  function AboveOf(lines: seq<string>, skip: seq<bool>, i: nat): Option<Above>
    requires |skip| == |lines| && i < |lines|
  {
    if i == 0 || skip[i - 1] then None else Some(Above(lines[i - 1], ChainAfter(lines[..i])))
  }

  /** The first `n` lines. */
  function ParseTo(lines: seq<string>, skip: seq<bool>, n: nat): Parse
    requires |skip| == |lines| && n <= |lines|
  {
    if n == 0 then NOTHING
    else
      var i := n - 1;
      LineStep(ParseTo(lines, skip, i), n, lines[i], skip[i], ChainAfter(lines[..n]), AboveOf(lines, skip, i))
  }

  /** The body of the loop, for the line at index `n - 1`. */
  method ReadOne(p: Parse, n: nat, line: string, skipped: bool, chain: Chain, above: Option<Above>) returns (q: Parse)
    ensures q == LineStep(p, n, line, skipped, chain, above)
  {
    hide DeepStep, LinkDefinition, IsSetext, ClassifyHeading, HeadingStep;
    q := p;
    if '\r' in line { q := Report(q, n, CarriageReturn); }
    if skipped { return; }
    var deep, silenced := DeepStep(q.deep, line).0, DeepStep(q.deep, line).1;
    q := q.(deep := deep);
    if silenced { return; }
    var d := LinkDefinition(line);
    if d.Some? {
      q := q.(definitions := q.definitions + [Definition(n, d.value.0, d.value.1)]);
      return;
    }
    if above.Some? && IsSetext(above.value.line, above.value.chain, line) {
      q := Report(q, n, SetextHeading);
      return;
    }
    var h := ClassifyHeading(line, chain);
    if h.Some? { q := HeadingStep(q, n, line, h.value); }
  }

  /** `parse_changelog` */
  method ParseChangelog(lines: seq<string>, skip: seq<bool>) returns (p: Parse)
    requires |skip| == |lines|
    ensures p == ParseTo(lines, skip, |lines|)
  {
    hide LineStep, ChainAfter;
    p := NOTHING;
    var chains := ContainerChains(lines);
    for i := 0 to |lines|
      invariant p == ParseTo(lines, skip, i)
    {
      var above := if i == 0 || skip[i - 1] then None else Some(Above(lines[i - 1], chains[i - 1]));
      p := ReadOne(p, i + 1, lines[i], skip[i], chains[i], above);
    }
  }

  // ---- Two readers of one file --------------------------------------------------------------

  function EntryLines(entries: seq<Entry>): seq<nat> {
    if entries == [] then [] else EntryLines(entries[..|entries| - 1]) + [entries[|entries| - 1].line]
  }

  /** Where the release-notes extractor cuts: the unskipped lines that begin with `## [`. */
  function Boundaries(lines: seq<string>, skip: seq<bool>, n: nat): seq<nat>
    requires |skip| == |lines| && n <= |lines|
  {
    if n == 0 then []
    else Boundaries(lines, skip, n - 1) + (if !skip[n - 1] && IsBoundary(lines[n - 1]) then [n] else [])
  }

  /** One heading adds the entry the extractor would see, unless it reports a defect. */
  lemma HeadingStepEntries(p: Parse, n: nat, line: string, h: Heading)
    requires HeadingStep(p, n, line, h).findings == p.findings
    ensures var q := HeadingStep(p, n, line, h);
            EntryLines(q.entries) == EntryLines(p.entries)
            || (IsBoundary(line) && EntryLines(q.entries) == EntryLines(p.entries) + [n])
    ensures h.level == 2 && h.placement == Column0 && h.text != [] && h.text[0] == '[' && IsBoundary(line) ==>
              EntryLines(HeadingStep(p, n, line, h).entries) == EntryLines(p.entries) + [n]
  {
    hide NamesRelease, EntryKind, IsBoundary;
    var q := HeadingStep(p, n, line, h);
    if |q.entries| == |p.entries| + 1 {
      assert q.entries[..|p.entries|] == p.entries;
    } else if q.entries != p.entries {
      var last := |p.entries| - 1;
      assert q.entries[..last] == p.entries[..last] && q.entries[last].line == p.entries[last].line;
    }
  }

  /** A line the extractor cuts at is neither a fence, a definition nor an underline. */
  lemma BoundaryReachesHeading(p: Parse, n: nat, line: string, chain: Chain, above: Option<Above>)
    requires IsBoundary(line)
    ensures ClassifyHeading(line, chain).Some?
    ensures ReadLine(p, n, line, chain, above) == HeadingStep(p, n, line, ClassifyHeading(line, chain).value)
  {
    hide ClassifyHeading, HeadingStep, HasListMarker, InterruptsParagraph, LinkDefinition, Expand;
    HashesFirst(line);
    BoundaryIsEntryHeading(line, chain);
    BoundaryNoDefinition(line);
    if above.Some? { BoundaryNoUnderline(above.value.line, above.value.chain, line); }
  }

  lemma BoundaryNoDefinition(line: string)
    requires IsBoundary(line)
    ensures LinkDefinition(line) == None
  {
    HashesFirst(line);
    assert line[0..] == line && line[0] == line[..2][0] == '#';
  }

  lemma BoundaryNoUnderline(above: string, chain: Chain, line: string)
    requires IsBoundary(line)
    ensures !IsSetext(above, chain, line)
  {
    hide HasListMarker, InterruptsParagraph, LinkDefinition;
    HashesFirst(line);
    assert line[0] == line[..2][0] == '#';
    ExpandedHead(line, 0);
    var e := Expand(line);
    HashNoContainer(e);
    assert Take(Start(line)) == None;
    assert Strip(line).content == e;
    assert DropBlanks(e) == e by { RunLengthUnique(e, IsBlank, 0); }
  }

  lemma HashNoContainer(e: string)
    requires e != [] && e[0] == '#'
    ensures QuoteMarker(e) == None && ItemMarker(e) == None
  {
    assert LeadingSpaces(e) == 0 && e[0..] == e;
    assert RunLength(e, IsDigit) == 0;
  }

  /** Findings are never taken back. */
  lemma ReadKeepsFindings(p: Parse, n: nat, line: string, chain: Chain, above: Option<Above>)
    ensures p.findings <= ReadLine(p, n, line, chain, above).findings
  {
    hide DeepStep, LinkDefinition, IsSetext, ClassifyHeading, NamesRelease, EntryKind;
  }

  lemma StepKeepsFindings(p: Parse, n: nat, line: string, skipped: bool, chain: Chain, above: Option<Above>)
    ensures p.findings <= LineStep(p, n, line, skipped, chain, above).findings
    ensures LineStep(p, n, line, skipped, chain, above).findings == p.findings ==>
              LineStep(p, n, line, skipped, chain, above) == if skipped then p else ReadLine(p, n, line, chain, above)
  {
    hide ReadLine;
    ReadKeepsFindings(p, n, line, chain, above);
    ReadKeepsFindings(Report(p, n, CarriageReturn), n, line, chain, above);
  }

  /** One line, read by the two. */
  lemma StepAgrees(p: Parse, n: nat, line: string, skipped: bool, chain: Chain, above: Option<Above>)
    requires LineStep(p, n, line, skipped, chain, above).findings == p.findings
    ensures EntryLines(LineStep(p, n, line, skipped, chain, above).entries)
            == EntryLines(p.entries) + (if !skipped && IsBoundary(line) then [n] else [])
  {
    hide DeepStep, LinkDefinition, IsSetext, ClassifyHeading, HeadingStep, IsBoundary, EntryLines, LineStep;
    StepKeepsFindings(p, n, line, skipped, chain, above);
    if !skipped {
      var p' := p.(deep := DeepStep(p.deep, line).0);
      var h := ClassifyHeading(line, chain);
      if IsBoundary(line) {
        BoundaryReachesHeading(p, n, line, chain, above);
        BoundaryIsEntryHeading(line, chain);
        HeadingStepEntries(p, n, line, h.value);
      } else if h.Some? && HeadingStep(p', n, line, h.value).findings == p'.findings {
        HeadingStepEntries(p', n, line, h.value);
      }
    }
  }

  /**
   * The two readers agree on every file the parser finds nothing wrong with: its entries are
   * exactly the places where the release-notes extractor cuts, in order, whatever fences,
   * containers, underlines and definitions the other lines hold.
   */
  lemma {:induction false} ReadersAgree(lines: seq<string>, skip: seq<bool>, n: nat)
    requires |skip| == |lines| && n <= |lines|
    requires ParseTo(lines, skip, n).findings == []
    ensures EntryLines(ParseTo(lines, skip, n).entries) == Boundaries(lines, skip, n)
  {
    hide LineStep, IsBoundary, ChainAfter;
    if n > 0 {
      var i := n - 1;
      var p := ParseTo(lines, skip, i);
      StepKeepsFindings(p, n, lines[i], skip[i], ChainAfter(lines[..n]), AboveOf(lines, skip, i));
      ReadersAgree(lines, skip, i);
      StepAgrees(p, n, lines[i], skip[i], ChainAfter(lines[..n]), AboveOf(lines, skip, i));
    }
  }

  /** Every entry of a file without findings has a valid heading. */
  predicate WellFormed(entries: seq<Entry>) { forall k | 0 <= k < |entries| :: entries[k].kind != Malformed }

  /** Lines only go down: an entry's categories stand between its heading and the next one. */
  predicate Laid(entries: seq<Entry>, n: nat) {
    && (forall k | 0 <= k < |entries| :: entries[k].line <= n)
    && (forall j, k | 0 <= j < k < |entries| :: entries[j].line < entries[k].line)
    && (forall k, c | 0 <= k < |entries| && 0 <= c < |entries[k].categories| ::
          entries[k].line < entries[k].categories[c].1 <= n)
    && (forall j, k, c | 0 <= j < k < |entries| && 0 <= c < |entries[j].categories| ::
          entries[j].categories[c].1 < entries[k].line)
  }

  lemma AddEntryLaid(p: Parse, n: nat, text: string, kind: Kind)
    requires n > 0 && Laid(p.entries, n - 1)
    ensures Laid(AddEntry(p, n, text, kind).entries, n)
    ensures WellFormed(p.entries) && kind != Malformed ==> WellFormed(AddEntry(p, n, text, kind).entries)
  {
    var q := AddEntry(p, n, text, kind);
    assert forall k | 0 <= k < |p.entries| :: q.entries[k] == p.entries[k];
  }

  lemma AddCategoryLaid(p: Parse, text: string, n: nat)
    requires n > 0 && Laid(p.entries, n - 1) && p.entries != []
    ensures Laid(AddCategory(p, text, n).entries, n)
    ensures WellFormed(p.entries) ==> WellFormed(AddCategory(p, text, n).entries)
  {
    var q, last := AddCategory(p, text, n), |p.entries| - 1;
    assert forall k | 0 <= k < last :: q.entries[k] == p.entries[k];
    assert q.entries[last].line == p.entries[last].line && q.entries[last].kind == p.entries[last].kind;
    assert forall c | 0 <= c < |p.entries[last].categories| ::
        q.entries[last].categories[c] == p.entries[last].categories[c];
  }

  lemma HeadingStepLaid(p: Parse, n: nat, line: string, h: Heading)
    requires n > 0 && Laid(p.entries, n - 1)
    ensures Laid(HeadingStep(p, n, line, h).entries, n)
    ensures WellFormed(p.entries) && HeadingStep(p, n, line, h).findings == p.findings ==>
              WellFormed(HeadingStep(p, n, line, h).entries)
  {
    hide NamesRelease, EntryKind, IsBoundary, Laid, WellFormed, AddEntry, AddCategory;
    LaidLater(p.entries, n - 1, n);
    forall q: Parse, kind: Kind | q.entries == p.entries
      ensures Laid(AddEntry(q, n, h.text, kind).entries, n)
      ensures WellFormed(p.entries) && kind != Malformed ==> WellFormed(AddEntry(q, n, h.text, kind).entries)
      ensures AddEntry(q, n, h.text, kind).findings == q.findings
    {
      AddEntryLaid(q, n, h.text, kind);
      AddKeepsFindings(q, n, h.text, kind);
    }
    if p.entries != [] {
      AddCategoryLaid(p, h.text, n);
      AddCategoryLaid(Report(p, n, HiddenCategory), h.text, n);
    }
  }

  lemma AddKeepsFindings(p: Parse, n: nat, text: string, kind: Kind)
    ensures AddEntry(p, n, text, kind).findings == p.findings
  {
  }

  lemma ReadLineLaid(p: Parse, n: nat, line: string, chain: Chain, above: Option<Above>)
    requires n > 0 && Laid(p.entries, n - 1)
    ensures Laid(ReadLine(p, n, line, chain, above).entries, n)
    ensures WellFormed(p.entries) && ReadLine(p, n, line, chain, above).findings == p.findings ==>
              WellFormed(ReadLine(p, n, line, chain, above).entries)
  {
    hide DeepStep, LinkDefinition, IsSetext, ClassifyHeading, HeadingStep, Laid, WellFormed;
    LaidLater(p.entries, n - 1, n);
    var h := ClassifyHeading(line, chain);
    if h.Some? { HeadingStepLaid(p.(deep := DeepStep(p.deep, line).0), n, line, h.value); }
  }

  /**
   * Every category is charged to the entry whose published notes hold it, and every entry of a
   * file without findings has a valid heading.
   */
  lemma {:induction false} CategoriesInside(lines: seq<string>, skip: seq<bool>, n: nat)
    requires |skip| == |lines| && n <= |lines|
    ensures Laid(ParseTo(lines, skip, n).entries, n)
    ensures ParseTo(lines, skip, n).findings == [] ==> WellFormed(ParseTo(lines, skip, n).entries)
  {
    hide ReadLine, ChainAfter, Laid, WellFormed;
    if n == 0 {
      NothingLaid();
    } else {
      var i := n - 1;
      var p, line, chain, above := ParseTo(lines, skip, i), lines[i], ChainAfter(lines[..n]), AboveOf(lines, skip, i);
      CategoriesInside(lines, skip, i);
      LaidLater(p.entries, i, n);
      StepKeepsFindings(p, n, line, skip[i], chain, above);
      ReadLineLaid(p, n, line, chain, above);
      ReadLineLaid(Report(p, n, CarriageReturn), n, line, chain, above);
    }
  }

  lemma NothingLaid()
    ensures Laid([], 0) && WellFormed([])
  {
  }

  lemma LaidLater(entries: seq<Entry>, n: nat, m: nat)
    requires Laid(entries, n) && n <= m
    ensures Laid(entries, m)
  {
  }
}
