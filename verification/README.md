# Verified model of the Anamorph repository's scripts

Anamorph keeps its documents, changelog, sources and downloaded tools honest with a set of Python
scripts. This project models the five that carry real algorithms and proves what they promise.

* **Citations** (`LineMap`, `Splice`, `Citations`, `AnchorTexts`, `Reanchor`, `Fixpoint`, `Recheck`,
  `LooseRecheck`, `Pass`, `Run`, `Decisions`, `RewrittenLines`, `TouchedLines`, `Corpus`,
  `RewrittenSources`, `RewrittenRuns`, `Counterexamples`).
  `scripts/check-citations.py` reads how the cited sources changed from the hunk headers of
  `git diff -U0`, decides of every `path:line` citation whether it still names the text it named,
  rewrites the ones that drifted, and keeps totals. A diff is an edit script that really turns the
  base file into the current one; hunks, and the text of the diff, are derived from it. A document
  is text pieces and citation tokens. The result is end to end: map, rewrite, check again, over whole
  corpora and with the tracked sources themselves among the documents rewritten.
* **Markdown blocks** (`Columns`, `Containers`, `Frames`, `Fences`, `FencesInside`, `CodeSpans`, `Spans`,
  `SpanLines`). The first half of `scripts/check-docs.py` implements CommonMark 0.31, sections 2.2, 4.5,
  5.1, 5.2 and 6.1, line by line with carried state.
* **Changelog and releases** (`Versions`, `Headings`, `HeadingTexts`, `ReferenceTexts`, `Paragraphs`,
  `ChangelogParse`, `ChangelogFindings`, `ChangelogRules`, `ReleaseLinks`, `LinkRules`, `ReleaseLine`).
  The second half accepts or refuses `CHANGELOG.md`. Acceptance is proved equal to a grammar and an exact
  chain of links, and the choice of the tags that bind a commit is proved stable over every history of
  the repository.
* **Lexers** (`DispatchLexer`, `DispatchPieces`, `AwkText`, `AwkPieces`). Two scanners that blank or drop
  comments and literals without moving anything off its line.
* **Tools and baselines** (`MemberNames`, `ToolTree`, `ToolNames`, `Publication`, `ToolRelease`, `Baseline`,
  `BaselineTexts`, `UncleanKeys`, `WarningGate`). `scripts/acquire-pluginval.py` stages, checks and
  renames a tool into place while others do the same; `scripts/check-clang-warnings.py` prints, reads
  and compares a baseline of warnings.

`Ascii`, `Decimal` and `Wrappers` hold what they share. Code that loops and assigns is a method with
its loop, proved against a function of the same inputs; what the scripts promise is then proved of
that function. The functions themselves are tied to the text they read by laws over its spelling: what
markers a line is written with, what pieces a program, which runs of backticks a paragraph holds, which
triples a table lists. `dafny verify dfyconfig.toml` checks the whole project.

## Where the code and its documentation differ

The model follows the code.

* The docstring at `scripts/check-citations.py:1824-1826` says a re-anchor never changes a line
  count. The citation pattern admits a newline around the comma of an anchor list and the rebuilt
  list has none, so it can: `Counterexamples.LineCountDrops` rewrites such a document, and
  `Citations.RepairLineCount` gives the exact condition.
* A `--fix` pass is clean when checked again on the branch that pairs citations by position, but not
  always on the branch for paths whose citation count changed, which looks citations up by spelling.
  `Counterexamples.LooseFixpointFails` is a document on which it is not, and
  `LooseRecheck.DocumentFixpointIff` the condition, for documents that take either branch.
* The tracked sources are scanned too, and a pass that rewrites a citation inside one changes a line
  other documents may cite. `Counterexamples.SourceRewriteDrifts` is a corpus of which a pass leaves
  nothing over and which the next check then reports. The pass prints the lines it touches.
  `Corpus.CleanAgainIff` and `Corpus.FixThenCheck` decide the check beforehand, where no comparison
  reads one of the lines the queues are about to touch; `RewrittenRuns.NotedLinesBound` does where no
  citation of the documents as left names one. `RewrittenRuns.CleanAfterRewriteIff` and
  `RewrittenRuns.CheckAfterRewriteIff` are exact for every pass: a line that some queue rewrites breaks
  the check just when a citation settled on its old text names it.
* The docstring at `scripts/check-docs.py:1010-1017` says a `/` at the start of a statement opens a
  regular expression, and that guessing a division instead only leaves extra text to scan. A `/` that
  is the first code of a file is taken for a division, because `"" in "_)]"` is true; by
  `AwkText.DocumentedIff` those are exactly the programs not read as documented from their first
  statement on. What follows may then be hidden or not: `AwkText.LeadingRegexHidesCode` is a program
  whose action is. A `/` that starts a later line is a division exactly when the last code before the
  line is an operand, since a newline starts no statement: `AwkText.LineStartSlash`, with
  `AwkText.LaterRegexHidesCode` as a program of two rules whose second action is blanked.
* `--clang-major` takes any integer, but a negative one written to a baseline is not read back:
  `Baseline.NegativeCompilerForgotten` is the file written for -1, and `Baseline.RoundTrip` has both
  conditions.
* A baseline starts a comment at `#`, and Clang's flag for `#warning` is `-W#warnings`. With such a
  warning recorded the gate exits 2 for every log: `WarningGate.HashWarningStopsTheGate` is a log of
  one `#warning` whose own baseline does that. A flag has that effect exactly when a `#` stands in it
  before any second word, and `WarningGate.OwnLogCode` has the three outcomes.

## Model

| member | source | states |
|---|---|---|
| LineMap.MapLine | scripts/check-citations.py:1772-1789 | The walk over the hunks with its running offset answers, for every number, what the map of the next rows answers |
| LineMap.MapRefinesDiff | scripts/check-citations.py:1758-1790 | For every edit script and base line: the map gives k iff the script keeps that line as line k, and nothing iff the script replaced or deleted it; pure insertions and prepends included |
| LineMap.MappedSameText | scripts/check-citations.py:1758-1790 | A mapped line lies in the current file and carries the base line's text |
| LineMap.MapStrictlyIncreasing | scripts/check-citations.py:1758-1790 | Where it is defined the map is strictly increasing |
| LineMap.MapImage | scripts/check-citations.py:1758-1790 | The lines of the current file it reaches are exactly those no hunk added |
| LineMap.MapOutOfRange | scripts/check-citations.py:1772-1789 | Line 0 stays 0, and a line past the base file goes past the current one by the same distance |
| LineMap.ReadShownHunks | scripts/check-citations.py:1768-1770 | The hunks read from the printed diff of any script, with any context text, are the script's hunks, omitted counts of one included |
| LineMap.ReadShownDiff | scripts/check-citations.py:1768-1770 | The same for a whole diff, with the lines git prints before the hunks |
| Splice.SortedUnique | scripts/check-citations.py:1869 | The edits, each once, by falling start |
| Splice.NeighboursOverlap | scripts/check-citations.py:1870-1875 | Comparing neighbours finds a clash iff some two distinct edits overlap anywhere |
| Splice.OverlapIff | scripts/check-citations.py:1870-1875 | Two spans overlap iff some character is in both |
| Splice.SpliceDown | scripts/check-citations.py:1876-1878 | Splicing right to left is the left-to-right substitution of all edits into the original text |
| Splice.ApplyEdits | scripts/check-citations.py:1848-1878 | Refuses iff two distinct edits overlap; otherwise the result is the gaps and replacements in order, a duplicated edit applied once, whatever order they came in |
| Splice.SubstituteLength | scripts/check-citations.py:1876-1878 | The length of the result is the text's plus the sum of the edits' growth |
| Splice.UntouchedSurvives | scripts/check-citations.py:1567-1619 | An occurrence no edit touches is still in the rewritten text |
| Splice.CheckDeclaration | scripts/check-citations.py:1609-1619 | A warning iff the declared spelling was in the text and is gone from the rewrite, and every warning names an edit that overlaps an occurrence of it |
| Citations.CiteSpans | scripts/check-citations.py:1678-1755 | The spans of a document's citations are non-empty, in range, in order and disjoint |
| Citations.ReadShownAnchors | scripts/check-citations.py:3365-3366 | The anchors of a rebuilt citation are read back as the anchors it was built from |
| AnchorTexts.AnchorsRead | scripts/check-citations.py:229 | Of any list of numbers and ranges parted by anything but digits, each is read, with its second number exactly where a lone dash joins two |
| Citations.RepairedTokens | scripts/check-citations.py:1678-1755 | The citations of a rewritten document are the old ones, each moved or as it was |
| Citations.SpliceIsRepair | scripts/check-citations.py:1848-1878 | Splicing the moves into the text of any document gives the document with those citations moved and every other character in place |
| Citations.RepairLineCount | scripts/check-citations.py:1824-1826 | A rewrite never adds a line, and keeps the line count iff no moved citation was written across a line break |
| Reanchor.DocTallyGrows | scripts/check-citations.py:3193-3370 | Over a document, drifted grows by fixable plus unmappable, unchecked by no more than total, and nothing shrinks, however often a citation is spelled |
| Decisions.AllRightIff | scripts/check-citations.py:1014-1052 | Anchors are right iff every endpoint names the text it named: the same line of text, or outside both files; or a versioned line that did not move and still holds its token |
| Decisions.MapAnchorsIff | scripts/check-citations.py:3351-3357 | Anchors are mapped to a list iff the line map takes each endpoint to the endpoint in its place |
| Decisions.PairsAreCounted | scripts/check-citations.py:3314-3370 | What a path cited as often as before adds: one drifted for each reported pair, one fixable for each the line map can move, the rest unmappable, and the triples of excused pairs; membership in the table decides |
| Decisions.SpellingsAreCounted | scripts/check-citations.py:3233-3312 | What any other path adds: one drifted for each spelling still there whose text is gone, and the anchors of spellings that are not there as unchecked |
| Decisions.DocumentIsCounted | scripts/check-citations.py:3193-3430 | One document of a run: its totals grow path by path as those rows state, and what it could repair is withheld exactly under `--fix` and where it owns a misaimed declaration |
| Decisions.DeclaredIsExcused | scripts/check-citations.py:1537-1564 | A pair of equal counts and different spellings whose own triple is declared adds no drift of any kind and does not move |
| Decisions.UndeclaredIsReported | scripts/check-citations.py:1537-1564 | A pair that is not right and whose own triple is not declared drifts, declared the other way round or not |
| Decisions.UsedAreDeclared | scripts/check-citations.py:3340-3344 | Over any pass only declared triples are noted as used |
| Decisions.PairedMoveIff | scripts/check-citations.py:3314-3370 | A paired citation moves to a list iff its pair is reported and the line map takes it there |
| Decisions.LooseMoveIff | scripts/check-citations.py:3233-3312 | A citation looked up by spelling moves where the first gone base citation of its spelling is taken, and nowhere else |
| Fixpoint.DocEditsAreMoves | scripts/check-citations.py:3227-3370 | The edits queued for a document, over all its paths and both branches, are exactly one per moved citation, at that citation's span |
| Fixpoint.QueueRewritesDocument | scripts/check-citations.py:3402-3432 | The rewrite never refuses a document's queue, and writes the document with each citation moved |
| Recheck.MovedAnchorsRight | scripts/check-citations.py:1014-1055 | Anchors moved by the line map all pass, also outside the file and on a versioned line |
| Recheck.MovedAnchorsPrintable | scripts/check-citations.py:3365-3366 | Anchors moved by the line map can be written and read back |
| Recheck.JudgeAgain | scripts/check-citations.py:3314-3370 | Judged again after the rewrite, a moved citation is right and every other verdict stands |
| Recheck.RepairReachesFixpoint | scripts/check-citations.py:3314-3370 | For a document that cites each tracked path as often as its base did: checking the rewritten document finds exactly the citations the first pass could not move and queues nothing |
| LooseRecheck.LooseFixpointIff | scripts/check-citations.py:3233-3312 | One path whose citation count changed: the second check is clean iff the first pass could move everything it counted and rewrote no citation into the spelling of a stale base citation |
| LooseRecheck.DocumentFixpointIff | scripts/check-citations.py:3225-3370 | A whole document, each path on whichever branch it takes: checking the rewritten document is clean iff the first pass found nothing unmappable and no path whose count changed collides with a stale spelling |
| Counterexamples.LooseFixpointFails | scripts/check-citations.py:3233-3312 | A document and a sound diff for which nothing is unmappable and the second check is not clean |
| Counterexamples.LineCountDrops | scripts/check-citations.py:1824-1826 | A document and a sound diff for which the rewrite joins two lines |
| Run.CitationRun.QueueDocument | scripts/check-citations.py:3228-3370 | The loop over the paths of a document, in order of first appearance |
| Run.CitationRun.ProcessDocument | scripts/check-citations.py:3196-3446 | Drifted stays fixable plus withheld plus unmappable and unchecked within total; the sources, totals and withheld count after it, and the text written, are those of one step of the pass: a rewritten document is the old one with its citations moved, a withheld one is untouched and its citations are given back, a rewritten source replaces its cached lines |
| Run.CitationRun.Execute | scripts/check-citations.py:3071-3541 | Every run over any documents, cached sources and misaimed declarations included: the conservation holds, and the final sources, totals, every text left and the exit code are those of the pass; a run stopped before the loop exits 2 and changes nothing |
| RewrittenLines.UntouchedLineKept | scripts/check-citations.py:3402-3446 | Where no moved citation spans a line break, a line of the rewritten document that holds no moved citation reads as before |
| TouchedLines.PassAgrees | scripts/check-citations.py:3433-3465 | Over a pass none of whose comparisons reads a line its queues touch: whatever sources it has rewritten by then, every line off those it touches reads as before |
| Corpus.FixThenCheck | scripts/check-citations.py:3193-3541 | Over a corpus that cites each tracked path as often as its base did, and none of whose comparisons reads a line the queues touch: the check made from scratch reports exactly what the pass left to a human or withheld, whichever sources were rewritten |
| Corpus.CleanAgainIff | scripts/check-citations.py:3193-3541 | Over any corpus, count-changed documents and rewritten sources together, none of whose comparisons reads a line the queues touch: that check is clean iff the pass left nothing to a human, withheld nothing, and collided with no stale spelling |
| RewrittenRuns.RewordedTracks | scripts/check-citations.py:3402-3446 | From any document of a pass to its end, a line of a tracked source comes to read otherwise iff the queue of some document from there on rewrites it |
| RewrittenRuns.CheckAfterRewriteIff | scripts/check-citations.py:3433-3465 | Whatever sources the pass rewrote: the check after it reports at least what was left over less what healed, and nothing beyond iff no settled citation names a line that a queue rewrites from then on, unless its transition is declared or the line versioned |
| RewrittenRuns.NotedLinesBound | scripts/check-citations.py:3461-3465 | Where no citation of the documents as left names a line the note prints, and no citation moved in a source spans a line break: the check reports at most what was left to a human or withheld |
| RewrittenRuns.CleanAfterRewriteIff | scripts/check-citations.py:3193-3465 | After a pass over documents of every kind that left nothing over: the check is clean iff no settled citation, and no right base citation still spelled on a path whose count changed, names a line a queue rewrites from then on, and no stale one is spelled there unless its text came back |
| Counterexamples.SourceRewriteDrifts | scripts/check-citations.py:3430-3446 | A corpus with a cited line that is itself a citation: the pass leaves nothing over, and the check made from scratch drifts |
| Columns.ExpandTabs | scripts/check-docs.py:650-681 | The loop over characters is the expansion of the next rows |
| Columns.ExpandIdempotent | scripts/check-docs.py:650-681 | Expanding an expanded line changes nothing, at whatever column it starts (CommonMark 0.31, section 2.2) |
| Columns.TabStop | scripts/check-docs.py:650-681 | A text without tabs stays; a first tab becomes the one to four spaces that end at the next column four divides, and what follows expands as if it stood alone |
| Columns.ExpandedHasNoTabs | scripts/check-docs.py:650-681 | No tab is left |
| Columns.IndentColumns | scripts/check-docs.py:684-701 | The loop counts the columns of the leading blanks |
| Columns.IndentIsExpandedSpaces | scripts/check-docs.py:684-701 | The indentation of a line is the number of leading spaces of its expansion |
| Containers.StripContainers | scripts/check-docs.py:1745-1825 | The loop over markers ends, and is the walk of the next rows |
| Containers.StripConservesColumns | scripts/check-docs.py:1745-1825 | Prefix and content together are the expanded line, without tabs (CommonMark 0.31, sections 5.1 and 5.2) |
| Frames.StripSpelled | scripts/check-docs.py:1745-1825 | Of any line spelled with markers, quotes with or without their space and list markers with one to four, the walk takes exactly the markers: depth, items with their columns, and content |
| Frames.MarkerHeadIff | scripts/check-docs.py:1682 | A prefix is a list marker iff it is a bullet, or one to nine digits and a delimiter |
| Containers.StripFixpoint | scripts/check-docs.py:1745-1825 | Stripping the content again removes nothing |
| Containers.ComputeQuoteRest | scripts/check-docs.py:1722-1742 | The loop over quote markers is the recursive reading of that many |
| Containers.ContainerChains | scripts/check-docs.py:368-426 | Each line's chain is the chain of the document up to that line |
| Containers.ChainsNested | scripts/check-docs.py:368-426 | After any lines the chain is strictly increasing in quote depth and then column |
| Containers.ItemLives | scripts/check-docs.py:368-426 | While every line that is not blank reaches an item and all items outside it, all of them stay in the chain, unchanged and in place, over any number of lines |
| Containers.ReachedEncloses | scripts/check-docs.py:368-426 | An item a line still reaches encloses every item the line opens |
| Frames.ChainAtMargin | scripts/check-docs.py:368-426 | At the margin: the items whose columns the indentation of a line reaches stay, up to the first it does not, and the items the line opens follow |
| Frames.ChainInQuotes | scripts/check-docs.py:368-426 | The same behind any number of quote markers, in the columns of the text that follows them |
| Fences.LeftFence | scripts/check-docs.py:440-614 | The dedent test: the fence ends when its quote depth or one of its items is left |
| Fences.FenceMask | scripts/check-docs.py:440-614 | The mask array holds what the state machine says of each line, and the reported opener is the fence still open |
| Fences.MaskOfPrefix | scripts/check-docs.py:440-614 | Lines added at the end never change the mask of earlier ones |
| Fences.UnclosedMasksToEnd | scripts/check-docs.py:440-614 | A reported unclosed opener opens a fence, and every line from it to the end is masked |
| Fences.FenceRunExpanded | scripts/check-docs.py:341-357 | Expanding tabs does not change what delimiter a line is |
| Fences.FenceRefinesPlain | scripts/check-docs.py:313-365 | Where no line has a container marker the machine is the two-state machine of CommonMark 0.31, section 4.5 |
| FencesInside.OpenerIff | scripts/check-docs.py:313-365 | A line opens a fence iff it is at most three columns of blanks, three marks or more, and an info string, without a backtick after backticks |
| FencesInside.CloserIff | scripts/check-docs.py:440-614 | It closes one iff it is at most three columns of blanks, the opener's mark at least as often, and blanks |
| FencesInside.BlockMasked | scripts/check-docs.py:440-614 | Lines from an opener to its first closer are masked and leave no fence open |
| FencesInside.QuotedFences | scripts/check-docs.py:440-614 | Behind any number of quote markers each line is masked iff it is among the lines without them |
| FencesInside.ItemFences | scripts/check-docs.py:440-614 | After a line that opens a list item, at any quote depth, each line at the item's column is masked iff it is among the lines without container and indentation |
| FencesInside.ItemOpeningFence | scripts/check-docs.py:440-614 | The same where the item's own first line opens the fence |
| FencesInside.FenceLeftIff | scripts/check-docs.py:440-614 | Behind an open fence in those containers a line of text is in it iff it carries the quotes and, in an item, no further quotes and the item's column |
| FencesInside.LeavesIff | scripts/check-docs.py:440-614 | For every open fence and nesting: a line of quotes, spaces and text leaves iff it falls short of the depth, of some item's quotes or of its column |
| CodeSpans.BlankCodeSpans | scripts/check-docs.py:278-310 | The scan over a character buffer changed in place is the blanking of the next rows |
| CodeSpans.BlankKeepsShape | scripts/check-docs.py:278-310 | Blanking keeps the length and every newline and writes only spaces (CommonMark 0.31, section 6.1) |
| CodeSpans.SurvivorsDiffer | scripts/check-docs.py:278-310 | Every run of backticks left is a whole run of the input where it stood, and no two have the same width |
| CodeSpans.BlankIdempotent | scripts/check-docs.py:278-310 | Blanking twice is blanking once |
| Spans.BlankedSpans | scripts/check-docs.py:278-310 | Every text has one list of spans, told from its whole runs of backticks: each opens at a run no earlier span covers and closes at the next run of its width; exactly these are blanked |
| Spans.SpansUnique | scripts/check-docs.py:278-310 | There is no second such list |
| CodeSpans.BlankedLines | scripts/check-docs.py:617-644 | The loop flushes each paragraph once, when it ends |
| CodeSpans.BlankedLinesKeepColumns | scripts/check-docs.py:617-644 | The number of lines and the length of each are kept, and fenced and blank lines are untouched |
| SpanLines.BlocksBlanked | scripts/check-docs.py:617-644 | Of every document laid out in fenced or blank lines and paragraphs, the former stay and each paragraph is blanked as one text |
| Versions.ParseName | scripts/check-docs.py:1143 | The name of a version is read back as the version |
| Versions.NameParsed | scripts/check-docs.py:1143 | A string read as a version is that version's name and nothing else |
| Versions.OlderIsRaised | scripts/check-docs.py:2230 | One version is older than another iff the other raises its patch, or its minor, or its major number, whatever the lesser numbers |
| Versions.OlderIsRank | scripts/check-docs.py:2230 | The order is that of the versions as numbers of three digits in any base large enough |
| Versions.CalendarDateIff | scripts/check-docs.py:2216-2222 | A date is accepted iff it writes, in four and two and two digits, a day there is, leap years included |
| Headings.BoundaryIsEntryHeading | scripts/check-docs.py:1828-1878 | A line beginning with the extractor's boundary is classified as a level-2 heading at column 0 whose text opens with a bracket |
| HeadingTexts.AtxIff | scripts/check-docs.py:990 | A line is a heading iff it is at most three spaces, one to six marks and then a blank or nothing |
| HeadingTexts.ClosedHeadingText | scripts/check-docs.py:1095-1130 | A closing run of marks behind a blank is no part of the text |
| HeadingTexts.PlacedBySpaces | scripts/check-docs.py:1828-1878 | Behind spaces a heading stands at the margin, indented by one to three columns, or deep |
| HeadingTexts.PlacedInItem | scripts/check-docs.py:1828-1878 | Behind quotes and spaces it is found iff at most three spaces are left once those of the item it continues are taken |
| HeadingTexts.UnderlineIff | scripts/check-docs.py:1906 | An underline is one run of `=` or `-` and then blanks or carriage returns |
| HeadingTexts.ThematicBreakIff | scripts/check-docs.py:259 | A thematic break is three or more of one of `-`, `*`, `_` with whitespace between |
| ReferenceTexts.DefinitionRead | scripts/check-docs.py:1605-1612 | A definition gives the label's words as the name and what follows the colon as the destination, at most three columns in |
| ReferenceTexts.AngledDefinitionRead | scripts/check-docs.py:1605-1612 | The same with a destination in angle brackets |
| ReferenceTexts.LinkTailIff | scripts/check-docs.py:1605-1612 | A destination may be followed by blanks, or by blanks, a title between matching delimiters and blanks |
| ReferenceTexts.VersionHeadingIff | scripts/check-docs.py:1133-1136 | An entry heading is read as a version and a date iff it is the version's name in brackets, a dash and the date, yanked or not |
| ReferenceTexts.NamesReleaseIff | scripts/check-docs.py:1166-1185 | A text names a release iff a version starts it, perhaps behind a bracket; or it is "unreleased" in any case; or a version stands in it beside a bracket at its start or a date |
| Paragraphs.InterruptsIff | scripts/check-docs.py:256-275 | Which lines interrupt a paragraph, by their spelling |
| Paragraphs.SetextIff | scripts/check-docs.py:2026-2057 | A run of `=` or `-` under text makes a heading iff both stand behind the same quotes and the run is indented to the text's item or up to three columns more |
| Paragraphs.HasListMarkerIff | scripts/check-docs.py:1686 | A prefix holds a list marker iff one stands in it between blanks or at its start |
| Paragraphs.ListItemIff | scripts/check-docs.py:647 | A line is a list item's iff a marker starts it, whitespace aside, and nothing or whitespace follows |
| ChangelogParse.ParseChangelog | scripts/check-docs.py:1922-2153 | The loop over the lines is the fold of the next rows |
| ChangelogParse.ReadersAgree | scripts/check-docs.py:1922-2153 | If nothing was found wrong, the entries are exactly the unskipped lines the release-notes extractor cuts at, in order, whatever else the file holds |
| ChangelogParse.BoundaryReachesHeading | scripts/check-docs.py:1922-2153 | A boundary line is never taken for a fence, a link definition or a setext underline |
| ChangelogParse.CategoriesInside | scripts/check-docs.py:1922-2153 | Every category lies between its entry's heading and the next one's, and without findings no entry is malformed |
| ChangelogFindings.FindingsIff | scripts/check-docs.py:1922-2153 | The parser finds nothing iff every line is clean by itself and by what stands above it |
| ChangelogFindings.DefinitionsParsed | scripts/check-docs.py:2006-2012 | The definitions are those of the lines that are neither skipped nor in a deep fence, in order |
| ChangelogFindings.EntriesParsed | scripts/check-docs.py:2060-2153 | In a clean file the entries are the level-2 headings on their lines, and the categories the level-3 headings under the first |
| ChangelogFindings.EntryKinds | scripts/check-docs.py:2118-2127 | The unreleased and the two reconstructed headings are these texts and no others |
| ChangelogFindings.DeepText | scripts/check-docs.py:2006-2007 | Any line is silenced while it is indented as far as the deep fence that is open |
| ChangelogRules.CheckHeadings | scripts/check-docs.py:2156-2237 | No finding iff every entry keeps its position, its order against all earlier entries, its uniqueness and its date |
| ChangelogRules.ReleasesRaise | scripts/check-docs.py:2228-2235 | A file of dated releases is accepted iff each raises the patch, the minor or the major number of the one below it |
| ChangelogRules.PreviousSuffices | scripts/check-docs.py:2156-2237 | Comparing with the previous release is comparing with all of them |
| ChangelogRules.HeadingsAreGrammar | scripts/check-docs.py:2156-2237 | Without malformed entries: no finding iff the file is an optional leading `[Unreleased]`, then strictly descending versions with valid dates, then the reconstructed headings once each in order |
| ChangelogRules.CheckCategories | scripts/check-docs.py:2240-2291 | No finding iff each entry's categories are known and strictly increasing in the Keep a Changelog 1.1.0 order |
| ChangelogRules.CategoriesAsListed | scripts/check-docs.py:974 | The categories are accepted iff their names are a subsequence of Added, Changed, Deprecated, Removed, Fixed, Security |
| ChangelogRules.AcceptedFileFollowsGrammar | scripts/check-docs.py:1922-2237 | In a file without parse or heading findings the places where the extractor cuts are the headings of the grammar |
| ReleaseLinks.SortReleases | scripts/check-docs.py:2363-2369 | The release tags are the bare versions at or above the first tag, oldest first |
| LinkRules.ReleasesRise | scripts/check-docs.py:2363-2369 | Of the releases listed each raises the one before it |
| LinkRules.RaisedIsLast | scripts/check-docs.py:2363-2369 | Two tags, one of which raises the other, are listed with the raised one last |
| ReleaseLinks.ReadDefinitions | scripts/check-docs.py:2339-2347 | The first reading of the definitions: what each key is defined as, and a finding iff a key is defined twice |
| ReleaseLinks.CheckLinks | scripts/check-docs.py:2294-2678 | No finding iff the declarative rules hold of the one ascending list of the release tags, for every reading of the tags |
| ReleaseLinks.LinksAreChain | scripts/check-docs.py:2294-2678 | With the tags known and the headings accepted: no finding iff the links are the chain — the first tag leads to its page, each release to its comparison with the one before, `[Unreleased]` only on a release and to its comparison with HEAD, the release in preparation on top, every release with its entry, and nothing else defined |
| LinkRules.ChainTexts | scripts/check-docs.py:2294-2678 | The chain in the file's own text: every URL spelled out, the older release before the dots |
| LinkRules.InPrepIff | scripts/check-docs.py:2351 | The release in preparation is the newest entry with a version, in a file without `[Unreleased]` |
| LinkRules.VerifiableIff | scripts/check-docs.py:2427-2437 | Without the tags a file can be judged iff nothing in it needs one, stated over entries and tag names |
| LinkRules.KeyIff | scripts/check-docs.py:2339-2347 | A label defines a key iff it is a dotted triple of digits, or "unreleased" in any case |
| LinkRules.StrayIff | scripts/check-docs.py:2470-2480 | A definition of a version no entry has draws no finding iff a malformed heading names that version first |
| LinkRules.StrayTagIff | scripts/check-docs.py:2485-2500 | So with a release tag no entry has |
| ReleaseLine.ReadTags | scripts/check-docs.py:1535-1583 | The set computation, tip by tip, in terms of reachability in any commit graph |
| ReleaseLine.ReachesIffPath | scripts/check-docs.py:1405-1412 | A commit is in another's history iff a chain of parents, whichever of them, leads to it |
| ReleaseLine.BindingMeaning | scripts/check-docs.py:1535-1583 | A tag binds a commit iff the line holds it and it was not cut on a proper descendant |
| ReleaseLine.UnmergedBoundByAll | scripts/check-docs.py:1517-1565 | A commit the line does not hold is bound by every tag the line holds |
| ReleaseLine.BindingStable | scripts/check-docs.py:1517-1565 | Over every run of commits, merges and releases on main's tip: the tags that bind a commit already on main change only by tags cut on that commit |
| DispatchLexer.ClosesOnThisLine | scripts/check-dispatch.py:80-96 | True iff a closing quote comes before the next unescaped newline |
| DispatchLexer.IsDigitSeparator | scripts/check-dispatch.py:99-131 | The walk to the left finds the token the apostrophe stands in and decides on its first character |
| DispatchLexer.LiteralEndsAtCloser | scripts/check-dispatch.py:144-180 | A literal that closes on its line ends exactly at that closer, and every newline inside is escaped |
| DispatchLexer.StripCommentsAndStrings | scripts/check-dispatch.py:134-183 | The output is the characters of the source at the kept positions |
| DispatchPieces.PiecesLeft | scripts/check-dispatch.py:134-183 | Of every source written in pieces, code, numbers with separators, comments, literals with or without an encoding prefix, the lexer leaves code, numbers and prefixes, and of the rest exactly the newlines |
| DispatchPieces.LoneApostropheKept | scripts/check-dispatch.py:152-168 | An apostrophe that nothing on its line closes is kept |
| DispatchLexer.LinesKept | scripts/check-dispatch.py:134-193 | The kept positions increase, no newline is lost, and every kept character has as many newlines before it as in the source |
| AwkText.AwkCodeText | scripts/check-docs.py:993-1052 | The scan over a character buffer changed in place is the recursive reading of comments, strings and regular expressions |
| AwkText.CodeKeepsPlaces | scripts/check-docs.py:999-1001 | The length and all newlines are kept, every other character stays or becomes a space, and no `#` or string quote is left |
| AwkPieces.PiecesBlanked | scripts/check-docs.py:993-1052 | Of every program written in pieces, comments, strings and patterns are blanked and code and divisions kept, a `/` dividing iff an operand comes before |
| AwkPieces.OperandIff | scripts/check-docs.py:1010-1035 | An operand ends with a letter, a digit, an underscore or a closing bracket; so does nothing at all |
| AwkText.DocumentedIff | scripts/check-docs.py:1010-1033 | The scan is the documented reading iff the first code, past blanks and comments, is not a `/` |
| AwkText.LineStartSlash | scripts/check-docs.py:1010-1052 | A `/` that starts a line divides iff the last significant character before the line is an operand |
| AwkText.LeadingRegexHidesCode | scripts/check-docs.py:1010-1017 | A program that opens with a pattern: its action is blanked and the pattern is not, the reverse of the documented reading |
| AwkText.LaterRegexHidesCode | scripts/check-docs.py:1010-1052 | A program of two rules, the second a pattern on a line of its own: its action is blanked and the pattern is not |
| MemberNames.SafeNameIff | scripts/acquire-pluginval.py:98-110 | A member name is admitted iff it spells a canonical path of safe parts with at most one trailing slash, and that path is the answer |
| ToolNames.SafePartIff | scripts/acquire-pluginval.py:103-109 | A part is safe iff it is not empty, ends neither with a dot nor a space, holds only plain characters, and is no device's name in any case, with an extension or without |
| ToolNames.FoldPartIff | scripts/acquire-pluginval.py:120-121 | Two parts are one, case aside, iff they are equal letter by letter up to case |
| ToolNames.ParentsIff | scripts/acquire-pluginval.py:138 | A path's ancestors are what stands before each of its slashes |
| ToolTree.CheckEntry | scripts/acquire-pluginval.py:118-138 | One member passes iff it is acceptable by itself and no earlier name equals it up to case |
| ToolNames.MacEntryIff | scripts/acquire-pluginval.py:129-138 | On macOS a member is acceptable iff it is the bundle or named below it, and is a directory of size 0 spelled with a slash or a readable file |
| ToolTree.CheckManifest | scripts/acquire-pluginval.py:139-148 | The closing tests pass iff files and directories are disjoint, no two names differ only in case, the executable has the locked digest and a macOS bundle is complete |
| ToolNames.BundleCompleteIff | scripts/acquire-pluginval.py:144-148 | A bundle is complete iff the two files are listed by name and some file's name begins as a resource's |
| ToolTree.FoldCount | scripts/acquire-pluginval.py:140-141 | Counting folded names detects a case collision iff there is one |
| ToolTree.Inventory | scripts/acquire-pluginval.py:113-149 | An archive is admitted iff every member, every pair of members and the whole are acceptable, and the manifest is then what its members say |
| ToolNames.SoleMember | scripts/acquire-pluginval.py:113-149 | On Linux and Windows an archive is admitted iff it holds one member, the executable, with its locked digest and at most 128 MiB declared |
| ToolNames.MacBundle | scripts/acquire-pluginval.py:142-148 | An archive admitted on macOS holds the executable, `Info.plist`, `PkgInfo` and a resource, by name |
| ToolNames.LimitsIff | scripts/acquire-pluginval.py:116-117 | Of archives acceptable otherwise those of at most 4096 members and 128 MiB are admitted |
| ToolTree.AcceptedIsSound | scripts/acquire-pluginval.py:113-149 | Of an admitted archive: every ancestor of a listed path is a listed directory, no path is listed twice under any case, and each digest is that of the archive's bytes |
| ToolTree.BuildTree | scripts/acquire-pluginval.py:247-255 | Making directories by depth and then files, each exclusively, never fails on a sound manifest, on file systems that ignore case too, and builds exactly its tree |
| ToolNames.CreateExclusive | scripts/acquire-pluginval.py:247-255 | What is created was not there, cannot be created again under any spelling the file system takes for the same, and stands in a directory |
| ToolTree.VerifyTree | scripts/acquire-pluginval.py:152-171 | Accepts iff the tree has exactly the manifest's paths, each of its kind, digest and size, and on POSIX the executable bit, in whatever order the tree is walked |
| ToolNames.PassesIffAlike | scripts/acquire-pluginval.py:152-171 | Beside a tree that passes another passes iff it has the same paths and kinds, files of the same digests and sizes, and on POSIX a runnable executable |
| ToolTree.BuiltTreeVerifies | scripts/acquire-pluginval.py:247-256 | The tree built from a sound archive passes the check iff the archive declared its true sizes |
| Publication.ApplySafe | scripts/acquire-pluginval.py:229-269 | Every step of every invocation keeps the invariant and leaves a present target as it is |
| Publication.RunSafe | scripts/acquire-pluginval.py:229-269 | From any content of the final path and under any interleaving of any number of invocations, faults and kills included, every reachable world satisfies the invariant |
| Publication.PublicationIsSafe | scripts/acquire-pluginval.py:229-269 | Where nothing was published before, the final path is absent or holds a complete verified tool; from any beginning, whoever ever returned did so on a path that holds one now |
| Publication.NeverReplaced | scripts/acquire-pluginval.py:258-266 | What is at the final path once stays there for the rest of the run |
| Publication.CacheIsKept | scripts/acquire-pluginval.py:240-241 | A cache found at the start, damaged or not, is never overwritten |
| Publication.LoserIsAnswered | scripts/acquire-pluginval.py:260-265 | Where nothing was published before, the recheck by an invocation that lost the race never refuses the winner's tool |
| Publication.NoStageLeaks | scripts/acquire-pluginval.py:267-269 | When everyone has returned or raised, no staging directory is left |
| Publication.CachedToolIff | scripts/acquire-pluginval.py:218-226 | An invocation that finds the path occupied returns it iff it holds a complete verified tool |
| Publication.UndisturbedPublishes | scripts/acquire-pluginval.py:229-266 | An undisturbed invocation that fetches and extracts what passes its checks publishes exactly that, returns and leaves no stage |
| ToolRelease.VerifiedExecutable | scripts/acquire-pluginval.py:152-171 | Of a verified tool the returned path is a file with the locked digest, executable on POSIX |
| ToolRelease.FetchedArchiveIff | scripts/acquire-pluginval.py:93-95 | A fetched archive goes on iff its digest and its size are the locked ones; any other ends the invocation, which publishes nothing and leaves no stage |
| ToolRelease.CachedArchiveIff | scripts/acquire-pluginval.py:218-221 | So with the archive at the final path, which stays |
| ToolRelease.ReturnedToolIsLocked | scripts/acquire-pluginval.py:229-269 | Whoever returned, under any interleaving and from any beginning, finds at the returned path, at any later time, a file with the locked digest |
| ToolRelease.GenuinePublishes | scripts/acquire-pluginval.py:229-266 | An undisturbed invocation that fetches the genuine archive publishes exactly the tree the archive describes |
| Baseline.ReadBaseline | scripts/check-clang-warnings.py:226-257 | The loop over the lines is the meaning of the file: absent is empty, one malformed line refuses it all |
| BaselineTexts.EntryIff | scripts/check-clang-warnings.py:244-257 | A line is an entry iff, up to its comment and the whitespace around, it is a number, a flag and a path with whitespace between |
| BaselineTexts.MajorIff | scripts/check-clang-warnings.py:223 | A line records the compiler iff it is a `#`, the label and a number, any whitespace between |
| BaselineTexts.SkippedIff | scripts/check-clang-warnings.py:244-250 | Any other line says nothing iff only whitespace stands before its comment |
| Baseline.WriteBaseline | scripts/check-clang-warnings.py:293-303 | Refused without a compiler; otherwise the header, the compiler and one line for each entry |
| Baseline.ReadingIsClean | scripts/check-clang-warnings.py:244-257 | Whatever the file says, every entry read has a flag without blanks or `#` and a trimmed one-line path without `#` |
| Baseline.RoundTrip | scripts/check-clang-warnings.py:226-303 | Reading what was written gives the same counts and compiler iff all keys are of that kind and the compiler is not negative |
| Baseline.NegativeCompilerForgotten | scripts/check-clang-warnings.py:226-303 | The file written for the compiler -1 is read as one that names no compiler |
| UncleanKeys.WrittenReadableIff | scripts/check-clang-warnings.py:226-303 | A baseline written from keys a log can yield, flags with blanks included, is readable iff no flag holds a `#` before any second word |
| UncleanKeys.CleanHidesNothing | scripts/check-clang-warnings.py:119 | Clean keys are such keys, and none of their flags refuses the file |
| WarningGate.Scan | scripts/check-clang-warnings.py:176-215 | A key is counted iff reported, its count is its number of distinct sites, and the site list holds each of them once |
| WarningGate.ElsewhereCounts | scripts/check-clang-warnings.py:176-215 | The number given for other files is that of the diagnostics outside the first-party ones |
| WarningGate.CountsIgnoreOrder | scripts/check-clang-warnings.py:179-184 | Logs with the same diagnostics, in any order and however often repeated, have the same counts |
| WarningGate.Compare | scripts/check-clang-warnings.py:309-324 | The regressions are exactly the keys above their allowance and the improvements exactly those below, with both numbers and each once |
| WarningGate.RegressedIff | scripts/check-clang-warnings.py:309-324 | A reported key is a regression iff more is counted than the baseline allows, an unlisted key being allowed nothing |
| WarningGate.ImprovedIff | scripts/check-clang-warnings.py:309-324 | A listed key is an improvement iff more is allowed than counted, an unreported key being counted nowhere |
| WarningGate.Gate | scripts/check-clang-warnings.py:507-575 | The exit code in terms of log and file: 2 when either cannot be read or the file is of another compiler, else 1 iff some key has more distinct sites than allowed |
| WarningGate.WrittenThenGated | scripts/check-clang-warnings.py:293-324 | A baseline written from one log and checked against another: with a `#` before any second word of some flag the check cannot run; with clean keys it passes iff no key has more distinct sites than it had |
| WarningGate.OwnLogCode | scripts/check-clang-warnings.py:293-324 | Checked against the log it was written from: 2 iff some flag holds a `#` before any second word, 0 iff every key is clean, otherwise 1 |
| WarningGate.HashWarningStopsTheGate | scripts/check-clang-warnings.py:119 | A log with one `-W#warnings` diagnostic: the baseline written from it makes the check of this very log exit 2 |
| WarningGate.NothingNewPasses | scripts/check-clang-warnings.py:309-324 | A log whose diagnostics all stood when the baseline was written passes, or the check cannot run |
| WarningGate.NewSiteFails | scripts/check-clang-warnings.py:309-324 | One new site on top of all the old ones never passes |

## Left out

- Pattern matching that finds a citation in text, its prefix and path classes, and the recognition of provenance spans: a document is given as text pieces and citation tokens, and the pattern's effect on anchors is modelled.
- Unicode: characters are ASCII, so the scripts' Unicode digits, blanks and case folding are not modelled.
- `git`, the network, hashing, ZIP decoding and printing: their results are inputs (reachability, an uninterpreted digest, archive members, file contents). The wording of findings is left out.
- A base or current file whose final newline the change adds or removes: the line map is proved for files whose final newline is unchanged.
- Corpus.FixThenCheck: states the paired branch only, because the statement is false on the other one; `Corpus.CleanAgainIff` covers both.
- Corpus.CleanAgainIff: where some comparison does read a touched line, the condition is that of `RewrittenRuns.CleanAfterRewriteIff`, which follows the pass from document to document.
- RewrittenRuns.CheckAfterRewriteIff: counts on the paired branch only, where what was left over can be counted again; `RewrittenRuns.CleanAfterRewriteIff` covers both.
- That the text of a rewritten document is matched again as the same tokens: the matching of citations in text is not modelled, so the second check reads the moved tokens.
- A versioned line missing from its file is modelled as not right; the code would raise, and `verify_versioned_lines` stops the run before that.
- Splice.CheckDeclaration: one declared spelling of `invalidated_reaims`; the loop over the sorted table adds nothing.
- The tables `DELIBERATE_REAIMS`, `VERSIONED_LINES` and `TRACKED` are parameters, and the gloss checks appear as one input of the exit code.
- `indented_code_mask` and the link, table and anchor checks of `check-docs.py`: they only read what the modelled machines produce.
- The release-notes extractor `changelog-section.awk` beyond its documented boundary, a line that begins with `## [`.
- AwkText.CodeKeepsPlaces: does not claim that the blanking is idempotent, because it is not: a blanked string changes whether a following `/` divides.
- Remote selection, URL matching and remedy text of `read_git_tags`; only its set computation is modelled.
- WarningGate.Scan: the diagnostics are given parsed and with their repository path; the site list is in order of first appearance, where the source sorts it.
- WarningGate.Compare: states which findings there are, each once, and not their sorted order.
- WarningGate.WrittenThenGated: keys of the form a log can yield, that is, one-line flags and paths that start with neither a blank nor a `#`.
- Baseline.WriteBaseline: takes the entries in any order; the source sorts them by flag and path. The header is any list of comment lines that names no compiler.
- Publication: removing a stage in `finally` is taken to succeed, and the steps of writing into a private stage are any writes at all, so a fault of the disk is covered but partial writes are not told apart.
- The other scripts, all self-tests and the C++ sources: easy members or opaque input and output.
