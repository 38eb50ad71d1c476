/**
 * The line grammar of `scripts/check-docs.py`: ATX headings (section 4.2 of CommonMark 0.31) wherever
 * they sit, setext underlines, link reference definitions, and the texts that name a release. The
 * boundary the release-notes extractor knows is shown to be one of these headings.
 */
module Headings {
  import opened Ascii
  import opened Wrappers
  import opened Columns
  import opened Containers
  import opened Versions
  import F = Fences

  // ---- ATX headings -------------------------------------------------------------------------

  /** The text without trailing spaces and tabs. */
  function DropTrailingBlanks(s: string): string {
    if s == [] || !IsBlank(s[|s| - 1]) then s else DropTrailingBlanks(s[..|s| - 1])
  }

  /** How many `#` end the text. */
  function TrailingHashes(s: string): (n: nat)
    ensures n <= |s|
  {
    if s == [] || s[|s| - 1] != '#' then 0 else 1 + TrailingHashes(s[..|s| - 1])
  }

  /** The text without a closing `#` run, which only a space, a tab or the text's start may precede. */
  function DropClosingRun(text: string): string {
    var n := TrailingHashes(text);
    if n > 0 && (n == |text| || IsBlank(text[|text| - n - 1])) then DropTrailingBlanks(text[..|text| - n])
    else text
  }

  /** `atx_heading`: the level and the text. */
  function AtxHeading(line: string): Option<(nat, string)> {
    var indent := LeadingSpaces(line);
    var body := line[indent..];
    var level := F.Repeats(body, '#');
    var rest := body[level..];
    if indent > 3 || level < 1 || level > 6 || (rest != [] && !IsBlank(rest[0])) then None
    else Some((level, Trim(DropClosingRun(DropTrailingBlanks(DropBlanks(rest))))))
  }

  /** `deep_heading`: a heading four columns in or more. */
  function DeepHeading(line: string): Option<(nat, string)> {
    if line == [] || !IsBlank(line[0]) || IndentFrom(line, 0) < 4 then None else AtxHeading(DropBlanks(line))
  }

  datatype Placement = Column0 | Indented | Deep | Container

  datatype Heading = Heading(level: nat, text: string, placement: Placement)

  /** `classify_heading`: what a line says as a heading, and where it sits. */
  function ClassifyHeading(line: string, chain: Chain): Option<Heading> {
    match AtxHeading(line)
    case Some((level, text)) => Some(Heading(level, text, if IndentFrom(line, 0) == 0 then Column0 else Indented))
    case None =>
      match DeepHeading(line)
      case Some((level, text)) => Some(Heading(level, text, Deep))
      case None =>
        var s := Strip(line);
        if s.prefix == "" then None
        else
          match ContainerHeading(s, chain)
          case Some((level, text)) => Some(Heading(level, text, Container))
          case None => None
  }

  /** A heading behind container markers, or at the content column of an item the line continues. */
  function ContainerHeading(s: Stripped, chain: Chain): Option<(nat, string)> {
    var inner := AtxHeading(s.content);
    var column := F.ChainColumn(chain, s.depth);
    if inner.None? && s.items == [] && column > 0 && column <= |s.content| && IndentFrom(s.content, 0) >= column
    then AtxHeading(s.content[column..])
    else inner
  }

  // ---- Other lines --------------------------------------------------------------------------

  /** `SETEXT_UNDERLINE`: one run of `=` or `-`, then blanks or carriage returns. */
  predicate IsUnderline(s: string) {
    s != [] && s[0] in "=-" && AllIn(s[F.Repeats(s, s[0])..], c => IsBlank(c) || c == '\r')
  }

  /** A bullet, or one to nine digits and a delimiter, followed by a character `p` accepts or (`end`) nothing. */
  predicate MarkerThen(s: string, p: char -> bool, end: bool) {
    match MarkerHead(s)
    case None => false
    case Some(n) => if n == |s| then end else p(s[n])
  }

  /** `LIST_MARKER` */
  predicate IsListItem(line: string) { MarkerThen(LStrip(line), IsSpace, true) }

  /** `LIST_CONTAINER_MARKER.search`: a list marker at the start of the prefix or after a blank. */
  predicate HasListMarker(prefix: string) {
    exists i | 0 <= i < |prefix| :: (i == 0 || IsBlank(prefix[i - 1])) && MarkerThen(prefix[i..], IsBlank, false)
  }

  /** The characters of `s` that are not whitespace are `c`, and there are at least three. */
  predicate IsThematicBreak(s: string) {
    s != [] && s[0] in "-*_" && AllIn(s, c => c == s[0] || IsSpace(c)) && Count(s, s[0]) >= 3
  }

  function Count(s: string, c: char): nat {
    if s == [] then 0 else (if s[0] == c then 1 else 0) + Count(s[1..], c)
  }

  /** `interrupts_paragraph` */
  predicate InterruptsParagraph(line: string) {
    var s := LStrip(line);
    s != [] &&
    var hashes := F.Repeats(s, '#');
    var equals := F.Repeats(s, '=');
    || (1 <= hashes <= 6 && (hashes == |s| || IsSpace(s[hashes])))
    || F.Repeats(s, '`') >= 3 || F.Repeats(s, '~') >= 3
    || IsThematicBreak(s)
    || s[0] in ">|<"
    || (s[0] in "-*+" && (|s| == 1 || IsSpace(s[1])))
    || (|s| >= 2 && s[0] == '1' && s[1] in ".)" && (|s| == 2 || IsSpace(s[2])))
    || (equals > 0 && AllIn(s[equals..], IsSpace))
  }

  // ---- Link reference definitions -----------------------------------------------------------

  /** The offset of the first `c`, or the length. */
  function IndexOf(s: string, c: char): (n: nat)
    ensures n <= |s|
  {
    if s == [] || s[0] == c then 0 else 1 + IndexOf(s[1..], c)
  }

  predicate NotSpace(c: char) { !IsSpace(c) }

  predicate BlankOrReturn(c: char) { IsBlank(c) || c == '\r' }

  /** An optional title, then blanks to the end of the line. */
  predicate IsLinkTail(rest: string) {
    || AllIn(rest, BlankOrReturn)
    || (var title := DropBlanks(rest);
        |title| < |rest| && title != [] && title[0] in "\"'(" &&
        var close := if title[0] == '(' then ')' else title[0];
        var end := IndexOf(title[1..], close);
        end < |title| - 1 && AllIn(title[end + 2..], BlankOrReturn))
  }

  datatype Definition = Definition(line: nat, name: string, url: string)

  /** `LINK_DEFINITION`: the label and the destination, without its angle brackets. */
  function LinkDefinition(line: string): Option<(string, string)> {
    var indent := LeadingSpaces(line);
    var body := line[indent..];
    if indent > 3 || body == [] || body[0] != '[' then None
    else
      var end := IndexOf(body[1..], ']');
      if end == 0 || end + 2 >= |body| || body[end + 2] != ':' then None
      else
        var name := JoinWords(body[1..end + 1]);
        var rest := DropBlanks(body[end + 3..]);
        var bracket := if rest != [] && rest[0] == '<' then IndexOf(rest, '>') else |rest|;
        if bracket < |rest| && IsLinkTail(rest[bracket + 1..]) then Some((name, rest[1..bracket]))
        else
          var n := RunLength(rest, NotSpace);
          if n == 0 || !IsLinkTail(rest[n..]) then None
          else if n >= 2 && rest[0] == '<' && rest[n - 1] == '>' then Some((name, rest[1..n - 1]))
          else Some((name, rest[..n]))
  }

  /** `" ".join(label.split())` */
  function JoinWords(s: string): string
    decreases |s|
  {
    var t := LStrip(s);
    var n := RunLength(t, NotSpace);
    if n == 0 then ""
    else
      var rest := JoinWords(t[n..]);
      if rest == "" then t[..n] else t[..n] + " " + rest
  }

  // ---- Texts that name a release ------------------------------------------------------------

  predicate IsWordOrDot(c: char) { IsWord(c) || c == '.' }

  /** Where `\d+\.\d+\.\d+` at the front ends, when no word character or dot follows. */
  function TripleEnd(s: string): (r: Option<nat>)
    ensures r.Some? ==> r.value <= |s|
  {
    var a := RunLength(s, IsDigit);
    if a == 0 || a == |s| || s[a] != '.' then None
    else
      var b := RunLength(s[a + 1..], IsDigit);
      var at := a + 1 + b;
      if b == 0 || at == |s| || s[at] != '.' then None
      else
        var c := RunLength(s[at + 1..], IsDigit);
        var end := at + 1 + c;
        if c == 0 || (end < |s| && IsWordOrDot(s[end])) then None else Some(end)
  }

  /** `v?\d+\.\d+\.\d+` at the front: the version without its `v`. */
  function SemverAt(s: string): Option<string> {
    var t := if s != [] && s[0] == 'v' then s[1..] else s;
    match TripleEnd(t)
    case None => None
    case Some(end) => Some(t[..end])
  }

  /** `SEMVER_ANYWHERE.search`, from offset `i` on. */
  function FindSemver(s: string, i: nat): Option<string>
    requires i <= |s|
    decreases |s| - i
  {
    if i == |s| then None
    else if (i == 0 || !IsWordOrDot(s[i - 1])) && SemverAt(s[i..]).Some? then SemverAt(s[i..])
    else FindSemver(s, i + 1)
  }

  /** `\b\d{4}-\d{2}-\d{2}\b` at offset `i`. */
  predicate IsoDateAt(s: string, i: nat) {
    && i + 10 <= |s|
    && (i == 0 || !IsWord(s[i - 1]))
    && IsoShape(s[i..i + 10])
    && (i + 10 == |s| || !IsWord(s[i + 10]))
  }

  /** `ISO_DATE_ANYWHERE.search` */
  predicate HasIsoDate(s: string) { exists i | 0 <= i < |s| :: IsoDateAt(s, i) }

  function AfterBracket(text: string): string { if text != [] && text[0] == '[' then text[1..] else text }

  predicate EqualsIgnoringCase(s: string, t: string) {
    |s| == |t| && forall k | 0 <= k < |s| :: Lower(s[k]) == Lower(t[k])
  }

  /** `RELEASE_LIKE_UNRELEASED` */
  predicate IsUnreleasedLike(text: string) {
    var t := LStrip(AfterBracket(text));
    |t| >= 10 && EqualsIgnoringCase(t[..10], "unreleased") && LStrip(t[10..]) in ["", "]"]
  }

  /** `names_a_release` */
  predicate NamesRelease(text: string) {
    || SemverAt(DropBlanks(AfterBracket(text))).Some?
    || IsUnreleasedLike(text)
    || (FindSemver(text, 0).Some? && ((text != [] && text[0] == '[') || HasIsoDate(text)))
  }

  /** `release_like` */
  predicate ReleaseLike(text: string) { (text != [] && text[0] == '[') || NamesRelease(text) }

  // ---- Entry headings -----------------------------------------------------------------------

  const RECONSTRUCTED_HEADINGS: seq<string> :=
    ["[0.7.5] \U{2013} [0.7.0] \U{2014} 2026-06-21\U{2026}22",
     "[0.6.x] and earlier \U{2014} 2026-06 (reconstructed)"]

  /** `VERSION_HEADING_TEXT`: the version and the date. */
  function VersionHeading(text: string): Option<(Version, string)> {
    var end := IndexOf(text, ']');
    if text == [] || text[0] != '[' || end == 0 || |text| < end + 14 then None
    else
      var date := text[end + 4..end + 14];
      var tail := text[end + 14..];
      match ParseVersion(text[1..end])
      case None => None
      case Some(v) =>
        if text[end + 1] == ' ' && text[end + 2] in "\U{2014}-" && text[end + 3] == ' '
           && IsoShape(date) && tail in ["", " [YANKED]"]
        then Some((v, date)) else None
  }

  // ---- The one spelling the extractor cuts at -----------------------------------------------

  /** `PUBLISHABLE_ENTRY_PREFIX` */
  predicate IsBoundary(line: string) { "## [" <= line }

  lemma HashesFirst(line: string)
    requires IsBoundary(line)
    ensures line[..2] == "##" && line[2] == ' ' && line[3] == '['
    ensures LeadingSpaces(line) == 0 && IndentFrom(line, 0) == 0 && F.Repeats(line, '#') == 2
  {
    assert line[0] == "## ["[0] && line[1] == "## ["[1] && line[2] == "## ["[2] && line[3] == "## ["[3];
    assert line[1..][0] == '#' && line[1..][1..][0] == ' ';
    assert F.Repeats(line[1..], '#') == 1 + F.Repeats(line[1..][1..], '#');
  }

  /** Whatever follows the bracket, the heading's text still starts with it. */
  lemma BracketSurvives(rest: string)
    requires rest != [] && rest[0] == '['
    ensures var text := Trim(DropClosingRun(DropTrailingBlanks(rest)));
            text != [] && text[0] == '['
  {
    KeepFirst(rest);
    var t := DropTrailingBlanks(rest);
    HashesLeaveFirst(t);
    var u := DropClosingRun(t);
    assert u != [] && u[0] == '[' by { if TrailingHashes(t) < |t| { KeepFirst(t[..|t| - TrailingHashes(t)]); } }
    assert LStrip(u) == u;
    KeepFirstSpace(u);
  }

  lemma {:induction false} KeepFirst(s: string)
    requires s != [] && !IsBlank(s[0])
    ensures DropTrailingBlanks(s) != [] && DropTrailingBlanks(s)[0] == s[0]
  {
    if IsBlank(s[|s| - 1]) { KeepFirst(s[..|s| - 1]); }
  }

  lemma {:induction false} KeepFirstSpace(s: string)
    requires s != [] && !IsSpace(s[0])
    ensures RStrip(s) != [] && RStrip(s)[0] == s[0]
  {
    if IsSpace(s[|s| - 1]) { KeepFirstSpace(s[..|s| - 1]); }
  }

  lemma {:induction false} HashesLeaveFirst(s: string)
    requires s != [] && s[0] != '#'
    ensures TrailingHashes(s) < |s|
  {
    if s[|s| - 1] == '#' { HashesLeaveFirst(s[..|s| - 1]); }
  }

  /** A line the extractor cuts at is a level-2 heading at column 0 whose text is release-like. */
  lemma BoundaryIsEntryHeading(line: string, chain: Chain)
    requires IsBoundary(line)
    ensures ClassifyHeading(line, chain).Some?
    ensures var h := ClassifyHeading(line, chain).value;
            h.level == 2 && h.placement == Column0 && h.text != [] && h.text[0] == '['
  {
    HashesFirst(line);
    assert line[0..] == line;
    var rest := line[2..];
    assert rest[0] == ' ' && rest[1] == '[';
    assert DropBlanks(rest) == rest[1..] by { RunLengthUnique(rest, IsBlank, 1); }
    BracketSurvives(rest[1..]);
  }
}
