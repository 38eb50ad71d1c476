/**
 * The warning baseline of `scripts/check-clang-warnings.py` as a file: what `write_baseline` prints
 * and what `read_baseline` makes of any text. Any text is a set of counts with a compiler, or is
 * refused; reading back what was written works exactly for the keys that reading can yield, and the
 * compiler is read back exactly when it is not a negative number.
 */
module Baseline {
  import opened Ascii
  import opened Decimal
  import opened Wrappers

  datatype Key = Key(path: string, flag: string)

  type Counts = map<Key, nat>

  /** A parsed baseline; `major` is absent when no line records the compiler. */
  datatype Record = Record(counts: Counts, major: Option<int>)

  // ---- Reading ------------------------------------------------------------------------------

  /** Text mode: every line ending is read as a newline. */
  function Universal(s: string): string {
    if s == "" then ""
    else if s[0] != '\r' then [s[0]] + Universal(s[1..])
    else "\n" + Universal(if |s| > 1 && s[1] == '\n' then s[2..] else s[1..])
  }

  predicate NotHash(c: char) { c != '#' }

  predicate NotSpace(c: char) { !IsSpace(c) }

  const LABEL := "clang-major:"

  /** The compiler a stripped line records: `#`, the label and a number, blanks anywhere between. */
  function MajorIn(t: string): Option<nat> {
    if t == "" || t[0] != '#' then None
    else
      var a := LStrip(t[1..]);
      if !(LABEL <= a) then None
      else
        var b := LStrip(a[|LABEL|..]);
        var n := RunLength(b, IsDigit);
        if n == 0 || !BlankLine(b[n..]) then None else Some(Read(b[..n]))
  }

  /** What one line of a baseline says. */
  datatype Meaning = Major(value: nat) | Skipped | Entry(key: Key, count: nat) | Malformed

  /** The first word of a line and what follows its blanks. */
  function Cut(line: string): (string, string) {
    var n := RunLength(line, NotSpace);
    (line[..n], LStrip(line[n..]))
  }

  /** `line.split(None, 2)` of a stripped line: a count, a flag and the rest. */
  function Fields(line: string): Option<(Key, nat)> {
    var (count, tail) := Cut(line);
    var (flag, path) := Cut(tail);
    if path == "" || !AllIn(count, IsDigit) then None else Some((Key(path, flag), Read(count)))
  }

  function Uncommented(raw: string): string { raw[..RunLength(raw, NotHash)] }

  function MeaningOf(raw: string): Meaning {
    var version := MajorIn(Trim(raw));
    if version.Some? then Major(version.value)
    else
      var line := Trim(Uncommented(raw));
      if line == "" then Skipped
      else
        var fields := Fields(line);
        if fields.None? then Malformed else Entry(fields.value.0, fields.value.1)
  }

  function Absorb(r: Record, m: Meaning): Option<Record> {
    match m
    case Major(n) => Some(r.(major := Some(n)))
    case Skipped => Some(r)
    case Entry(key, count) => Some(r.(counts := r.counts[key := count]))
    case Malformed => None
  }

  /** The lines in order, later entries winning; one malformed line refuses the file. */
  function Interpret(lines: seq<string>): Option<Record> {
    if lines == [] then Some(Record(map[], None))
    else
      var before := Interpret(lines[..|lines| - 1]);
      if before.None? then None else Absorb(before.value, MeaningOf(lines[|lines| - 1]))
  }

  /** What a file means; an absent file is an empty baseline. */
  function FileMeaning(file: Option<string>): Option<Record> {
    if file.None? then Some(Record(map[], None)) else Interpret(Lines(Universal(file.value)))
  }

  lemma {:induction false} RefusedOnce(lines: seq<string>, n: nat)
    requires n <= |lines| && Interpret(lines[..n]).None?
    ensures Interpret(lines).None?
    decreases |lines|
  {
    hide MeaningOf;
    if n < |lines| {
      assert lines[..|lines| - 1][..n] == lines[..n];
      RefusedOnce(lines[..|lines| - 1], n);
    } else {
      assert lines[..n] == lines;
    }
  }

  lemma InterpretNext(lines: seq<string>, i: nat)
    requires i < |lines|
    ensures var before := Interpret(lines[..i]);
            Interpret(lines[..i + 1]) == if before.None? then None else Absorb(before.value, MeaningOf(lines[i]))
  {
    hide MeaningOf, Absorb;
    assert lines[..i + 1][..i] == lines[..i];
  }

  /** `read_baseline`: `None` is the refusal of an unparseable file. */
  method ReadBaseline(file: Option<string>) returns (r: Option<Record>)
    ensures r == FileMeaning(file)
  {
    hide MajorIn, Fields, Uncommented, Universal, Interpret;
    if file.None? { return Some(Record(map[], None)); }
    var lines := Lines(Universal(file.value));
    var out: Counts, major: Option<int> := map[], None;
    NothingRead(lines);
    for i := 0 to |lines|
      invariant Interpret(lines[..i]) == Some(Record(out, major))
    {
      var raw := lines[i];
      InterpretNext(lines, i);
      var version := MajorIn(Trim(raw));
      if version.Some? {
        major := Some(version.value);
      } else {
        var line := Trim(Uncommented(raw));
        if line != "" {
          var fields := Fields(line);
          if fields.None? {
            RefusedOnce(lines, i + 1);
            return None;
          }
          out := out[fields.value.0 := fields.value.1];
        }
      }
    }
    assert lines[..|lines|] == lines;
    return Some(Record(out, major));
  }

  lemma NothingRead(lines: seq<string>)
    ensures Interpret(lines[..0]) == Some(Record(map[], None))
  {
  }

  // ---- Writing ------------------------------------------------------------------------------
  function MajorLine(major: int): string { "# " + LABEL + " " + ShowInt(major) }

  function EntryLine(key: Key, count: nat): string { Show(count) + "\t" + key.flag + "\t" + key.path }

  /** Each line with its newline. */
  function Unlines(lines: seq<string>): string {
    if lines == [] then "" else Unlines(lines[..|lines| - 1]) + lines[|lines| - 1] + "\n"
  }

  ghost predicate Orders(order: seq<Key>, counts: Counts) {
    (forall k :: k in counts <==> k in order) && forall i, j | 0 <= i < j < |order| :: order[i] != order[j]
  }

  /** The lines written: the header, the compiler, and one line for each entry in `order`. */
  function WrittenLines(header: seq<string>, counts: Counts, order: seq<Key>, major: int): seq<string>
    requires forall k | 0 <= k < |order| :: order[k] in counts
  {
    header + ["#", MajorLine(major)]
    + seq(|order|, k requires 0 <= k < |order| => EntryLine(order[k], counts[order[k]]))
  }

  lemma UnlinesNext(lines: seq<string>, n: nat)
    requires n < |lines|
    ensures Unlines(lines[..n + 1]) == Unlines(lines[..n]) + (lines[n] + "\n")
  {
    assert lines[..n + 1][..n] == lines[..n];
  }

  lemma HeaderText(header: seq<string>, line: string)
    ensures Unlines(header + ["#", line]) == Unlines(header) + ("#\n" + line + "\n")
  {
    var all := header + ["#", line];
    var one := header + ["#"];
    assert all[..|all| - 1] == one && one[..|header|] == header;
    assert Unlines(header) + "#" + "\n" + line + "\n" == Unlines(header) + ("#\n" + line + "\n");
  }

  /** `write_baseline`: refused without a compiler major; `order` is the sorted list of the entries. */
  method WriteBaseline(header: seq<string>, counts: Counts, order: seq<Key>, major: Option<int>)
    returns (r: Option<string>)
    requires Orders(order, counts)
    ensures r == if major.None? then None
                 else Some(Unlines(WrittenLines(header, counts, order, major.value)))
  {
    hide EntryLine, MajorLine, Unlines;
    if major.None? { return None; }
    var text := Unlines(header);
    text := text + ("#\n" + MajorLine(major.value) + "\n");
    ghost var all := WrittenLines(header, counts, order, major.value);
    var h := |header| + 2;
    HeaderText(header, MajorLine(major.value));
    assert all[..h] == header + ["#", MajorLine(major.value)];
    for i := 0 to |order|
      invariant text == Unlines(all[..h + i])
    {
      UnlinesNext(all, h + i);
      assert all[h + i] == EntryLine(order[i], counts[order[i]]);
      text := text + (EntryLine(order[i], counts[order[i]]) + "\n");
    }
    assert all[..h + |order|] == all;
    return Some(text);
  }

  // ---- Reading yields clean keys --------------------------------------------------------------

  predicate Plain(c: char) { c != '#' && c != '\n' && c != '\r' }

  /** A flag with no blank or `#`; a path with no `#` and no line ending, and no blank at its ends. */
  predicate Clean(k: Key) {
    k.flag != "" && AllIn(k.flag, NotSpace) && AllIn(k.flag, NotHash)
    && k.path != "" && AllIn(k.path, Plain) && !IsSpace(k.path[0]) && !IsSpace(k.path[|k.path| - 1])
  }

  ghost predicate AllClean(counts: Counts) { forall k | k in counts :: Clean(k) }

  lemma {:induction false} UniversalNoReturn(s: string)
    ensures forall k | 0 <= k < |Universal(s)| :: Universal(s)[k] != '\r'
  {
    if s != "" {
      UniversalNoReturn(s[1..]);
      if |s| > 1 && s[1] == '\n' { UniversalNoReturn(s[2..]); }
    }
  }

  /** No line of a text without carriage returns holds a line ending. */
  ghost predicate NoEnding(line: string) { forall k | 0 <= k < |line| :: line[k] != '\n' && line[k] != '\r' }

  ghost predicate NoEndings(lines: seq<string>) { forall k | 0 <= k < |lines| :: NoEnding(lines[k]) }

  lemma {:induction false} LinesNoEnding(s: string)
    requires forall k | 0 <= k < |s| :: s[k] != '\r'
    ensures NoEndings(Lines(s))
  {
    if s != [] {
      LinesNoEnding(s[1..]);
      assert NoEnding(Lines(s[1..])[0]);
    }
  }

  /** `t` is a stretch of `s`. */
  ghost predicate PartOf(t: string, s: string) { exists i, j | 0 <= i <= j <= |s| :: s[i..j] == t }

  lemma TrimIsPart(s: string)
    ensures PartOf(Trim(s), s)
    ensures Trim(s) != "" ==> !IsSpace(Trim(s)[0]) && !IsSpace(Trim(s)[|Trim(s)| - 1])
  {
    var i := RunLength(s, IsSpace);
    assert s[i..][..|Trim(s)|] == Trim(s);
    assert s[i..i + |Trim(s)|] == Trim(s);
    if Trim(s) != "" { assert Trim(s)[0] == s[i]; }
  }

  lemma LStripTail(line: string, i: nat) returns (b: nat)
    requires i <= |line|
    ensures i <= b <= |line| && LStrip(line[i..]) == line[b..] && (b < |line| ==> !IsSpace(line[b]))
  {
    b := i + RunLength(line[i..], IsSpace);
  }

  /** The flag runs from `a` to `c` and the path from `b` to the end. */
  lemma FieldsShape(line: string) returns (a: nat, c: nat, b: nat)
    ensures a <= c <= b <= |line| && (b < |line| ==> !IsSpace(line[b]) && a < c)
    ensures AllIn(line[a..c], NotSpace)
    ensures Fields(line).Some? ==> b < |line| && Fields(line).value.0 == Key(line[b..], line[a..c])
  {
    hide IsSpace, LStrip;
    var first := RunLength(line, NotSpace);
    a := LStripTail(line, first);
    var second := RunLength(line[a..], NotSpace);
    c := a + second;
    assert line[a..][second..] == line[c..] && line[a..][..second] == line[a..c];
    b := LStripTail(line, c);
  }

  lemma FieldsClean(line: string)
    requires line != "" && !IsSpace(line[|line| - 1]) && AllIn(line, Plain)
    ensures var f := Fields(line); f.Some? ==> Clean(f.value.0)
  {
    hide IsSpace, Fields;
    var a, c, b := FieldsShape(line);
  }

  lemma MeaningClean(raw: string)
    requires NoEnding(raw)
    ensures MeaningOf(raw).Entry? ==> Clean(MeaningOf(raw).key)
  {
    hide Trim, Fields, MajorIn;
    var bare := Uncommented(raw);
    var line := Trim(bare);
    TrimIsPart(bare);
    if line != "" {
      var i, j :| 0 <= i <= j <= |bare| && bare[i..j] == line;
      assert forall k | 0 <= k < |line| :: line[k] == raw[i + k] && NotHash(raw[i + k]);
      FieldsClean(line);
    }
  }

  lemma {:induction false} InterpretClean(lines: seq<string>)
    requires NoEndings(lines)
    ensures Interpret(lines).Some? ==> AllClean(Interpret(lines).value.counts)
  {
    hide MeaningOf, NoEnding, Clean;
    if lines != [] {
      InterpretClean(lines[..|lines| - 1]);
      MeaningClean(lines[|lines| - 1]);
    }
  }

  /** Whatever the file says, an entry that was read has a clean flag and path. */
  lemma ReadingIsClean(file: Option<string>)
    ensures FileMeaning(file).Some? ==> AllClean(FileMeaning(file).value.counts)
  {
    hide Universal, Interpret;
    if file.Some? {
      var s := Universal(file.value);
      UniversalNoReturn(file.value);
      LinesNoEnding(s);
      InterpretClean(Lines(s));
    }
  }

  // ---- Reading back what was written ----------------------------------------------------------

  lemma {:induction false} UniversalKeeps(s: string)
    requires forall k | 0 <= k < |s| :: s[k] != '\r'
    ensures Universal(s) == s
  {
    if s != "" { UniversalKeeps(s[1..]); }
  }

  lemma {:induction false} LinesOfLine(line: string, rest: string)
    requires NoEnding(line)
    ensures Lines(line + "\n" + rest) == [line] + Lines(rest)
  {
    var s := line + "\n" + rest;
    if line == "" {
      assert s[1..] == rest;
    } else {
      LinesOfLine(line[1..], rest);
      assert s[1..] == line[1..] + "\n" + rest;
      assert [line[0]] + line[1..] == line;
    }
  }

  lemma {:induction false} LinesOfUnlines(lines: seq<string>, rest: string)
    requires NoEndings(lines)
    ensures Lines(Unlines(lines) + rest) == lines + Lines(rest)
  {
    hide Lines, NoEnding;
    if lines == [] {
      assert Unlines(lines) + rest == rest;
    } else {
      var front, last := lines[..|lines| - 1], lines[|lines| - 1];
      LinesOfUnlines(front, last + "\n" + rest);
      LinesOfLine(last, rest);
      assert Unlines(lines) + rest == Unlines(front) + (last + "\n" + rest);
      assert front + [last] == lines;
    }
  }

  lemma {:induction false} UnlinesNoReturn(lines: seq<string>)
    requires NoEndings(lines)
    ensures forall k | 0 <= k < |Unlines(lines)| :: Unlines(lines)[k] != '\r'
  {
    if lines != [] { UnlinesNoReturn(lines[..|lines| - 1]); }
  }

  lemma LastEmptyLine(lines: seq<string>)
    ensures Interpret(lines + [""]) == Interpret(lines)
  {
    assert (lines + [""])[..|lines|] == lines;
    assert MeaningOf("") == Skipped;
  }

  /** Reading a printed list of lines is interpreting those lines. */
  lemma FileOfUnlines(lines: seq<string>)
    requires NoEndings(lines)
    ensures FileMeaning(Some(Unlines(lines))) == Interpret(lines)
  {
    hide Universal, Unlines, Interpret, NoEnding;
    UnlinesNoReturn(lines);
    UniversalKeeps(Unlines(lines));
    LinesOfUnlines(lines, "");
    assert Unlines(lines) + "" == Unlines(lines);
    LastEmptyLine(lines);
  }

  lemma {:induction false} RStripKeeps(s: string)
    requires s != "" && !IsSpace(s[|s| - 1])
    ensures RStrip(s) == s
  {
  }

  lemma TrimKeeps(s: string)
    requires s != "" && !IsSpace(s[0]) && !IsSpace(s[|s| - 1])
    ensures Trim(s) == s
  {
    RunLengthUnique(s, IsSpace, 0);
    assert s[0..] == s;
    RStripKeeps(s);
  }

  lemma LStripOne(blank: char, s: string)
    requires IsSpace(blank) && s != "" && !IsSpace(s[0])
    ensures LStrip([blank] + s) == s
  {
    RunLengthUnique([blank] + s, IsSpace, 1);
  }

  /** The pieces of a labelled comment line. */
  lemma LabelPieces(tag: string, shown: string)
    requires tag != "" && !IsSpace(tag[0]) && shown != "" && !IsSpace(shown[|shown| - 1])
    ensures var a, t := tag + " " + shown, "# " + tag + " " + shown;
            t != "" && t[0] == '#' && t[1..] == [' '] + a && a != "" && !IsSpace(a[0])
            && tag <= a && a[|tag|..] == [' '] + shown && Trim(t) == t
  {
    var t := "# " + tag + " " + shown;
    assert t[|t| - 1] == shown[|shown| - 1];
    TrimKeeps(t);
  }

  /** What follows the label, past the blank, decides the line. */
  lemma LabelledLine(shown: string)
    requires shown != "" && !IsSpace(shown[0]) && !IsSpace(shown[|shown| - 1])
    ensures var t := "# " + LABEL + " " + shown; var n := RunLength(shown, IsDigit);
            Trim(t) == t && MajorIn(t) == if n == 0 || !BlankLine(shown[n..]) then None else Some(Read(shown[..n]))
  {
    hide RunLength, LStrip, Trim, BlankLine, Read;
    LabelPieces(LABEL, shown);
    LStripOne(' ', LABEL + " " + shown);
    LStripOne(' ', shown);
  }

  lemma ShownNumber(n: nat)
    ensures var s := Show(n);
            !IsSpace(s[0]) && !IsSpace(s[|s| - 1]) && RunLength(s, IsDigit) == |s| && Read(s[..|s|]) == n
            && BlankLine(s[|s|..])
  {
    var s := Show(n);
    RunLengthUnique(s, IsDigit, |s|);
    assert s[..|s|] == s && s[|s|..] == "";
    ReadShow(n);
  }

  lemma ShownNegative(n: nat)
    ensures var s := "-" + Show(n); !IsSpace(s[0]) && !IsSpace(s[|s| - 1]) && RunLength(s, IsDigit) == 0
  {
    var s := "-" + Show(n);
    assert s[|s| - 1] == Show(n)[|Show(n)| - 1];
    RunLengthUnique(s, IsDigit, 0);
  }

  lemma ShownNoEnding(n: nat)
    ensures NoEnding(Show(n))
  {
  }

  lemma MajorLineNoEnding(major: int)
    ensures NoEnding(MajorLine(major))
  {
    hide Show;
    ShownNoEnding(if major >= 0 then major else -major);
  }

  /** The line that records a compiler is read back; a negative number is not one. */
  lemma MajorLineMeaning(major: int)
    ensures MeaningOf(MajorLine(major)) == if major >= 0 then Major(major) else Skipped
  {
    hide MajorIn, Trim, RunLength, Show, BlankLine, Read, IsSpace, Uncommented;
    if major >= 0 { ShownNumber(major); } else { ShownNegative(-major); }
    LabelledLine(ShowInt(major));
    if major < 0 { HashSkipped(MajorLine(major)); }
  }

  lemma HashSkipped(t: string)
    requires t != "" && t[0] == '#' && MajorIn(Trim(t)).None?
    ensures MeaningOf(t) == Skipped
  {
    hide MajorIn;
    RunLengthUnique(t, NotHash, 0);
    assert Uncommented(t) == "";
  }

  lemma EntryShape(d: string, key: Key)
    requires d != "" && AllIn(d, IsDigit) && Clean(key)
    ensures var raw := d + "\t" + key.flag + "\t" + key.path;
            Uncommented(raw) == raw && Trim(raw) == raw && raw[0] != '#' && raw != "" && NoEnding(raw)
  {
    var raw := d + "\t" + key.flag + "\t" + key.path;
    assert raw[|raw| - 1] == key.path[|key.path| - 1];
    TrimKeeps(raw);
    RunLengthUnique(raw, NotHash, |raw|);
  }

  lemma CutWord(word: string, blank: char, rest: string)
    requires AllIn(word, NotSpace) && IsSpace(blank) && rest != "" && !IsSpace(rest[0])
    ensures Cut(word + [blank] + rest) == (word, rest)
  {
    var s := word + [blank] + rest;
    RunLengthUnique(s, NotSpace, |word|);
    assert s[..|word|] == word && s[|word|..] == [blank] + rest;
    LStripOne(blank, rest);
  }

  lemma DigitsNotSpace(d: string)
    requires AllIn(d, IsDigit)
    ensures AllIn(d, NotSpace)
  {
  }

  lemma TabIsSpace()
    ensures IsSpace('\t')
  {
  }

  lemma FirstNotSpace(key: Key)
    requires Clean(key)
    ensures var rest := key.flag + ['\t'] + key.path; rest != "" && !IsSpace(rest[0])
  {
    assert NotSpace(key.flag[0]);
  }

  lemma NoMajorIn(t: string)
    requires t != "" && t[0] != '#'
    ensures MajorIn(t).None?
  {
  }

  /** An entry with a clean key is read back as it was written. */
  lemma EntryLineMeaning(key: Key, count: nat)
    requires Clean(key)
    ensures MeaningOf(EntryLine(key, count)) == Entry(key, count) && NoEnding(EntryLine(key, count))
  {
    hide Uncommented, Trim, Cut, NoEnding, Plain, IsSpace, NotSpace, Read, MajorIn;
    var d, rest := Show(count), key.flag + ['\t'] + key.path;
    EntryShape(d, key);
    ReadShow(count);
    TabIsSpace();
    DigitsNotSpace(d);
    FirstNotSpace(key);
    assert EntryLine(key, count) == d + ['\t'] + rest;
    CutWord(d, '\t', rest);
    CutWord(key.flag, '\t', key.path);
    NoMajorIn(EntryLine(key, count));
  }

  // ---- The round trip -------------------------------------------------------------------------

  /** A header of comment lines, none of which records a compiler. */
  ghost predicate Comments(header: seq<string>) {
    forall k | 0 <= k < |header| ::
      NoEnding(header[k]) && header[k] != "" && header[k][0] == '#' && MajorIn(Trim(header[k])).None?
  }

  lemma {:induction false} CommentsSkipped(header: seq<string>)
    requires Comments(header)
    ensures Interpret(header) == Some(Record(map[], None))
  {
    hide MeaningOf, MajorIn;
    if header != [] {
      CommentsSkipped(header[..|header| - 1]);
      HashSkipped(header[|header| - 1]);
    }
  }

  lemma TopInterpreted(header: seq<string>, major: int)
    requires Comments(header)
    ensures Interpret(header + ["#", MajorLine(major)])
            == Some(Record(map[], if major >= 0 then Some(major) else None))
  {
    hide MeaningOf, MajorLine, Comments;
    var one, two := header + ["#"], header + ["#", MajorLine(major)];
    assert one[..|header|] == header && two[..|one|] == one;
    CommentsSkipped(header);
    HashOnly();
    MajorLineMeaning(major);
  }

  lemma HashOnly()
    ensures MeaningOf("#") == Skipped
  {
    TrimKeeps("#");
    HashSkipped("#");
  }

  /** The entries of the first `n` keys of `order`. */
  ghost function FirstEntries(counts: Counts, order: seq<Key>, n: nat): Counts
    requires n <= |order|
  {
    map k | k in counts && k in order[..n] :: counts[k]
  }

  lemma {:induction false} EntriesInterpreted(header: seq<string>, counts: Counts, order: seq<Key>, major: int, n: nat)
    requires Comments(header) && Orders(order, counts) && AllClean(counts) && n <= |order|
    ensures Interpret(WrittenLines(header, counts, order, major)[..|header| + 2 + n])
            == Some(Record(FirstEntries(counts, order, n), if major >= 0 then Some(major) else None))
  {
    hide MeaningOf, MajorLine, EntryLine, Comments, Clean, Interpret;
    var all := WrittenLines(header, counts, order, major);
    var h := |header| + 2;
    if n == 0 {
      assert all[..h] == header + ["#", MajorLine(major)];
      TopInterpreted(header, major);
      assert FirstEntries(counts, order, 0) == map[];
    } else {
      EntriesInterpreted(header, counts, order, major, n - 1);
      InterpretNext(all, h + n - 1);
      var key := order[n - 1];
      assert all[h + n - 1] == EntryLine(key, counts[key]);
      EntryLineMeaning(key, counts[key]);
      assert order[..n] == order[..n - 1] + [key];
      assert FirstEntries(counts, order, n) == FirstEntries(counts, order, n - 1)[key := counts[key]];
    }
  }

  lemma NoEndingConcat(a: seq<string>, b: seq<string>)
    requires NoEndings(a) && NoEndings(b)
    ensures NoEndings(a + b)
  {
    hide NoEnding;
  }

  /** No key holds a line ending. */
  ghost predicate OneLined(counts: Counts) { forall k | k in counts :: NoEnding(k.flag) && NoEnding(k.path) }

  lemma CleanOneLined(k: Key)
    requires Clean(k)
    ensures NoEnding(k.flag) && NoEnding(k.path)
  {
    forall i | 0 <= i < |k.flag| ensures k.flag[i] != '\n' && k.flag[i] != '\r' {
      assert NotSpace(k.flag[i]);
    }
  }

  lemma EntryNoEnding(key: Key, count: nat)
    requires NoEnding(key.flag) && NoEnding(key.path)
    ensures NoEnding(EntryLine(key, count))
  {
    hide Show;
    ShownNoEnding(count);
  }

  lemma WrittenNoEnding(header: seq<string>, counts: Counts, order: seq<Key>, major: int)
    requires Comments(header) && Orders(order, counts) && OneLined(counts)
    ensures NoEndings(WrittenLines(header, counts, order, major))
  {
    hide MajorLine, EntryLine, NoEnding, MajorIn;
    var top := ["#", MajorLine(major)];
    var entries := seq(|order|, k requires 0 <= k < |order| => EntryLine(order[k], counts[order[k]]));
    ShortLine();
    MajorLineNoEnding(major);
    forall k | 0 <= k < |entries| ensures NoEnding(entries[k]) {
      EntryNoEnding(order[k], counts[order[k]]);
    }
    hide NoEndings;
    NoEndingConcat(header, top);
    NoEndingConcat(header + top, entries);
  }

  lemma ShortLine()
    ensures NoEnding("#")
  {
  }

  lemma WholeList(header: seq<string>, counts: Counts, order: seq<Key>, major: int)
    requires Orders(order, counts)
    ensures var all := WrittenLines(header, counts, order, major); all[..|header| + 2 + |order|] == all
  {
    hide MajorLine, EntryLine;
  }

  /**
   * Reading what was written gives the same counts and compiler iff every flag is free of blanks
   * and `#`, every path is trimmed, on one line and free of `#`, and the compiler is not negative.
   */
  lemma RoundTrip(header: seq<string>, counts: Counts, order: seq<Key>, major: int)
    requires Comments(header) && Orders(order, counts)
    ensures FileMeaning(Some(Unlines(WrittenLines(header, counts, order, major)))) == Some(Record(counts, Some(major)))
            <==> (AllClean(counts) && major >= 0)
  {
    hide Clean, Comments, NoEnding, Interpret, Unlines, Universal, WrittenLines, FileMeaning;
    var all := WrittenLines(header, counts, order, major);
    ReadingIsClean(Some(Unlines(all)));
    if AllClean(counts) {
      forall k | k in counts ensures NoEnding(k.flag) && NoEnding(k.path) { CleanOneLined(k); }
      WrittenNoEnding(header, counts, order, major);
      FileOfUnlines(all);
      EntriesInterpreted(header, counts, order, major, |order|);
      WholeList(header, counts, order, major);
      assert FirstEntries(counts, order, |order|) == counts;
    }
  }

  /** The file written for the compiler -1 with nothing to accept: it is read as one that names no compiler. */
  lemma NegativeCompilerForgotten()
    ensures Unlines(WrittenLines([], map[], [], -1)) == "#\n# clang-major: -1\n"
    ensures FileMeaning(Some("#\n# clang-major: -1\n")) == Some(Record(map[], None))
  {
    hide FileMeaning, Interpret, WrittenLines, MajorLine, Unlines, Comments, Orders, NoEndings;
    var lines := WrittenLines([], map[], [], -1);
    MinusOne();
    OnlyCompiler(-1);
    NoComments();
    WrittenNoEnding([], map[], [], -1);
    FileOfUnlines(lines);
    TopInterpreted([], -1);
  }

  lemma OnlyCompiler(major: int)
    ensures WrittenLines([], map[], [], major) == [] + ["#", MajorLine(major)]
    ensures Unlines(WrittenLines([], map[], [], major)) == "#\n" + MajorLine(major) + "\n"
  {
    hide MajorLine;
    HeaderText([], MajorLine(major));
  }

  lemma MinusOne()
    ensures MajorLine(-1) == "# clang-major: -1"
  {
    assert Show(1) == "1";
  }

  lemma NoComments()
    ensures Comments([]) && Orders([], map[])
  {
  }
}
