/**
 * What a warning baseline comes to when a flag or a path it records holds a `#` or a stray blank. The
 * baseline reads a `#` as the start of a comment, and a compiler log can yield one: Clang reports the
 * directive `#warning` under the flag `-W#warnings`. A flag with a `#` before any second word refuses
 * the whole file; any other stray `#` or blank in a flag or a path is read back as another key.
 */
module UncleanKeys {
  import opened Ascii
  import opened Decimal
  import opened Wrappers
  import opened Baseline

  /**
   * A key as the compiler log yields it: a flag and a path on one line, each starting with neither a
   * blank nor a `#`. Blanks and a `#` may follow, as the `#` of `-W#warnings` does.
   */
  predicate Reportable(k: Key) { Starts(k.flag) && Starts(k.path) }

  predicate Starts(s: string) { s != "" && AllIn(s, InLine) && !IsSpace(s[0]) && s[0] != '#' }

  predicate InLine(c: char) { c != '\n' && c != '\r' }

  ghost predicate AllReportable(counts: Counts) { forall k | k in counts :: Reportable(k) }

  /** The part before the first `#`. */
  function Bare(s: string): string { s[..RunLength(s, NotHash)] }

  /** A flag that holds a `#` with no second word before it. */
  predicate Hides(flag: string) { '#' in flag && AllIn(RStrip(Bare(flag)), NotSpace) }

  /** Some flag hides what follows it on its line. */
  ghost predicate HidingFlag(counts: Counts) { exists k :: k in counts && Hides(k.flag) }

  lemma CleanIsReportable(k: Key)
    requires Clean(k)
    ensures Reportable(k) && '#' !in k.flag
  {
    forall i | 0 <= i < |k.path| ensures InLine(k.path[i]) { assert Plain(k.path[i]); }
    forall i | 0 <= i < |k.flag| ensures InLine(k.flag[i]) { assert NotSpace(k.flag[i]); }
    assert NotHash(k.flag[0]) && NotSpace(k.flag[0]) && Plain(k.path[0]);
    if '#' in k.flag { HashAt(k.flag); }
  }

  lemma HashAt(s: string)
    ensures AllIn(s, NotHash) <==> '#' !in s
  {
    forall i | 0 <= i < |s| && '#' !in s ensures NotHash(s[i]) { assert s[i] in s; }
  }

  // ---- One line -----------------------------------------------------------------------------

  lemma {:induction false} RStripAppend(a: string, p: string)
    requires p != "" && !IsSpace(p[0])
    ensures RStrip(a + p) == a + RStrip(p) && RStrip(p) != "" && RStrip(p)[0] == p[0]
  {
    hide IsSpace;
    if IsSpace(p[|p| - 1]) {
      assert |p| > 1 && (a + p)[..|a + p| - 1] == a + p[..|p| - 1];
      RStripAppend(a, p[..|p| - 1]);
    }
  }

  lemma TrimAppend(a: string, p: string)
    requires a != "" && !IsSpace(a[0]) && p != "" && !IsSpace(p[0])
    ensures Trim(a + p) == a + RStrip(p) && RStrip(p) != "" && RStrip(p)[0] == p[0]
  {
    RunLengthUnique(a + p, IsSpace, 0);
    assert (a + p)[0..] == a + p;
    RStripAppend(a, p);
  }

  /** The line of an entry records no compiler. */
  lemma EntryIsNoMajor(d: string, tab: string, p: string)
    requires d != "" && AllIn(d, IsDigit) && p != "" && !IsSpace(p[0])
    ensures MajorIn(Trim(d + tab + p)).None?
  {
    hide Trim, RStrip;
    assert IsDigit(d[0]);
    TrimAppend(d + tab, p);
    NoMajorIn(Trim(d + tab + p));
  }

  lemma BareAppend(a: string, b: string)
    requires AllIn(a, NotHash)
    ensures Bare(a + b) == a + Bare(b)
  {
    RunLengthUnique(a + b, NotHash, |a| + RunLength(b, NotHash));
  }

  lemma BareHashed(a: string, b: string)
    requires '#' in a
    ensures Bare(a + b) == Bare(a)
  {
    HashAt(a);
    RunLengthUnique(a + b, NotHash, RunLength(a, NotHash));
  }

  lemma BareStart(s: string)
    requires s != "" && s[0] != '#'
    ensures Bare(s) != "" && Bare(s)[0] == s[0]
  {
    assert NotHash(s[0]);
  }

  /** What the flag and the path leave of the line, up to a `#`: one word exactly when the flag hides the rest. */
  lemma OneWordIff(flag: string, path: string)
    requires Starts(flag) && Starts(path)
    ensures AllIn(RStrip(Bare(flag + "\t" + path)), NotSpace) <==> Hides(flag)
  {
    hide Bare, RStrip;
    if '#' in flag {
      assert flag + "\t" + path == flag + ("\t" + path);
      BareHashed(flag, "\t" + path);
    } else {
      var front := flag + "\t";
      HashAt(flag);
      BareAppend(front, path);
      BareStart(path);
      RStripAppend(front, Bare(path));
      var line := front + RStrip(Bare(path));
      assert line[|flag|] == '\t' && !NotSpace(line[|flag|]);
    }
  }

  /** A count and one word are no entry, and a count and more than one word are one. */
  lemma FieldsIff(d: string, rest: string)
    requires d != "" && AllIn(d, IsDigit) && rest != "" && !IsSpace(rest[0]) && !IsSpace(rest[|rest| - 1])
    ensures Fields(d + "\t" + rest).None? <==> AllIn(rest, NotSpace)
  {
    hide IsSpace;
    DigitsNotSpace(d);
    TabIsSpace();
    CutWord(d, '\t', rest);
    assert d + "\t" + rest == d + ['\t'] + rest;
    var n := RunLength(rest, NotSpace);
    if n < |rest| {
      var tail := rest[n..];
      assert tail[|tail| - 1] == rest[|rest| - 1] && !IsSpace(tail[|tail| - 1]);
    } else {
      assert rest[n..] == "" && LStrip("") == "";
    }
  }

  lemma DigitsNotHash(d: string)
    requires d != "" && AllIn(d, IsDigit)
    ensures AllIn(d + "\t", NotHash) && (d + "\t")[0] == d[0] && !IsSpace(d[0])
  {
  }

  lemma RStripEnds(s: string)
    ensures RStrip(s) != "" ==> !IsSpace(RStrip(s)[|RStrip(s)| - 1])
  {
  }

  /** The line of an entry is malformed when the flag hides the rest of it, and an entry otherwise. */
  lemma EntryLineIff(key: Key, count: nat)
    requires Reportable(key)
    ensures var m := MeaningOf(EntryLine(key, count)); if Hides(key.flag) then m == Malformed else m.Entry?
  {
    hide Show, Trim, MajorIn, RunLength, RStrip, Bare, Fields, Hides, IsSpace;
    var d, rest := Show(count), key.flag + "\t" + key.path;
    assert EntryLine(key, count) == d + "\t" + rest && rest[0] == key.flag[0];
    EntryIsNoMajor(d, "\t", rest);
    DigitsNotHash(d);
    BareAppend(d + "\t", rest);
    UncommentedIsBare(d + "\t" + rest);
    BareStart(rest);
    TrimAppend(d + "\t", Bare(rest));
    RStripEnds(Bare(rest));
    FieldsIff(d, RStrip(Bare(rest)));
    OneWordIff(key.flag, key.path);
  }

  lemma UncommentedIsBare(raw: string)
    ensures Uncommented(raw) == Bare(raw)
  {
  }

  // ---- The file -----------------------------------------------------------------------------

  lemma ReportableOneLined(counts: Counts)
    requires AllReportable(counts)
    ensures OneLined(counts)
  {
    forall k | k in counts ensures NoEnding(k.flag) && NoEnding(k.path) {
      assert Reportable(k);
      forall i | 0 <= i < |k.flag| ensures k.flag[i] != '\n' && k.flag[i] != '\r' { assert InLine(k.flag[i]); }
      forall i | 0 <= i < |k.path| ensures k.path[i] != '\n' && k.path[i] != '\r' { assert InLine(k.path[i]); }
    }
  }

  /** Where no flag hides the rest of its line every line is an entry, so the file is read. */
  lemma {:induction false} OpenRead(header: seq<string>, counts: Counts, order: seq<Key>, major: int, n: nat)
    requires Comments(header) && Orders(order, counts) && AllReportable(counts) && !HidingFlag(counts) && n <= |order|
    ensures var r := Interpret(WrittenLines(header, counts, order, major)[..|header| + 2 + n]);
            r.Some? && r.value.major == if major >= 0 then Some(major) else None
  {
    hide MeaningOf, MajorLine, EntryLine, Comments, Reportable, Interpret, Hides;
    var all := WrittenLines(header, counts, order, major);
    var h := |header| + 2;
    if n == 0 {
      assert all[..h] == header + ["#", MajorLine(major)];
      TopInterpreted(header, major);
    } else {
      OpenRead(header, counts, order, major, n - 1);
      InterpretNext(all, h + n - 1);
      var key := order[n - 1];
      assert key in order && all[h + n - 1] == EntryLine(key, counts[key]);
      EntryLineIff(key, counts[key]);
    }
  }

  /** One flag that hides the rest of its line refuses the file. */
  lemma HidingRefused(header: seq<string>, counts: Counts, order: seq<Key>, major: int, key: Key)
    requires Orders(order, counts) && AllReportable(counts) && key in counts && Hides(key.flag)
    ensures Interpret(WrittenLines(header, counts, order, major)).None?
  {
    hide MeaningOf, MajorLine, EntryLine, Reportable, Interpret, Hides;
    var all := WrittenLines(header, counts, order, major);
    var j :| 0 <= j < |order| && order[j] == key;
    var at := |header| + 2 + j;
    assert all[at] == EntryLine(key, counts[key]);
    EntryLineIff(key, counts[key]);
    InterpretNext(all, at);
    RefusedOnce(all, at + 1);
  }

  /** A baseline that was written is read back at all exactly when no flag hides the rest of its line. */
  lemma WrittenReadableIff(header: seq<string>, counts: Counts, order: seq<Key>, major: int)
    requires Comments(header) && Orders(order, counts) && AllReportable(counts)
    ensures var r := FileMeaning(Some(Unlines(WrittenLines(header, counts, order, major))));
            (r.None? <==> HidingFlag(counts))
            && (r.Some? ==> r.value.major == (if major >= 0 then Some(major) else None) && AllClean(r.value.counts))
  {
    hide AllReportable, Unlines, Interpret, WrittenLines, Clean, Comments, FileMeaning, NoEndings, Hides;
    var all := WrittenLines(header, counts, order, major);
    ReportableOneLined(counts);
    WrittenNoEnding(header, counts, order, major);
    FileOfUnlines(all);
    ReadingIsClean(Some(Unlines(all)));
    if HidingFlag(counts) {
      var key :| key in counts && Hides(key.flag);
      HidingRefused(header, counts, order, major, key);
    } else {
      OpenRead(header, counts, order, major, |order|);
      WholeList(header, counts, order, major);
    }
  }

  /** Clean keys are keys a log can yield, and hide nothing. */
  lemma CleanHidesNothing(counts: Counts)
    requires AllClean(counts)
    ensures AllReportable(counts) && !HidingFlag(counts)
  {
    forall k | k in counts ensures Reportable(k) && '#' !in k.flag { CleanIsReportable(k); }
  }
}
