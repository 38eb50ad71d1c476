/** What a line of a warning baseline says, by its spelling. */
module BaselineTexts {
  import opened Ascii
  import opened Wrappers
  import opened Decimal
  import opened Baseline

  predicate Gap(s: string) { AllIn(s, IsSpace) }

  /** Neither end is whitespace, or nothing is there. */
  predicate Tight(s: string) { s == "" || (!IsSpace(s[0]) && !IsSpace(s[|s| - 1])) }

  // ---- Stripping ------------------------------------------------------------------------------

  lemma LStripGap(gap: string, rest: string)
    requires Gap(gap) && (rest == "" || !IsSpace(rest[0]))
    ensures LStrip(gap + rest) == rest
  {
    RunLengthUnique(gap + rest, IsSpace, |gap|);
    assert (gap + rest)[|gap|..] == rest;
  }

  lemma LStripSplits(s: string)
    ensures exists gap :: Gap(gap) && s == gap + LStrip(s)
  {
    var gap := s[..RunLength(s, IsSpace)];
    assert Gap(gap) && s == gap + LStrip(s);
  }

  lemma {:induction false} RStripGap(s: string, gap: string)
    requires Gap(gap) && Tight(s)
    ensures RStrip(s + gap) == s
  {
    if gap == "" {
      assert s + gap == s;
    } else {
      var front := gap[..|gap| - 1];
      assert (s + gap)[..|s + gap| - 1] == s + front;
      RStripGap(s, front);
    }
  }

  lemma {:induction false} RStripSplits(s: string)
    ensures exists gap :: Gap(gap) && s == RStrip(s) + gap
  {
    if s == "" || !IsSpace(s[|s| - 1]) {
      assert Gap("") && s == RStrip(s) + "";
    } else {
      var front := s[..|s| - 1];
      RStripSplits(front);
      var gap :| Gap(gap) && front == RStrip(front) + gap;
      assert s == RStrip(s) + (gap + [s[|s| - 1]]);
      assert Gap(gap + [s[|s| - 1]]);
    }
  }

  /** Stripping takes exactly the whitespace around. */
  lemma TrimIff(s: string, t: string)
    ensures Trim(s) == t <==> Tight(t) && exists before, after :: Gap(before) && Gap(after) && s == before + (t + after)
  {
    hide LStrip, RStrip, IsSpace;
    if Tight(t) && exists before, after :: Gap(before) && Gap(after) && s == before + (t + after) {
      var before, after :| Gap(before) && Gap(after) && s == before + (t + after);
      TrimGaps(before, t, after);
    }
    if Trim(s) == t {
      LStripSplits(s);
      var before :| Gap(before) && s == before + LStrip(s);
      RStripSplits(LStrip(s));
      var after :| Gap(after) && LStrip(s) == t + after;
      assert s == before + (t + after);
      TrimIsPart(s);
    }
  }

  lemma TrimGaps(before: string, t: string, after: string)
    requires Gap(before) && Gap(after) && Tight(t)
    ensures Trim(before + (t + after)) == t
  {
    var s := before + (t + after);
    if t == "" {
      assert s == "" + (before + after) && Gap(before + after);
      RunLengthUnique(s, IsSpace, |s|);
      assert LStrip(s) == "";
    } else {
      LStripGap(before, t + after);
      RStripGap(t, after);
    }
  }

  // ---- Entries --------------------------------------------------------------------------------

  predicate Word(s: string) { s != "" && AllIn(s, NotSpace) }

  /** A count, a flag and a path with whitespace between them. */
  predicate Triple(line: string, count: string, b: string, flag: string, c: string, path: string) {
    line == count + (b + (flag + (c + path))) && count != "" && AllIn(count, IsDigit) && b != "" && Gap(b)
    && Word(flag) && c != "" && Gap(c) && path != "" && Tight(path)
  }

  lemma CutIs(word: string, gap: string, rest: string)
    requires AllIn(word, NotSpace) && Gap(gap) && (rest == "" || (gap != "" && !IsSpace(rest[0])))
    ensures Cut(word + (gap + rest)) == (word, rest)
  {
    var line := word + (gap + rest);
    LStripGap(gap, rest);
    RunLengthUnique(line, NotSpace, |word|);
    assert line[..|word|] == word && line[|word|..] == gap + rest;
  }

  lemma CutSplits(line: string)
    ensures var (word, rest) := Cut(line);
            AllIn(word, NotSpace)
            && (exists gap ::
                  Gap(gap) && line == word + (gap + rest) && (rest != "" ==> gap != "" && !IsSpace(rest[0])))
  {
    var (word, rest) := Cut(line);
    var tail := line[|word|..];
    LStripSplits(tail);
    var gap :| Gap(gap) && tail == gap + rest;
    assert line == word + tail;
    assert rest != "" ==> tail[0] == line[|word|] && tail[0] == (gap + rest)[0];
  }

  lemma DigitsAreWord(s: string)
    requires AllIn(s, IsDigit)
    ensures AllIn(s, NotSpace)
  {
  }

  lemma TripleRead(line: string, count: string, b: string, flag: string, c: string, path: string)
    requires Triple(line, count, b, flag, c, path)
    ensures Fields(line) == Some((Key(path, flag), Read(count)))
  {
    hide Cut, Read, IsSpace;
    DigitsAreWord(count);
    WordStarts(flag, c + path);
    CutIs(count, b, flag + (c + path));
    CutIs(flag, c, path);
  }

  lemma WordStarts(flag: string, rest: string)
    requires Word(flag)
    ensures flag + rest != "" && !IsSpace((flag + rest)[0])
  {
  }

  lemma TripleFound(line: string)
    requires Fields(line).Some? && Tight(line) && line != ""
    ensures exists count, b, flag, c, path ::
              Triple(line, count, b, flag, c, path) && Fields(line) == Some((Key(path, flag), Read(count)))
  {
    hide Cut, Read, IsSpace, IsDigit;
    CutSplits(line);
    var (count, tail) := Cut(line);
    var b :| Gap(b) && line == count + (b + tail) && (tail != "" ==> b != "" && !IsSpace(tail[0]));
    CutSplits(tail);
    var (flag, path) := Cut(tail);
    var c :| Gap(c) && tail == flag + (c + path) && (path != "" ==> c != "" && !IsSpace(path[0]));
    assert path[|path| - 1] == line[|line| - 1];
    WordBefore(flag, c, path);
    assert tail == flag + (c + path) && b != "";
    WordBefore(count, b, tail);
    assert Triple(line, count, b, flag, c, path);
  }

  /** A text that begins with no whitespace begins with its word. */
  lemma WordBefore(word: string, gap: string, rest: string)
    requires gap != "" && Gap(gap) && !IsSpace((word + (gap + rest))[0]) && AllIn(word, NotSpace)
    ensures Word(word)
  {
    HeadOf(word, gap, rest);
  }

  lemma HeadOf(word: string, gap: string, rest: string)
    requires gap != ""
    ensures (word + (gap + rest))[0] == if word == "" then gap[0] else word[0]
  {
  }

  // ---- Lines ----------------------------------------------------------------------------------

  /** A line up to its comment. */
  predicate Commented(raw: string, bare: string, tail: string) {
    raw == bare + tail && AllIn(bare, NotHash) && (tail == "" || tail[0] == '#')
  }

  lemma CommentedIff(raw: string, bare: string)
    ensures Uncommented(raw) == bare <==> bare <= raw && Commented(raw, bare, raw[|bare|..])
  {
    if bare <= raw && Commented(raw, bare, raw[|bare|..]) { RunLengthUnique(raw, NotHash, |bare|); }
    if Uncommented(raw) == bare { assert raw == bare + raw[|bare|..]; }
  }

  /** The compiler's line. */
  predicate MajorParts(raw: string, a: string, b: string, c: string, number: string, d: string) {
    raw == a + (("#" + (b + ("clang-major:" + (c + number)))) + d) && Gap(a) && Gap(b) && Gap(c) && Gap(d)
    && number != "" && AllIn(number, IsDigit)
  }

  lemma MajorRead(b: string, c: string, number: string)
    requires Gap(b) && Gap(c) && number != "" && AllIn(number, IsDigit)
    ensures var t := "#" + (b + ("clang-major:" + (c + number)));
            Tight(t) && MajorIn(t) == Some(Read(number))
  {
    hide Read, LStrip;
    var x := c + number;
    var y := "clang-major:" + x;
    var t := "#" + (b + y);
    LStripGap(b, y);
    assert t[1..] == b + y && y[|LABEL|..] == x && LABEL <= y;
    DigitsAreWord(number);
    LStripGap(c, number);
    RunLengthUnique(number, IsDigit, |number|);
    assert number[..|number|] == number && number[|number|..] == "";
    assert t[|t| - 1] == number[|number| - 1];
  }

  lemma MajorFound(t: string)
    requires MajorIn(t).Some? && Tight(t)
    ensures exists b, c, number ::
              Gap(b) && Gap(c) && number != "" && AllIn(number, IsDigit) && MajorIn(t) == Some(Read(number))
              && t == "#" + (b + ("clang-major:" + (c + number)))
  {
    hide Read, LStrip, IsSpace, IsDigit;
    var y := LStrip(t[1..]);
    LStripSplits(t[1..]);
    var b :| Gap(b) && t[1..] == b + y;
    var x := y[|LABEL|..];
    LStripSplits(x);
    var rest := LStrip(x);
    var c :| Gap(c) && x == c + rest;
    var n := RunLength(rest, IsDigit);
    NothingBehind(t, rest, n);
    var number := rest[..n];
    assert number == rest && y == "clang-major:" + x && t == "#" + (b + y);
  }

  lemma NothingBehind(t: string, rest: string, n: nat)
    requires Tight(t) && n <= |rest| <= |t| && t != "" && t[|t| - |rest|..] == rest && BlankLine(rest[n..])
    ensures n == |rest|
  {
    LastOf(rest, n);
    LastOf(t, |t| - |rest|);
  }

  lemma LastOf(s: string, n: nat)
    requires n <= |s|
    ensures n < |s| ==> s[n..] != "" && s[n..][|s[n..]| - 1] == s[|s| - 1]
  {
  }

  /** A line records the compiler iff it is a `#`, the label and a number with any whitespace between and around. */
  lemma MajorIff(raw: string, value: nat)
    ensures MeaningOf(raw) == Major(value)
            <==> exists a, b, c, number, d :: MajorParts(raw, a, b, c, number, d) && value == Read(number)
  {
    hide Read, MajorIn, Trim, Fields, Uncommented;
    if a, b, c, number, d :| MajorParts(raw, a, b, c, number, d) && value == Read(number) {
      MajorRead(b, c, number);
      TrimIff(raw, "#" + (b + ("clang-major:" + (c + number))));
    }
    if MeaningOf(raw) == Major(value) {
      var t := Trim(raw);
      TrimIff(raw, t);
      var a, d :| Gap(a) && Gap(d) && raw == a + (t + d);
      MajorFound(t);
      var b, c, number :| Gap(b) && Gap(c) && number != "" && AllIn(number, IsDigit)
                          && MajorIn(t) == Some(Read(number)) && t == "#" + (b + ("clang-major:" + (c + number)));
      assert MajorParts(raw, a, b, c, number, d);
    }
  }

  /** An entry's line: a count, a flag and a path, whitespace around them and a comment behind. */
  predicate EntryParts(raw: string, a: string, line: string, d: string, tail: string) {
    Commented(raw, a + (line + d), tail) && Gap(a) && Gap(d)
  }

  /** What begins with a digit, whitespace aside, records no compiler. */
  lemma DigitNoMajor(raw: string, a: string, rest: string)
    requires raw == a + rest && Gap(a) && rest != "" && rest[0] != '#' && !IsSpace(rest[0])
    ensures MajorIn(Trim(raw)).None?
  {
    LStripGap(a, rest);
    if Trim(raw) != "" { assert Trim(raw)[0] == rest[0]; }
  }

  lemma EntryRead(raw: string, a: string, line: string, d: string, tail: string, count: string, b: string,
                  flag: string, c: string, path: string)
    requires EntryParts(raw, a, line, d, tail) && Triple(line, count, b, flag, c, path)
    ensures MeaningOf(raw) == Entry(Key(path, flag), Read(count))
  {
    hide MajorIn, Trim, Fields, Uncommented, Read, IsSpace;
    var bare := a + (line + d);
    assert raw[..|bare|] == bare && raw[|bare|..] == tail;
    CommentedIff(raw, bare);
    TripleEnds(line, count, b, flag, c, path);
    TrimIff(bare, line);
    TripleRead(line, count, b, flag, c, path);
    assert raw == a + (line + d + tail) && (line + d + tail)[0] == line[0];
    DigitNoMajor(raw, a, line + d + tail);
  }

  lemma TripleEnds(line: string, count: string, b: string, flag: string, c: string, path: string)
    requires Triple(line, count, b, flag, c, path)
    ensures Tight(line) && line != "" && line[0] != '#' && !IsSpace(line[0])
  {
    assert IsDigit(count[0]) && line[0] == count[0] && line[|line| - 1] == path[|path| - 1];
  }

  /**
   * A line is an entry iff, up to the comment and the whitespace around, it is a number, a flag without
   * whitespace and a path, whitespace between them.
   */
  lemma EntryIff(raw: string, key: Key, count: nat)
    ensures MeaningOf(raw) == Entry(key, count)
            <==> exists a, line, d, tail, n, b, c ::
                   EntryParts(raw, a, line, d, tail) && Triple(line, n, b, key.flag, c, key.path) && count == Read(n)
  {
    hide MajorIn, Trim, Fields, Uncommented, Read, IsSpace, EntryParts;
    if a, line, d, tail, n, b, c :|
       EntryParts(raw, a, line, d, tail) && Triple(line, n, b, key.flag, c, key.path) && count == Read(n) {
      EntryRead(raw, a, line, d, tail, n, b, key.flag, c, key.path);
    }
    if MeaningOf(raw) == Entry(key, count) { EntryFound(raw, key, count); }
  }

  lemma EntryFound(raw: string, key: Key, count: nat)
    requires MeaningOf(raw) == Entry(key, count)
    ensures exists a, line, d, tail, n, b, c ::
              EntryParts(raw, a, line, d, tail) && Triple(line, n, b, key.flag, c, key.path) && count == Read(n)
  {
    hide MajorIn, Trim, Fields, Uncommented, Read, IsSpace;
    var bare := Uncommented(raw);
    CommentedIff(raw, bare);
    var tail := raw[|bare|..];
    var line := Trim(bare);
    TrimIff(bare, line);
    var a, d :| Gap(a) && Gap(d) && bare == a + (line + d);
    TripleFound(line);
    var n, b, flag, c, path :|
      Triple(line, n, b, flag, c, path) && Fields(line) == Some((Key(path, flag), Read(n)));
    assert EntryParts(raw, a, line, d, tail);
  }

  /** A line without the compiler says nothing iff only whitespace stands before its comment. */
  lemma SkippedIff(raw: string)
    ensures MeaningOf(raw) == Skipped
            <==> !MeaningOf(raw).Major? && exists bare, tail :: Commented(raw, bare, tail) && Gap(bare)
  {
    hide MajorIn, Trim, Fields, Uncommented, IsSpace;
    var bare := Uncommented(raw);
    CommentedIff(raw, bare);
    TrimIff(bare, "");
    if Gap(bare) { assert bare == bare + ("" + ""); }
    if x, tail :| Commented(raw, x, tail) && Gap(x) {
      assert raw[..|x|] == x && raw[|x|..] == tail;
      CommentedIff(raw, x);
    }
    if Trim(bare) == "" {
      var a, d :| Gap(a) && Gap(d) && bare == a + ("" + d);
      assert Gap(bare) && Commented(raw, bare, raw[|bare|..]);
    }
  }
}
