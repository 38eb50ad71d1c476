/** Link reference definitions and the texts that name a release, by their spelling. */
module ReferenceTexts {
  import opened Ascii
  import opened Wrappers
  import opened Frames
  import opened Versions
  import opened Headings
  import opened HeadingTexts

  // ---- Link reference definitions -------------------------------------------------------------

  /** A title between its delimiters, and what surrounds it. */
  predicate TitleParts(tail: string, before: string, open: char, title: string, close: char, after: string) {
    tail == before + ([open] + (title + ([close] + after))) && before != "" && Blanks(before)
    && Delimiters(open, close) && close !in title && BlankOrReturns(after)
  }

  lemma {:induction false} IndexOfFirst(s: string, c: char, n: nat)
    requires n <= |s| && (n < |s| ==> s[n] == c) && forall k | 0 <= k < n :: s[k] != c
    ensures IndexOf(s, c) == n
  {
    if n > 0 { IndexOfFirst(s[1..], c, n - 1); }
  }

  lemma {:induction false} IndexOfSplit(s: string, c: char)
    ensures var n := IndexOf(s, c); c !in s[..n] && (n < |s| ==> s[n] == c)
  {
    if s != "" && s[0] != c {
      IndexOfSplit(s[1..], c);
      var n := IndexOf(s[1..], c);
      assert s[..n + 1] == [s[0]] + s[1..][..n];
    }
  }

  /** What may follow a destination: blanks, or blanks, a title and blanks. */
  lemma LinkTailIff(tail: string)
    ensures IsLinkTail(tail)
            <==> BlankOrReturns(tail)
                 || exists before, open, title, close, after :: TitleParts(tail, before, open, title, close, after)
  {
    hide IsLinkTail, TitleParts;
    BlanksAreTail(tail);
    if before, open, title, close, after :| TitleParts(tail, before, open, title, close, after) {
      TitleRead(tail, before, open, title, close, after);
    }
    if IsLinkTail(tail) && !BlankOrReturns(tail) {
      var before, open, title, close, after := TitleFound(tail);
    }
  }

  lemma BlanksAreTail(tail: string)
    ensures BlankOrReturns(tail) ==> IsLinkTail(tail)
  {
    BlankOrReturnAll(tail);
  }

  lemma TitleFound(tail: string) returns (before: string, open: char, title: string, close: char, after: string)
    requires IsLinkTail(tail) && !BlankOrReturns(tail)
    ensures TitleParts(tail, before, open, title, close, after)
  {
    hide BlankOrReturn, IsBlank, AllIn, RunLength, BlankOrReturns, IndexOf, TitleParts;
    BlankOrReturnAll(tail);
    var n := RunLength(tail, IsBlank);
    var t := tail[n..];
    before, open := tail[..n], t[0];
    close := if open == '(' then ')' else open;
    var end := IndexOf(t[1..], close);
    title, after := t[1..][..end], t[end + 2..];
    IndexOfSplit(t[1..], close);
    BlankOrReturnAll(after);
    BlanksAhead(tail);
    TitleCut(tail, n, end);
    hide *;
    TitleDelimiters(open);
    IsTitle(tail, before, open, title, close, after);
  }

  /** What closes a title, by what opens it. */
  predicate Delimiters(open: char, close: char) { (open, close) in {('"', '"'), ('\'', '\''), ('(', ')')} }

  lemma TitleDelimiters(open: char)
    requires open in "\"'("
    ensures Delimiters(open, if open == '(' then ')' else open)
  {
  }

  lemma IsTitle(tail: string, before: string, open: char, title: string, close: char, after: string)
    requires tail == before + ([open] + (title + ([close] + after))) && before != "" && Blanks(before)
    requires Delimiters(open, close) && close !in title && BlankOrReturns(after)
    ensures TitleParts(tail, before, open, title, close, after)
  {
  }

  lemma BlanksAhead(s: string)
    ensures Blanks(s[..RunLength(s, IsBlank)])
  {
  }

  /** A text cut at a title's delimiters. */
  lemma TitleCut(tail: string, n: nat, end: nat)
    requires n < |tail| && end + 2 <= |tail| - n
    ensures var t := tail[n..];
            |t| == |tail| - n && tail == tail[..n] + ([t[0]] + (t[1..][..end] + ([t[1..][end]] + t[end + 2..])))
  {
    var t := tail[n..];
    assert t[1..] == t[1..][..end] + ([t[1..][end]] + t[end + 2..]);
    assert t == [t[0]] + t[1..];
  }

  lemma BlankOrReturnAll(s: string)
    ensures AllIn(s, BlankOrReturn) <==> BlankOrReturns(s)
  {
    if BlankOrReturns(s) { assert forall k | 0 <= k < |s| :: BlankOrReturn(s[k]); }
    if AllIn(s, BlankOrReturn) {
      forall k | 0 <= k < |s| ensures IsBlank(s[k]) || s[k] == '\r' { assert BlankOrReturn(s[k]); }
    }
  }

  lemma TitleRead(tail: string, before: string, open: char, title: string, close: char, after: string)
    requires TitleParts(tail, before, open, title, close, after)
    ensures IsLinkTail(tail)
  {
    var t := [open] + (title + ([close] + after));
    DropLeadingBlanks(before, t);
    assert t[1..] == title + ([close] + after);
    IndexOfFirst(t[1..], close, |title|);
    assert t[|title| + 2..] == after;
    BlankOrReturnAll(after);
  }

  /** The front of a definition: the label in brackets, and a colon. */
  function Labelled(indent: nat, name: string, rest: string): string {
    Spaces(indent) + ("[" + (name + ("]:" + rest)))
  }

  predicate LabelText(name: string) { name != "" && ']' !in name }

  predicate Word(s: string) { s != "" && forall k | 0 <= k < |s| :: !IsSpace(s[k]) }

  lemma LabelRead(indent: nat, name: string, rest: string)
    requires LabelText(name)
    ensures var line := Labelled(indent, name, rest); var body := line[LeadingSpaces(line)..];
            LeadingSpaces(line) == indent && body != "" && body[0] == '[' && IndexOf(body[1..], ']') == |name|
            && |body| > |name| + 2 && body[|name| + 2] == ':' && body[1..|name| + 1] == name
            && body[|name| + 3..] == rest
  {
    hide Spaces, LeadingSpaces;
    var after := name + ("]:" + rest);
    SpacesThen(indent, "[" + after);
    assert ("[" + after)[1..] == after;
    IndexOfFirst(after, ']', |name|);
    assert after[|name| + 1] == ("]:" + rest)[1];
    assert ("[" + after)[|name| + 3..] == rest;
  }

  /**
   * A definition: its label in brackets with a colon, blanks, a destination without whitespace and a tail;
   * at most three columns in. The label is the name, the destination is what it leads to.
   */
  lemma DefinitionRead(indent: nat, name: string, gap: string, dest: string, tail: string)
    requires LabelText(name) && Blanks(gap) && Word(dest) && dest[0] != '<' && IsLinkTail(tail)
    ensures LinkDefinition(Labelled(indent, name, gap + (dest + tail)))
            == if indent <= 3 then Some((JoinWords(name), dest)) else None
  {
    hide JoinWords, LeadingSpaces, Labelled, IsLinkTail;
    var rest := dest + tail;
    LabelRead(indent, name, gap + rest);
    assert !IsBlank(dest[0]);
    DropLeadingBlanks(gap, rest);
    TailStarts(tail);
    RunLengthUnique(rest, NotSpace, |dest|);
    DestinationRead(rest, |dest|);
    assert rest[|dest|..] == tail && rest[..|dest|] == dest;
  }

  lemma TailStarts(tail: string)
    requires IsLinkTail(tail)
    ensures tail != "" ==> IsSpace(tail[0])
  {
    if tail != "" {
      var n := RunLength(tail, IsBlank);
      if n == 0 { BlankOrReturnAll(tail); }
    }
  }

  lemma DestinationRead(rest: string, n: nat)
    requires rest != "" && rest[0] != '<' && RunLength(rest, NotSpace) == n
    ensures n > 0 || IsSpace(rest[0])
  {
  }

  /** The brackets around a destination are dropped; it may then hold blanks. */
  lemma AngledDefinitionRead(indent: nat, name: string, gap: string, dest: string, tail: string)
    requires LabelText(name) && Blanks(gap) && '>' !in dest && IsLinkTail(tail)
    ensures LinkDefinition(Labelled(indent, name, gap + ("<" + (dest + (">" + tail)))))
            == if indent <= 3 then Some((JoinWords(name), dest)) else None
  {
    hide JoinWords, LeadingSpaces, Labelled, IsLinkTail, IndexOf, RunLength;
    var rest := "<" + (dest + (">" + tail));
    LabelRead(indent, name, gap + rest);
    DropLeadingBlanks(gap, rest);
    AngleRead(dest, tail);
  }

  lemma AngleRead(dest: string, tail: string)
    requires '>' !in dest
    ensures var rest := "<" + (dest + (">" + tail)); var n := IndexOf(rest, '>');
            rest[0] == '<' && n < |rest| && rest[n + 1..] == tail && rest[1..n] == dest
  {
    var rest := "<" + (dest + (">" + tail));
    forall k | 0 <= k < |dest| + 1 ensures rest[k] != '>' {
      if k > 0 { assert rest[k] == dest[k - 1]; }
    }
    IndexOfFirst(rest, '>', |dest| + 1);
  }

  lemma JoinWordsOnce(s: string)
    ensures var t := LStrip(s); var n := RunLength(t, NotSpace);
            JoinWords(s) == if n == 0 then ""
                            else if JoinWords(t[n..]) == "" then t[..n] else t[..n] + " " + JoinWords(t[n..])
  {
  }

  /** Words are joined by one space. */
  lemma JoinWordsStep(gap: string, word: string, rest: string)
    requires (forall k | 0 <= k < |gap| :: IsSpace(gap[k])) && Word(word) && (rest == "" || IsSpace(rest[0]))
    ensures JoinWords(gap + (word + rest)) == if JoinWords(rest) == "" then word else word + " " + JoinWords(rest)
  {
    hide RunLength, IsSpace, JoinWords, LStrip;
    WordsCut(gap, word, rest);
    JoinWordsOnce(gap + (word + rest));
  }

  lemma WordsCut(gap: string, word: string, rest: string)
    requires (forall k | 0 <= k < |gap| :: IsSpace(gap[k])) && Word(word) && (rest == "" || IsSpace(rest[0]))
    ensures LStrip(gap + (word + rest)) == word + rest
    ensures var n := RunLength(word + rest, NotSpace);
            n == |word| && (word + rest)[n..] == rest && (word + rest)[..n] == word
  {
    hide IsSpace;
    RunLengthUnique(gap + (word + rest), IsSpace, |gap|);
    RunLengthUnique(word + rest, NotSpace, |word|);
  }

  lemma JoinNoWords(gap: string)
    requires forall k | 0 <= k < |gap| :: IsSpace(gap[k])
    ensures JoinWords(gap) == ""
  {
    RunLengthUnique(gap, IsSpace, |gap|);
    assert gap[|gap|..] == "";
  }

  // ---- Texts that name a release --------------------------------------------------------------

  /** Three runs of digits with dots between them. */
  predicate Dotted(s: string, a: string, b: string, c: string) {
    s == a + ("." + (b + ("." + c))) && a != "" && b != "" && c != ""
    && AllIn(a, IsDigit) && AllIn(b, IsDigit) && AllIn(c, IsDigit)
  }

  lemma DottedEnd(a: string, b: string, c: string, rest: string)
    requires Dotted(a + ("." + (b + ("." + c))), a, b, c) && (rest != "" ==> !IsDigit(rest[0]))
    ensures var s := a + ("." + (b + ("." + (c + rest))));
            TripleEnd(s) == if rest != "" && IsWordOrDot(rest[0]) then None else Some(|s| - |rest|)
  {
    hide IsWordOrDot, IsDigit, AllIn, RunLength;
    var s2 := "." + (c + rest);
    var s1 := "." + (b + s2);
    var s := a + s1;
    DotIsNoDigit();
    DigitsBefore(a, s1);
    DigitsBefore(b, s2);
    DigitsBefore(c, rest);
    assert s[|a| + 1..] == b + s2;
    assert s[|a| + 1 + |b|] == (b + s2)[|b|] == '.';
    assert s[|a| + 1 + |b| + 1..] == c + rest;
    assert rest != "" ==> s[|s| - |rest|] == rest[0];
  }

  lemma DotIsNoDigit()
    ensures !IsDigit('.')
  {
  }

  lemma DigitsBefore(digits: string, rest: string)
    requires AllIn(digits, IsDigit) && (rest != "" ==> !IsDigit(rest[0]))
    ensures RunLength(digits + rest, IsDigit) == |digits|
  {
    RunLengthUnique(digits + rest, IsDigit, |digits|);
  }

  lemma DottedOf(s: string)
    requires TripleEnd(s) == Some(|s|)
    ensures exists a, b, c :: Dotted(s, a, b, c)
  {
    hide IsDigit, AllIn, RunLength;
    var a := RunLength(s, IsDigit);
    var b := RunLength(s[a + 1..], IsDigit);
    var at := a + 1 + b;
    var c := RunLength(s[at + 1..], IsDigit);
    DigitsAhead(s);
    DigitsAhead(s[a + 1..]);
    DigitsAhead(s[at + 1..]);
    DotsCut(s, a, b);
    assert s[at + 1..][..c] == s[at + 1..];
    assert Dotted(s, s[..a], s[a + 1..at], s[at + 1..]);
  }

  lemma DigitsAhead(s: string)
    ensures AllIn(s[..RunLength(s, IsDigit)], IsDigit)
  {
  }

  lemma DotsCut(s: string, a: nat, b: nat)
    requires a + 1 + b < |s| && s[a] == '.' && s[a + 1 + b] == '.'
    ensures s == s[..a] + ("." + (s[a + 1..a + 1 + b] + ("." + s[a + 1 + b + 1..])))
    ensures s[a + 1..][..b] == s[a + 1..a + 1 + b]
  {
    var at := a + 1 + b;
    assert s[at..] == "." + s[at + 1..];
    assert s[a + 1..] == s[a + 1..at] + s[at..];
    assert s[a..] == "." + s[a + 1..] && s == s[..a] + s[a..];
  }

  /** A version stands at the front of `s`, perhaps behind a `v`, and no word goes on from it. */
  predicate SemverHere(s: string, v: string, a: string, b: string, c: string, rest: string) {
    v in ["", "v"] && Dotted(a + ("." + (b + ("." + c))), a, b, c)
    && s == v + (a + ("." + (b + ("." + (c + rest)))))
    && (rest != "" ==> !IsWordOrDot(rest[0]))
  }

  lemma SemverIff(s: string, key: string)
    ensures SemverAt(s) == Some(key)
            <==> exists v, a, b, c, rest ::
                   SemverHere(s, v, a, b, c, rest) && key == a + ("." + (b + ("." + c)))
  {
    hide SemverAt, SemverHere;
    if v, a, b, c, rest :| SemverHere(s, v, a, b, c, rest) && key == a + ("." + (b + ("." + c))) {
      SemverRead(s, v, a, b, c, rest);
    }
    if SemverAt(s) == Some(key) { var v, a, b, c, rest := SemverFound(s, key); }
  }

  lemma SemverFound(s: string, key: string) returns (v: string, a: string, b: string, c: string, rest: string)
    requires SemverAt(s) == Some(key)
    ensures SemverHere(s, v, a, b, c, rest) && key == a + ("." + (b + ("." + c)))
  {
    hide IsWordOrDot, TripleEnd;
    v := if s != [] && s[0] == 'v' then "v" else "";
    var t := if s != [] && s[0] == 'v' then s[1..] else s;
    rest := t[|key|..];
    DottedPrefix(t, |key|);
    a, b, c :| Dotted(t[..|key|], a, b, c);
    assert t == key + rest && s == v + t;
    Regroup(a, b, c, rest);
  }

  lemma Regroup(a: string, b: string, c: string, rest: string)
    ensures a + ("." + (b + ("." + c))) + rest == a + ("." + (b + ("." + (c + rest))))
  {
  }

  lemma SemverRead(s: string, v: string, a: string, b: string, c: string, rest: string)
    requires SemverHere(s, v, a, b, c, rest)
    ensures SemverAt(s) == Some(a + ("." + (b + ("." + c))))
  {
    hide IsWordOrDot, TripleEnd;
    var t := a + ("." + (b + ("." + (c + rest))));
    WordCharacters();
    DottedEnd(a, b, c, rest);
    assert IsDigit(a[0]) && t[0] == a[0];
    if v == "" { assert s == t; } else { assert s[1..] == t && s[0] == 'v'; }
    Regroup(a, b, c, rest);
    assert t[..|t| - |rest|] == a + ("." + (b + ("." + c)));
  }

  lemma WordCharacters()
    ensures forall c | IsDigit(c) :: IsWordOrDot(c)
  {
  }

  /** The three runs that `TripleEnd` reads. */
  lemma TripleRuns(t: string, end: nat) returns (n: nat, m: nat, l: nat)
    requires TripleEnd(t) == Some(end)
    ensures end == n + m + l + 2 <= |t| && n > 0 && m > 0 && l > 0
    ensures t[n] == '.' && t[n + 1 + m] == '.'
    ensures AllIn(t[..n], IsDigit) && AllIn(t[n + 1..][..m], IsDigit) && AllIn(t[n + m + 2..][..l], IsDigit)
    ensures end < |t| ==> !IsWordOrDot(t[end])
  {
    hide IsWordOrDot, IsDigit;
    n := RunLength(t, IsDigit);
    m := RunLength(t[n + 1..], IsDigit);
    l := RunLength(t[n + m + 2..], IsDigit);
  }

  /** The runs and the dots make up the front of the text. */
  lemma RunsJoined(t: string, n: nat, m: nat, l: nat)
    requires n + m + l + 2 <= |t| && t[n] == '.' && t[n + 1 + m] == '.'
    ensures t[..n + m + l + 2] == t[..n] + ("." + (t[n + 1..][..m] + ("." + t[n + m + 2..][..l])))
  {
    var a, b, c := t[..n], t[n + 1..][..m], t[n + m + 2..][..l];
    var whole := a + ("." + (b + ("." + c)));
    forall k | 0 <= k < |whole| ensures whole[k] == t[k] {}
  }

  lemma DottedPrefix(t: string, end: nat)
    requires TripleEnd(t) == Some(end)
    ensures exists a, b, c :: Dotted(t[..end], a, b, c)
    ensures end < |t| ==> !IsWordOrDot(t[end])
  {
    hide IsWordOrDot, TripleEnd, AllIn;
    var n, m, l := TripleRuns(t, end);
    RunsJoined(t, n, m, l);
    assert Dotted(t[..end], t[..n], t[n + 1..][..m], t[n + m + 2..][..l]);
  }

  /** The first place where a version starts that no word character or dot leads into. */
  lemma {:induction false} FindSemverIff(s: string, i: nat, key: string)
    requires i <= |s|
    ensures FindSemver(s, i) == Some(key)
            <==> exists k: nat :: i <= k < |s| && StartsVersion(s, k) && SemverAt(s[k..]) == Some(key)
                                  && forall j | i <= j < k :: !StartsVersion(s, j)
    decreases |s| - i
  {
    hide SemverAt;
    if i < |s| {
      FindSemverIff(s, i + 1, key);
      if StartsVersion(s, i) {
        assert FindSemver(s, i) == SemverAt(s[i..]);
      } else {
        assert FindSemver(s, i) == FindSemver(s, i + 1);
        if k: nat :| i + 1 <= k < |s| && StartsVersion(s, k) && SemverAt(s[k..]) == Some(key)
                     && forall j | i + 1 <= j < k :: !StartsVersion(s, j) {
          assert forall j | i <= j < k :: !StartsVersion(s, j);
        }
      }
    }
  }

  predicate StartsVersion(s: string, k: int)
    requires 0 <= k < |s|
  {
    (k == 0 || !(IsAlnum(s[k - 1]) || s[k - 1] in "_.")) && SemverAt(s[k..]).Some?
  }

  /** The same letters in either case. */
  lemma SameLettersIff(s: string, t: string)
    ensures EqualsIgnoringCase(s, t)
            <==> |s| == |t| && forall k | 0 <= k < |s| ::
                   s[k] == t[k] || ('A' <= s[k] <= 'Z' && t[k] as int == s[k] as int + 32)
                   || ('A' <= t[k] <= 'Z' && s[k] as int == t[k] as int + 32)
  {
  }

  /** "unreleased" in any case, behind an optional bracket and whitespace, before whitespace and a bracket. */
  predicate UnreleasedParts(text: string, open: string, before: string, word: string, after: string, close: string) {
    text == open + (before + (word + (after + close))) && open in ["", "["] && close in ["", "]"]
    && AllIn(before, IsSpace) && AllIn(after, IsSpace) && EqualsIgnoringCase(word, "unreleased")
  }

  lemma LStripParts(s: string, before: string, rest: string)
    requires s == before + rest && AllIn(before, IsSpace) && (rest == "" || !IsSpace(rest[0]))
    ensures LStrip(s) == rest
  {
    RunLengthUnique(s, IsSpace, |before|);
    assert s[|before|..] == rest;
  }

  lemma LStripSplits(s: string)
    ensures exists before :: s == before + LStrip(s) && AllIn(before, IsSpace)
  {
    var before := s[..RunLength(s, IsSpace)];
    assert s == before + LStrip(s) && AllIn(before, IsSpace);
  }

  lemma UnreleasedRead(text: string, open: string, before: string, word: string, after: string, close: string)
    requires UnreleasedParts(text, open, before, word, after, close)
    ensures IsUnreleasedLike(text)
  {
    hide LStrip, IsSpace, AllIn;
    var tail := after + close;
    var body := before + (word + tail);
    WordStarts(word);
    BeforeWord(open, before, word, tail);
    LStripParts(body, before, word + tail);
    LStripParts(tail, after, close);
    assert (word + tail)[..10] == word && (word + tail)[10..] == tail;
  }

  lemma BeforeWord(open: string, before: string, word: string, tail: string)
    requires open in ["", "["] && AllIn(before, IsSpace) && word != "" && word[0] != '['
    ensures AfterBracket(open + (before + (word + tail))) == before + (word + tail)
  {
    var body := before + (word + tail);
    assert body[0] == if before != "" then before[0] else word[0];
    assert open == "" ==> open + body == body;
    assert open == "[" ==> (open + body)[1..] == body;
  }

  lemma WordStarts(word: string)
    requires EqualsIgnoringCase(word, "unreleased")
    ensures |word| == 10 && word[0] in "uU" && !IsSpace(word[0]) && word[0] != '[' && !IsSpace(']')
  {
    assert Lower(word[0]) == Lower("unreleased"[0]);
  }

  lemma UnreleasedFound(text: string)
    requires IsUnreleasedLike(text)
    ensures exists open, before, word, after, close :: UnreleasedParts(text, open, before, word, after, close)
  {
    hide LStrip, IsSpace, AllIn, EqualsIgnoringCase;
    var body := AfterBracket(text);
    var open := if text != [] && text[0] == '[' then "[" else "";
    assert text == open + body;
    LStripSplits(body);
    var before :| body == before + LStrip(body) && AllIn(before, IsSpace);
    var t := LStrip(body);
    var word, tail, close := t[..10], t[10..], LStrip(t[10..]);
    LStripSplits(tail);
    var after :| tail == after + close && AllIn(after, IsSpace);
    assert t == word + (after + close);
    assert text == open + (before + (word + (after + close)));
    assert UnreleasedParts(text, open, before, word, after, close);
  }

  lemma UnreleasedIff(text: string)
    ensures IsUnreleasedLike(text)
            <==> exists open, before, word, after, close :: UnreleasedParts(text, open, before, word, after, close)
  {
    hide IsUnreleasedLike, UnreleasedParts;
    if IsUnreleasedLike(text) { UnreleasedFound(text); }
    if open, before, word, after, close :| UnreleasedParts(text, open, before, word, after, close) {
      UnreleasedRead(text, open, before, word, after, close);
    }
  }

  /** A version starts the text, or stands behind an opening bracket and blanks. */
  predicate VersionAhead(text: string, open: string, before: string, s: string) {
    text == open + (before + s) && open in ["", "["] && Blanks(before) && SemverAt(s).Some?
  }

  lemma SemverStarts(s: string)
    requires SemverAt(s).Some?
    ensures s != "" && !IsBlank(s[0]) && s[0] != '['
  {
  }

  lemma VersionAheadIff(text: string)
    ensures SemverAt(DropBlanks(AfterBracket(text))).Some?
            <==> exists open, before, s :: VersionAhead(text, open, before, s)
  {
    hide SemverAt;
    var body := AfterBracket(text);
    var rest := DropBlanks(body);
    if open, before, s :| VersionAhead(text, open, before, s) {
      SemverStarts(s);
      assert (before + s)[0] == if before != "" then before[0] else s[0];
      assert open == "" ==> text == before + s;
      assert open == "[" ==> text[1..] == before + s;
      assert body == before + s;
      RunLengthUnique(body, IsBlank, |before|);
      assert body[|before|..] == s;
    }
    if SemverAt(rest).Some? {
      var open := if text != [] && text[0] == '[' then "[" else "";
      var before := body[..RunLength(body, IsBlank)];
      assert body == before + rest && text == open + body;
      assert VersionAhead(text, open, before, rest);
    }
  }

  /**
   * A text names a release iff a version starts it, perhaps behind a bracket; or it is "unreleased" in any
   * case; or a version stands somewhere in it, and a bracket starts the text or a date stands in it.
   */
  lemma NamesReleaseIff(text: string)
    ensures NamesRelease(text)
            <==> ((exists open, before, s :: VersionAhead(text, open, before, s))
                  || (exists open, before, word, after, close ::
                        UnreleasedParts(text, open, before, word, after, close))
                  || ((exists k :: 0 <= k < |text| && StartsVersion(text, k))
                      && ((text != "" && text[0] == '[')
                          || exists before, a, b, c, after :: DateParts(text, before, a, b, c, after))))
  {
    hide IsUnreleasedLike, UnreleasedParts, VersionAhead, HasIsoDate, DateParts, StartsVersion, SemverAt;
    VersionAheadIff(text);
    UnreleasedIff(text);
    IsoDateIff(text);
    VersionSomewhere(text, 0);
  }

  lemma {:induction false} VersionSomewhere(s: string, i: nat)
    requires i <= |s|
    ensures FindSemver(s, i).Some? <==> exists k :: i <= k < |s| && StartsVersion(s, k)
    decreases |s| - i
  {
    hide SemverAt;
    if i < |s| {
      VersionSomewhere(s, i + 1);
      assert FindSemver(s, i) == if StartsVersion(s, i) then SemverAt(s[i..]) else FindSemver(s, i + 1);
      if k :| i <= k < |s| && StartsVersion(s, k) { assert k == i || i + 1 <= k; }
    }
  }

  /** A dated text: the digits of a date, no word character on either side. */
  predicate DateParts(s: string, before: string, a: string, b: string, c: string, after: string) {
    s == before + (a + ("-" + (b + ("-" + (c + after)))))
    && |a| == 4 && |b| == 2 && |c| == 2 && AllIn(a, IsDigit) && AllIn(b, IsDigit) && AllIn(c, IsDigit)
    && (before != "" ==> !IsWord(before[|before| - 1])) && (after != "" ==> !IsWord(after[0]))
  }

  lemma IsoDateIff(s: string)
    ensures HasIsoDate(s) <==> exists before, a, b, c, after :: DateParts(s, before, a, b, c, after)
  {
    hide IsWord;
    if HasIsoDate(s) {
      var i :| 0 <= i < |s| && IsoDateAt(s, i);
      DateCut(s, i);
    }
    if before, a, b, c, after :| DateParts(s, before, a, b, c, after) {
      var d := a + "-" + b + "-" + c;
      PartsShape(a, b, c);
      DateJoined(a, b, c, after);
      DateAt(s, before, d, after);
    }
  }

  lemma DateJoined(a: string, b: string, c: string, after: string)
    ensures a + ("-" + (b + ("-" + (c + after)))) == a + "-" + b + "-" + c + after
  {
  }

  lemma DateCut(s: string, i: nat)
    requires i < |s| && IsoDateAt(s, i)
    ensures exists before, a, b, c, after :: DateParts(s, before, a, b, c, after)
  {
    hide IsWord;
    var d, after := s[i..i + 10], s[i + 10..];
    Versions.DateParts(d);
    DateJoined(d[..4], d[5..7], d[8..], after);
    assert s == s[..i] + (d + after);
    assert after != "" ==> after[0] == s[i + 10];
    assert DateParts(s, s[..i], d[..4], d[5..7], d[8..], after);
  }

  lemma DateAt(s: string, before: string, d: string, after: string)
    requires s == before + (d + after) && IsoShape(d)
    requires (before != "" ==> !IsWord(before[|before| - 1])) && (after != "" ==> !IsWord(after[0]))
    ensures HasIsoDate(s)
  {
    hide IsWord, IsoShape;
    ShapeLength(d);
    var i := |before|;
    assert s[i..i + 10] == d;
    assert i + 10 < |s| ==> s[i + 10] == after[0];
    assert i > 0 ==> s[i - 1] == before[i - 1];
    assert IsoDateAt(s, i);
  }

  /** The heading of a release: the version in brackets, a dash and the date, yanked or not. */
  predicate ReleaseHeading(text: string, v: Version, date: string, dash: char, tail: string) {
    text == "[" + (Name(v) + ("] " + ([dash] + (" " + (date + tail)))))
    && dash in ['-', '\U{2014}'] && tail in ["", " [YANKED]"] && IsoShape(date)
  }

  lemma VersionHeadingIff(text: string, v: Version, date: string)
    ensures VersionHeading(text) == Some((v, date))
            <==> exists dash, tail :: ReleaseHeading(text, v, date, dash, tail)
  {
    hide Name, ParseVersion, IsoShape;
    if VersionHeading(text) == Some((v, date)) {
      var end := IndexOf(text, ']');
      IndexOfSplit(text, ']');
      NameParsed(text[1..end]);
      HeadingCut(text, end);
      assert ReleaseHeading(text, v, date, text[end + 2], text[end + 14..]);
    }
    if dash, tail :| ReleaseHeading(text, v, date, dash, tail) { ReleaseHeadingRead(text, v, date, dash, tail); }
  }

  /** A heading cut at its bracket and its date. */
  lemma HeadingCut(text: string, end: nat)
    requires 1 <= end && end + 14 <= |text| && text[0] == '[' && text[end] == ']'
    requires text[end + 1] == ' ' && text[end + 3] == ' '
    ensures var rest := text[end + 4..end + 14] + text[end + 14..];
            text == "[" + (text[1..end] + ("] " + ([text[end + 2]] + (" " + rest))))
  {
    var rest := text[end + 4..];
    assert rest == text[end + 4..end + 14] + text[end + 14..];
    assert text[end..] == "] " + ([text[end + 2]] + (" " + rest));
    assert text == "[" + (text[1..end] + text[end..]);
  }

  lemma ReleaseHeadingRead(text: string, v: Version, date: string, dash: char, tail: string)
    requires ReleaseHeading(text, v, date, dash, tail)
    ensures VersionHeading(text) == Some((v, date))
  {
    hide Name, ParseVersion, IsoShape;
    var name := Name(v);
    var end := 1 + |name|;
    NameCharacters(v);
    ParseName(v);
    ShapeLength(date);
    assert text[1..end] == name && text[end] == ']' && text[0] == '[';
    forall k | 0 <= k < end ensures text[k] != ']' { if k > 0 { assert text[k] == name[k - 1]; } }
    IndexOfFirst(text, ']', end);
    assert text[end + 1] == ' ' && text[end + 2] == dash && text[end + 3] == ' ';
    assert text[end + 4..end + 14] == date && text[end + 14..] == tail;
  }

  lemma ShapeLength(date: string)
    requires IsoShape(date)
    ensures |date| == 10
  {
  }

  lemma NameCharacters(v: Version)
    ensures Name(v) != "" && ']' !in Name(v)
  {
  }
}
