/** What the dispatch lexer leaves of a source, told from the pieces the source is written with. */
module DispatchPieces {
  import opened Ascii
  import opened Wrappers
  import opened DispatchLexer

  /**
   * A stretch of a source: code without slashes, quotes and apostrophes; a number, its apostrophes
   * separating digits; the two kinds of comment; and literals, given without their quotes, perhaps behind
   * an encoding prefix.
   */
  datatype Part =
    | Code(text: string)
    | Slash
    | Number(text: string)
    | LineComment(text: string)
    | BlockComment(text: string)
    | Literal(prefix: string, quote: char, body: string)

  /** A backslash takes the next character with it; `oneLine` asks that no other newline is crossed. */
  predicate Escaped(body: string, quote: char, oneLine: bool)
    decreases |body|
  {
    body == ""
    || (body[0] == '\\' && |body| >= 2 && Escaped(body[2..], quote, oneLine))
    || (body[0] != '\\' && body[0] != quote && (oneLine ==> body[0] != '\n') && Escaped(body[1..], quote, oneLine))
  }

  function Written(p: Part): string {
    match p
    case Code(text) => text
    case Slash => "/"
    case Number(text) => text
    case LineComment(text) => "//" + text
    case BlockComment(text) => "/*" + (text + "*/")
    case Literal(prefix, quote, body) => prefix + ([quote] + (body + [quote]))
  }

  function Source(ps: seq<Part>): string { if ps == [] then "" else Written(ps[0]) + Source(ps[1..]) }

  /** The newlines of a text, and nothing else. */
  function Newlined(s: string): string {
    if s == "" then "" else (if s[0] == '\n' then "\n" else "") + Newlined(s[1..])
  }

  function LeftOf(p: Part): string {
    match p
    case LineComment(_) => ""
    case BlockComment(text) => Newlined(text)
    case Literal(prefix, _, body) => prefix + Newlined(body)
    case _ => Written(p)
  }

  /** The source without its comments and literals, of which only the newlines stay. */
  function Left(ps: seq<Part>): string {
    if ps == [] then ""
    else LeftOf(ps[0]) + Left(ps[1..])
  }

  /** A letter, a digit, a dot or an apostrophe. */
  predicate TokenChar(c: char) { '0' <= c <= '9' || 'a' <= c <= 'z' || 'A' <= c <= 'Z' || c == '.' || c == '\'' }

  /**
   * A digit, or a dot and a digit, then letters, digits, dots and apostrophes with a letter or digit after each
   * apostrophe.
   */
  predicate NumberText(text: string) {
    (text != "" && (IsDigit(text[0]) || (text[0] == '.' && |text| > 1 && IsDigit(text[1]))))
    && (forall k | 0 <= k < |text| :: TokenChar(text[k]))
    && forall k | 0 <= k < |text| && text[k] == '\'' :: k + 1 < |text| && IsAlnum(text[k + 1])
  }

  /** A letter, then letters and digits; or nothing. */
  predicate PrefixText(prefix: string) {
    prefix == "" || (IsAlpha(prefix[0]) && forall k | 0 <= k < |prefix| :: IsAlnum(prefix[k]))
  }

  /** The closing mark of a comment is its first. */
  predicate CommentText(text: string) {
    var s := text + "*/";
    forall k | 0 <= k < |text| :: !(s[k] == '*' && s[k + 1] == '/')
  }

  /** The last character written, or what came before. */
  function LastChar(p: Part, before: Option<char>): Option<char> {
    if Written(p) == "" then before else Some(Written(p)[|Written(p)| - 1])
  }

  predicate Fits(ps: seq<Part>, before: Option<char>) {
    ps == []
    || (Fits(ps[1..], LastChar(ps[0], before))
        && var rest := Source(ps[1..]);
           match ps[0]
           case Code(text) => forall k | 0 <= k < |text| :: text[k] !in "/\"'"
           case Slash => rest == "" || rest[0] !in "/*"
           case Number(text) =>
             NumberText(text) && (before.Some? ==> !TokenChar(before.value)) && (rest != "" ==> !TokenChar(rest[0]))
           case LineComment(text) => '\n' !in text && (rest == "" || rest[0] == '\n')
           case BlockComment(text) => CommentText(text)
           case Literal(prefix, quote, body) =>
             quote in "\"'" && PrefixText(prefix) && Escaped(body, quote, quote == '\'')
             && (quote == '\'' && before.Some? ==> !TokenChar(before.value)))
  }

  /** What the scan emits from `i` on. */
  function Emitted(text: string, i: nat): string {
    PositionsInRange(text, i);
    Select(text, Positions(text, i))
  }

  lemma EmittedKeep(text: string, i: nat)
    requires i < |text| && ActionAt(text, i).Keep?
    ensures Emitted(text, i) == [text[i]] + Emitted(text, i + 1)
  {
    hide ActionAt;
  }

  lemma EmittedRemove(text: string, i: nat, next: nat)
    requires i < next <= |text| && ActionAt(text, i) == Remove(next)
    ensures Emitted(text, i) == Newlined(text[i..next]) + Emitted(text, next)
  {
    hide ActionAt;
    PositionsInRange(text, next);
    SelectBreaks(text, i, next);
    SelectAppend(text, NewlinesIn(text, i, next), Positions(text, next));
    BreaksNewlined(text, i, next);
  }

  lemma {:induction false} BreaksNewlined(text: string, i: nat, j: nat)
    requires i <= j <= |text|
    ensures Breaks(text, i, j) == Newlined(text[i..j])
    decreases j - i
  {
    if i < j {
      BreaksNewlined(text, i + 1, j);
      assert text[i..j][0] == text[i] && text[i..j][1..] == text[i + 1..j];
    }
  }

  // ---- Parts that stay ------------------------------------------------------------------------

  lemma {:induction false} KeptRun(text: string, i: nat, j: nat)
    requires i <= j <= |text| && forall k | i <= k < j :: ActionAt(text, k).Keep?
    ensures Emitted(text, i) == text[i..j] + Emitted(text, j)
    decreases j - i
  {
    hide ActionAt, Emitted;
    if i < j {
      EmittedKeep(text, i);
      KeptRun(text, i + 1, j);
      assert text[i..j] == [text[i]] + text[i + 1..j];
    } else {
      assert text[i..j] + Emitted(text, j) == Emitted(text, j);
    }
  }

  lemma CodeKept(text: string, k: nat)
    requires k < |text| && text[k] !in "/\"'"
    ensures ActionAt(text, k).Keep?
  {
  }

  lemma SlashKept(text: string, k: nat)
    requires k < |text| && text[k] == '/' && (k + 1 < |text| ==> text[k + 1] !in "/*")
    ensures ActionAt(text, k).Keep?
  {
  }

  lemma {:induction false} TokenStartIs(text: string, i: nat, k: nat)
    requires i <= k <= |text| && (i > 0 ==> !TokenChar(text[i - 1])) && forall j | i <= j < k :: TokenChar(text[j])
    ensures TokenStart(text, k) == i
  {
    if k > i { TokenStartIs(text, i, k - 1); }
  }

  /** An apostrophe between the digits of a number is no quote. */
  lemma NumberKept(text: string, i: nat, n: nat, k: nat)
    requires i <= k < i + n <= |text| && NumberText(text[i..i + n]) && (i > 0 ==> !TokenChar(text[i - 1]))
    ensures ActionAt(text, k).Keep?
  {
    var number := text[i..i + n];
    assert forall j | i <= j < i + n :: text[j] == number[j - i];
    if text[k] == '\'' {
      TokenStartIs(text, i, k);
      assert number[k - i] == '\'' && text[k + 1] == number[k - i + 1];
      assert DigitSeparator(text, k);
    } else {
      CodeKept(text, k);
    }
  }

  // ---- Parts that go --------------------------------------------------------------------------

  lemma {:induction false} FindCharIs(text: string, c: char, i: nat, j: nat)
    requires i <= j <= |text| && (forall k | i <= k < j :: text[k] != c) && (j < |text| ==> text[j] == c)
    ensures FindChar(text, c, i) == j
    decreases j - i
  {
    if i < j { FindCharIs(text, c, i + 1, j); }
  }

  lemma {:induction false} CommentEndIs(text: string, i: nat, j: nat)
    requires i <= j && j + 2 <= |text| && text[j] == '*' && text[j + 1] == '/'
    requires forall k | i <= k < j :: !(text[k] == '*' && text[k + 1] == '/')
    ensures CommentEnd(text, i) == j + 2
    decreases j - i
  {
    if i < j { CommentEndIs(text, i + 1, j); }
  }

  lemma {:induction false} LiteralEndIs(text: string, quote: char, j: nat, body: string, oneLine: bool)
    requires j + |body| < |text| && text[j..j + |body|] == body && text[j + |body|] == quote && quote != '\\'
    requires Escaped(body, quote, oneLine)
    ensures LiteralEnd(text, quote, j) == j + |body| + 1
    ensures oneLine && quote != '\n' ==> CloserFrom(text, quote, j).Some?
    decreases |body|
  {
    if body != "" {
      assert text[j] == body[0];
      if body[0] == '\\' {
        assert text[j + 2..j + |body|] == body[2..];
        LiteralEndIs(text, quote, j + 2, body[2..], oneLine);
      } else {
        assert text[j + 1..j + |body|] == body[1..];
        LiteralEndIs(text, quote, j + 1, body[1..], oneLine);
      }
    }
  }

  lemma CommentGoes(text: string, i: nat, p: Part, rest: string)
    requires i <= |text| && text[i..] == Written(p) + rest && (p.LineComment? || p.BlockComment?)
    requires p.LineComment? ==> '\n' !in p.text && (rest == "" || rest[0] == '\n')
    requires p.BlockComment? ==> CommentText(p.text)
    ensures i < |text| && ActionAt(text, i) == Remove(i + |Written(p)|)
  {
    var w := Written(p);
    assert forall k | 0 <= k < |w| :: text[i + k] == text[i..][k] == w[k];
    assert text[i] == w[0] && text[i + 1] == w[1];
    match p
    case LineComment(t) =>
      forall k | i + 1 <= k < i + |w| ensures text[k] != '\n' {
        assert text[k] == w[k - i];
        if k > i + 1 { assert w[k - i] == t[k - i - 2]; }
      }
      assert i + |w| < |text| ==> text[i + |w|] == text[i..][|w|] == rest[0];
      FindCharIs(text, '\n', i + 1, i + |w|);
    case BlockComment(t) =>
      var s := t + "*/";
      assert forall k | 0 <= k < |s| :: text[i + 2 + k] == w[2 + k] == s[k];
      forall k | i + 2 <= k < i + 2 + |t| ensures !(text[k] == '*' && text[k + 1] == '/') {
        assert !(s[k - i - 2] == '*' && s[k - i - 1] == '/');
      }
      CommentEndIs(text, i + 2, i + 2 + |t|);
  }

  /** A word of letters and digits before an apostrophe is no number. */
  lemma PrefixNoNumber(text: string, h: nat, i: nat)
    requires h <= i < |text| && PrefixText(text[h..i]) && (h > 0 ==> !TokenChar(text[h - 1]))
    ensures !DigitSeparator(text, i)
  {
    var prefix := text[h..i];
    assert forall j | h <= j < i :: text[j] == prefix[j - h];
    TokenStartIs(text, h, i);
  }

  lemma QuoteOpens(text: string, i: nat)
    requires i < |text| && text[i] in "\"'"
    requires text[i] == '\'' ==> !DigitSeparator(text, i) && CloserFrom(text, '\'', i + 1).Some?
    ensures LiteralEnd(text, text[i], i + 1) > i
    ensures ActionAt(text, i) == Remove(LiteralEnd(text, text[i], i + 1))
  {
    hide CloserFrom, LiteralEnd, FindChar, CommentEnd, DigitSeparator;
  }

  /** A literal's characters stand at `i`. */
  predicate LiteralAt(text: string, i: nat, quote: char, body: string) {
    i + |body| + 2 <= |text| && text[i..i + |body| + 2] == [quote] + (body + [quote])
  }

  lemma LiteralPlaces(text: string, i: nat, quote: char, body: string)
    requires LiteralAt(text, i, quote, body)
    ensures i + |body| + 2 <= |text|
    ensures text[i] == quote && text[i + 1 + |body|] == quote && text[i + 1..i + 1 + |body|] == body
  {
    var w := text[i..i + |body| + 2];
    assert w[0] == text[i] && w[1 + |body|] == text[i + 1 + |body|];
    assert w[1..1 + |body|] == body;
    forall k | 0 <= k < |body| ensures text[i + 1..i + 1 + |body|][k] == body[k] {
      assert text[i + 1 + k] == w[1 + k] == (body + [quote])[k];
    }
  }

  lemma LiteralGoes(text: string, h: nat, i: nat, quote: char, body: string)
    requires LiteralAt(text, i, quote, body) && quote in "\"'"
    requires h <= i < |text| && PrefixText(text[h..i]) && (quote == '\'' && h > 0 ==> !TokenChar(text[h - 1]))
    requires Escaped(body, quote, quote == '\'')
    ensures ActionAt(text, i) == Remove(i + |body| + 2)
  {
    hide *;
    assert quote == '"' || quote == '\'';
    LiteralPlaces(text, i, quote, body);
    LiteralEndIs(text, quote, i + 1, body, quote == '\'');
    if quote == '\'' { PrefixNoNumber(text, h, i); }
    QuoteOpens(text, i);
  }

  lemma Regroup(a: string, b: string, c: string)
    ensures a + (b + c) == a + b + c
  {
  }

  lemma NewlinedFirst(s: string, t: string)
    requires s != ""
    ensures var first := if s[0] == '\n' then "\n" else "";
            Newlined(s + t) == first + Newlined(s[1..] + t) && Newlined(s) == first + Newlined(s[1..])
  {
    assert (s + t)[0] == s[0] && (s + t)[1..] == s[1..] + t;
  }

  lemma {:induction false} NewlinedConcat(s: string, t: string)
    ensures Newlined(s + t) == Newlined(s) + Newlined(t)
  {
    if s == "" {
      assert s + t == t;
    } else {
      hide Newlined;
      NewlinedConcat(s[1..], t);
      NewlinedFirst(s, t);
      Regroup(if s[0] == '\n' then "\n" else "", Newlined(s[1..]), Newlined(t));
    }
  }

  /** The marks around a comment or a literal are no newlines. */
  lemma MarksNewlined(open: string, body: string, close: string)
    requires '\n' !in open && '\n' !in close
    ensures Newlined(open + (body + close)) == Newlined(body)
  {
    NewlinedConcat(open, body + close);
    NewlinedConcat(body, close);
    NoNewlines(open);
    NoNewlines(close);
  }

  lemma {:induction false} NoNewlines(s: string)
    requires '\n' !in s
    ensures Newlined(s) == ""
  {
    if s != "" { NoNewlines(s[1..]); }
  }

  // ---- A source -------------------------------------------------------------------------------

  /** What stands before offset `i`. */
  function Before(text: string, i: nat): Option<char>
    requires i <= |text|
  {
    if i == 0 then None else Some(text[i - 1])
  }

  /** The prefix stays and the literal goes. */
  lemma LiteralRead(text: string, i: nat, p: Part, rest: string)
    requires i <= |text| && text[i..] == Written(p) + rest && p.Literal?
    requires p.quote in "\"'" && PrefixText(p.prefix) && Escaped(p.body, p.quote, p.quote == '\'')
    requires p.quote == '\'' && i > 0 ==> !TokenChar(text[i - 1])
    ensures i + |Written(p)| <= |text|
    ensures Emitted(text, i) == LeftOf(p) + Emitted(text, i + |Written(p)|)
  {
    hide ActionAt, Emitted, Escaped, PrefixText, Newlined, TokenChar;
    var w, at := Written(p), i + |p.prefix|;
    var j := i + |w|;
    var whole := [p.quote] + (p.body + [p.quote]);
    assert text[i..j] == text[i..][..|w|] == w;
    assert text[i..at] == text[i..][..|p.prefix|] == p.prefix;
    assert text[at..j] == text[i..j][|p.prefix|..] == whole && LiteralAt(text, at, p.quote, p.body);
    LiteralGoes(text, i, at, p.quote, p.body);
    EmittedRemove(text, at, j);
    assert p.quote != '\n';
    MarksNewlined([p.quote], p.body, [p.quote]);
    forall k | i <= k < at ensures ActionAt(text, k).Keep? {
      assert text[k] == text[i..at][k - i];
      PrefixKept(p.prefix, k - i);
      CodeKept(text, k);
    }
    KeptRun(text, i, at);
  }

  lemma PrefixKept(prefix: string, k: nat)
    requires PrefixText(prefix) && k < |prefix|
    ensures prefix[k] !in "/\"'"
  {
  }

  /** A comment goes, but for its newlines. */
  lemma CommentRead(text: string, i: nat, p: Part, rest: string)
    requires i <= |text| && text[i..] == Written(p) + rest && (p.LineComment? || p.BlockComment?)
    requires p.LineComment? ==> '\n' !in p.text && (rest == "" || rest[0] == '\n')
    requires p.BlockComment? ==> CommentText(p.text)
    ensures i + |Written(p)| <= |text|
    ensures Emitted(text, i) == LeftOf(p) + Emitted(text, i + |Written(p)|)
  {
    hide ActionAt, Emitted, CommentText, Newlined;
    var w := Written(p);
    assert text[i..i + |w|] == text[i..][..|w|] == w;
    CommentGoes(text, i, p, rest);
    EmittedRemove(text, i, i + |w|);
    if p.LineComment? { NoNewlines(w); } else { MarksNewlined("/*", p.text, "*/"); }
  }

  lemma PartRead(text: string, i: nat, p: Part, rest: string)
    requires i <= |text| && text[i..] == Written(p) + rest
    requires p.Code? ==> forall k | 0 <= k < |p.text| :: p.text[k] !in "/\"'"
    requires p.Slash? ==> rest == "" || rest[0] !in "/*"
    requires p.Number? ==> NumberText(p.text) && (i > 0 ==> !TokenChar(text[i - 1]))
    requires p.LineComment? ==> '\n' !in p.text && (rest == "" || rest[0] == '\n')
    requires p.BlockComment? ==> CommentText(p.text)
    requires p.Literal? ==> p.quote in "\"'" && PrefixText(p.prefix) && Escaped(p.body, p.quote, p.quote == '\'')
    requires p.Literal? ==> (p.quote == '\'' && i > 0 ==> !TokenChar(text[i - 1]))
    ensures i + |Written(p)| <= |text|
    ensures Emitted(text, i) == LeftOf(p) + Emitted(text, i + |Written(p)|)
  {
    hide ActionAt, Emitted, Escaped, NumberText, CommentText, Newlined, PrefixText, TokenChar;
    var w := Written(p);
    var j := i + |w|;
    assert text[i..j] == text[i..][..|w|] == w;
    assert forall k | i <= k < j :: text[k] == w[k - i];
    match p
    case Code(_) =>
      forall k | i <= k < j ensures ActionAt(text, k).Keep? { CodeKept(text, k); }
      KeptRun(text, i, j);
    case Slash =>
      assert j < |text| ==> text[j] == text[i..][1] == rest[0];
      SlashKept(text, i);
      KeptRun(text, i, j);
    case Number(_) =>
      forall k | i <= k < j ensures ActionAt(text, k).Keep? { NumberKept(text, i, |w|, k); }
      KeptRun(text, i, j);
    case LineComment(_) => CommentRead(text, i, p, rest);
    case BlockComment(_) => CommentRead(text, i, p, rest);
    case Literal(_, _, _) => LiteralRead(text, i, p, rest);
  }

  lemma {:induction false} PartsRead(text: string, i: nat, ps: seq<Part>)
    requires i <= |text| && text[i..] == Source(ps) && Fits(ps, Before(text, i))
    ensures Emitted(text, i) == Left(ps)
    decreases |ps|
  {
    hide Emitted, Escaped, NumberText, CommentText, Newlined, Written, PrefixText, TokenChar, LeftOf;
    if ps == [] {
      NothingEmitted(text);
    } else {
      var w, rest := Written(ps[0]), Source(ps[1..]);
      PartRead(text, i, ps[0], rest);
      var j := i + |w|;
      assert text[j..] == text[i..][|w|..] == rest;
      assert w != "" ==> text[j - 1] == text[i..][|w| - 1] == w[|w| - 1];
      PartsRead(text, j, ps[1..]);
    }
  }

  lemma NothingEmitted(text: string)
    ensures Emitted(text, |text|) == ""
  {
  }

  /**
   * Of every source written in pieces that fit, the lexer leaves the code, the slashes and the numbers, and
   * of comments and literals exactly their newlines.
   */
  lemma PiecesLeft(ps: seq<Part>)
    requires Fits(ps, None)
    ensures (forall k | 0 <= k < |Positions(Source(ps), 0)| :: Positions(Source(ps), 0)[k] < |Source(ps)|)
    ensures Select(Source(ps), Positions(Source(ps), 0)) == Left(ps)
  {
    PositionsInRange(Source(ps), 0);
    assert Source(ps)[0..] == Source(ps);
    PartsRead(Source(ps), 0, ps);
  }

  /** An apostrophe that nothing on its line closes is kept: it is no quote. */
  lemma LoneApostropheKept(text: string, i: nat, line: string, rest: string)
    requires i <= |text| && text[i..] == "'" + (line + rest) && (rest == "" || rest[0] == '\n')
    requires '\'' !in line && '\\' !in line && '\n' !in line
    ensures i < |text| && ActionAt(text, i).Keep?
  {
    assert text[i] == text[i..][0];
    assert forall k | 0 <= k < |line| :: text[i + 1 + k] == text[i..][1 + k] == line[k];
    assert i + 1 + |line| < |text| ==> text[i + 1 + |line|] == text[i..][1 + |line|] == rest[0];
    NoCloser(text, i + 1, i + 1 + |line|);
  }

  lemma {:induction false} NoCloser(text: string, k: nat, end: nat)
    requires k <= end <= |text| && (end < |text| ==> text[end] == '\n')
    requires forall j | k <= j < end :: text[j] !in "'\\\n"
    ensures CloserFrom(text, '\'', k).None?
    decreases end - k
  {
    if k < end { NoCloser(text, k + 1, end); }
  }

  lemma {:induction false} NoCommentEnd(text: string, i: nat)
    requires i <= |text| && forall k | i <= k < |text| - 1 :: !(text[k] == '*' && text[k + 1] == '/')
    ensures CommentEnd(text, i) == |text|
    decreases |text| - i
  {
    if i + 1 < |text| { NoCommentEnd(text, i + 1); }
  }

  /** A block comment that nothing closes takes the rest of the source. */
  lemma UnclosedCommentGoes(text: string, i: nat)
    requires i + 2 <= |text| && text[i] == '/' && text[i + 1] == '*'
    requires forall k | i + 2 <= k < |text| - 1 :: !(text[k] == '*' && text[k + 1] == '/')
    ensures ActionAt(text, i) == Remove(|text|)
  {
    NoCommentEnd(text, i + 2);
  }

  lemma {:induction false} NoLiteralEnd(text: string, quote: char, j: nat)
    requires j <= |text| && quote !in text[j..]
    ensures LiteralEnd(text, quote, j) >= |text|
    decreases |text| - j
  {
    if j < |text| {
      assert text[j] == text[j..][0] && text[j + 1..] == text[j..][1..];
      if text[j] != '\\' {
        NoLiteralEnd(text, quote, j + 1);
      } else if j + 1 < |text| {
        assert text[j + 2..] == text[j..][2..];
        NoLiteralEnd(text, quote, j + 2);
      }
    }
  }

  /** A string that no quote closes takes the rest of the source too. */
  lemma UnclosedStringGoes(text: string, i: nat)
    requires i < |text| && text[i] == '"' && '"' !in text[i + 1..]
    ensures ActionAt(text, i).Remove? && ActionAt(text, i).next >= |text|
  {
    NoLiteralEnd(text, '"', i + 1);
  }
}
