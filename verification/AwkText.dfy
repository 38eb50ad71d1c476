/**
 * `awk_code_text` of `scripts/check-docs.py`: an awk program with its comments, strings and regular
 * expressions blanked in place.
 */
module AwkText {
  import opened Ascii
  import opened Wrappers

  /**
   * A `/` after an operand divides; anywhere else it opens a regular expression. `prev` is the last
   * character of code, empty before the first, and the empty string counts as an operand because
   * `"" in "_)]"` holds.
   */
  predicate Operand(prev: string) {
    prev == "" || (|prev| == 1 && (IsAlnum(prev[0]) || prev[0] == '_' || prev[0] == ')' || prev[0] == ']'))
  }

  /** Where the comment that starts at `i` ends: at its newline or at the end. */
  function CommentEnd(s: string, i: nat): (e: nat)
    requires i <= |s|
    ensures i <= e <= |s| && forall k | i <= k < e :: s[k] != '\n'
    decreases |s| - i
  {
    if i == |s| || s[i] == '\n' then i else CommentEnd(s, i + 1)
  }

  /** Where a literal whose contents start at `i` ends: past its closer, or at its newline. */
  function LiteralEnd(s: string, close: char, i: nat): (e: nat)
    requires i <= |s| && close != '\n'
    ensures i <= e <= |s| && forall k | i <= k < e :: s[k] != '\n'
    decreases |s| - i
  {
    if i == |s| || s[i] == '\n' then i
    else if s[i] == close then i + 1
    else if s[i] == '\\' && i + 1 < |s| && s[i + 1] != '\n' then LiteralEnd(s, close, i + 2)
    else LiteralEnd(s, close, i + 1)
  }

  /**
   * What the scan does at `i` when `prev` is the last significant code character: it goes on from
   * `next` with `prev'`, and what it passes is blanked or is one character of code.
   */
  datatype Turn = Turn(next: nat, prev: string, blank: bool)

  function TurnAt(s: string, i: nat, prev: string): (t: Turn)
    requires i < |s|
    ensures i < t.next <= |s| && (!t.blank ==> t.next == i + 1)
    ensures t.blank ==> forall k | i <= k < t.next :: s[k] != '\n'
    ensures !t.blank ==> s[i] != '#' && s[i] != '"'
  {
    if s[i] == '#' then Turn(CommentEnd(s, i), prev, true)
    else if s[i] == '"' || (s[i] == '/' && !Operand(prev)) then Turn(LiteralEnd(s, s[i], i + 1), ")", true)
    else Turn(i + 1, if IsSpace(s[i]) then prev else [s[i]], false)
  }

  function Piece(s: string, i: nat, t: Turn): string
    requires i < |s| && i < t.next
  {
    if t.blank then Spaces(t.next - i) else [s[i]]
  }

  /** The text from `i` on; `prev` is empty at the start. */
  function CodeFrom(s: string, i: nat, prev: string): string
    requires i <= |s|
    decreases |s| - i
  {
    if i == |s| then []
    else
      var t := TurnAt(s, i, prev);
      Piece(s, i, t) + CodeFrom(s, t.next, t.prev)
  }

  /** Blanks `[i, e)` of the buffer. */
  method BlankRange(out: array<char>, i: nat, e: nat)
    requires i <= e <= out.Length
    modifies out
    ensures out[..i] == old(out[..i]) && out[e..] == old(out[e..])
    ensures out[i..e] == Spaces(e - i)
  {
    for x := i to e
      invariant out[..i] == old(out[..i]) && out[e..] == old(out[e..])
      invariant forall k | i <= k < x :: out[k] == ' '
    {
      out[x] := ' ';
    }
  }

  /** One turn of the loop: the piece at `i` is settled and nothing else changes. */
  method Settle(out: array<char>, source: string, i: nat, prev: string) returns (t: Turn)
    requires out.Length == |source| && i < |source| && out[i..] == source[i..]
    modifies out
    ensures t == TurnAt(source, i, prev)
    ensures out[..i] == old(out[..i]) && out[t.next..] == source[t.next..]
    ensures out[i..t.next] == Piece(source, i, t)
  {
    hide Operand;
    var c := source[i];
    if c == '#' {
      t := Turn(CommentEnd(source, i), prev, true);
    } else if c == '"' || (c == '/' && !Operand(prev)) {
      t := Turn(LiteralEnd(source, c, i + 1), ")", true);
    } else {
      t := Turn(i + 1, if IsSpace(c) then prev else [c], false);
    }
    assert out[t.next..] == out[i..][t.next - i..] && source[t.next..] == source[i..][t.next - i..];
    assert out[i] == out[i..][0] == source[i..][0];
    if t.blank { BlankRange(out, i, t.next); }
  }

  /** `awk_code_text`: the character buffer is changed in place. */
  method AwkCodeText(source: string) returns (r: string)
    ensures r == CodeFrom(source, 0, "")
  {
    var n := |source|;
    var out := new char[n](k requires 0 <= k < n => source[k]);
    var i, prev := 0, "";
    while i < n
      invariant i <= n
      invariant out[i..] == source[i..]
      invariant out[..i] + CodeFrom(source, i, prev) == CodeFrom(source, 0, "")
      decreases n - i
    {
      hide TurnAt, CodeFrom, Piece;
      ghost var done := out[..i];
      CodeStep(done, source, i, prev);
      var t := Settle(out, source, i, prev);
      assert out[..t.next] == done + out[i..t.next];
      i, prev := t.next, t.prev;
    }
    assert out[..n] == out[..];
    return out[..];
  }

  lemma CodeStep(done: string, s: string, i: nat, prev: string)
    requires i < |s|
    ensures var t := TurnAt(s, i, prev);
            done + CodeFrom(s, i, prev) == done + Piece(s, i, t) + CodeFrom(s, t.next, t.prev)
  {
    hide TurnAt, Piece;
    var t := TurnAt(s, i, prev);
    assert done + (Piece(s, i, t) + CodeFrom(s, t.next, t.prev)) == done + Piece(s, i, t) + CodeFrom(s, t.next, t.prev);
  }

  // ---- What the blanking keeps --------------------------------------------------------------

  /**
   * `r` keeps every offset and line of `s`: the same length and the same newlines, each other
   * character kept or blanked, and no comment or string start left to be misread as code.
   */
  ghost predicate Kept(s: string, r: string) {
    |s| == |r| && forall k | 0 <= k < |s| :: KeptChar(s[k], r[k])
  }

  predicate KeptChar(a: char, b: char) { (b == a || (b == ' ' && a != '\n')) && b != '#' && b != '"' }

  lemma KeptConcat(s: string, r: string, s': string, r': string)
    requires Kept(s, r) && Kept(s', r')
    ensures Kept(s + s', r + r')
  {
  }

  lemma KeptEmpty()
    ensures Kept([], [])
  {
  }

  lemma PieceKept(s: string, i: nat, prev: string)
    requires i < |s|
    ensures var t := TurnAt(s, i, prev); Kept(s[i..t.next], Piece(s, i, t))
  {
    hide TurnAt;
  }

  lemma {:induction false} CodeFromKept(s: string, i: nat, prev: string)
    requires i <= |s|
    ensures Kept(s[i..], CodeFrom(s, i, prev))
    decreases |s| - i
  {
    hide TurnAt, Piece, Kept;
    if i < |s| {
      var t := TurnAt(s, i, prev);
      PieceKept(s, i, prev);
      CodeFromKept(s, t.next, t.prev);
      assert s[i..] == s[i..t.next] + s[t.next..];
      KeptConcat(s[i..t.next], Piece(s, i, t), s[t.next..], CodeFrom(s, t.next, t.prev));
    } else {
      assert s[i..] == [];
      KeptEmpty();
    }
  }

  /** Offsets and lines stay for every source. */
  lemma CodeKeepsPlaces(s: string)
    ensures Kept(s, CodeFrom(s, 0, ""))
  {
    CodeFromKept(s, 0, "");
    assert s[0..] == s;
  }

  // ---- The reader the documentation describes --------------------------------------------------

  /** A character after which a statement starts. */
  const STATEMENT_START := ";"

  /**
   * The documented reading: the same turns, except that the file opens where a statement starts, so
   * that a `/` there opens a regular expression.
   */
  function Documented(s: string): string { CodeFrom(s, 0, STATEMENT_START) }

  /** Where the first character of code is, past blanks and comments; the end if there is none. */
  function FirstCode(s: string, i: nat): (k: nat)
    requires i <= |s|
    ensures i <= k <= |s|
    decreases |s| - i
  {
    if i == |s| then i
    else if s[i] == '#' then FirstCode(s, CommentEnd(s, i))
    else if IsSpace(s[i]) then FirstCode(s, i + 1)
    else i
  }

  lemma BlankTurn(s: string, i: nat, prev: string)
    requires i < |s| && FirstCode(s, i) != i
    ensures var t := TurnAt(s, i, prev);
            t.prev == prev && TurnAt(s, i, "") == t.(prev := "") && FirstCode(s, t.next) == FirstCode(s, i)
  {
  }

  lemma CodeStart(s: string, i: nat, prev: string)
    requires i < |s|
    ensures var t := TurnAt(s, i, prev); CodeFrom(s, i, prev) == Piece(s, i, t) + CodeFrom(s, t.next, t.prev)
  {
    hide TurnAt, Piece;
  }

  lemma CodeLength(s: string, i: nat, prev: string)
    requires i <= |s|
    ensures |CodeFrom(s, i, prev)| == |s| - i
  {
    hide CodeFrom;
    CodeFromKept(s, i, prev);
  }

  /** What precedes the first code is read without regard to what came before it. */
  lemma {:induction false} ReadToFirstCode(s: string, i: nat, prev: string)
    requires i <= |s|
    ensures |CodeFrom(s, i, "")| == |s| - i
    ensures CodeFrom(s, i, prev) == CodeFrom(s, i, "")[..FirstCode(s, i) - i] + CodeFrom(s, FirstCode(s, i), prev)
    decreases |s| - i
  {
    hide TurnAt, Piece, CodeFrom, FirstCode;
    CodeLength(s, i, "");
    var k := FirstCode(s, i);
    if i < k {
      BlankTurn(s, i, prev);
      CodeStart(s, i, prev);
      CodeStart(s, i, "");
      var t := TurnAt(s, i, prev);
      ReadToFirstCode(s, t.next, prev);
      PieceLength(s, i, t);
      Shift(Piece(s, i, t), CodeFrom(s, t.next, ""), k - t.next, CodeFrom(s, k, prev));
    } else {
      assert CodeFrom(s, i, "")[..0] + CodeFrom(s, i, prev) == CodeFrom(s, i, prev);
    }
  }

  lemma PieceLength(s: string, i: nat, t: Turn)
    requires i < |s| && i < t.next && (!t.blank ==> t.next == i + 1)
    ensures |Piece(s, i, t)| == t.next - i && Piece(s, i, t.(prev := "")) == Piece(s, i, t)
  {
  }

  lemma Shift(p: string, a: string, n: nat, b: string)
    requires n <= |a|
    ensures p + (a[..n] + b) == (p + a)[..|p| + n] + b
  {
  }

  /** On the first code itself only a `/` is read differently. */
  lemma FirstCodeRead(s: string, k: nat)
    requires k <= |s| && (k < |s| ==> s[k] != '#' && !IsSpace(s[k]))
    ensures CodeFrom(s, k, "") == CodeFrom(s, k, STATEMENT_START) <==> k == |s| || s[k] != '/'
  {
    if k < |s| && s[k] == '/' {
      assert !Operand(STATEMENT_START) && Operand("");
      assert CodeFrom(s, k, "")[0] == '/' && CodeFrom(s, k, STATEMENT_START)[0] == ' ';
    }
  }

  lemma {:induction false} FirstCodeIsCode(s: string, i: nat)
    requires i <= |s|
    ensures var k := FirstCode(s, i); k < |s| ==> s[k] != '#' && !IsSpace(s[k])
    decreases |s| - i
  {
    if i < |s| && s[i] == '#' { FirstCodeIsCode(s, CommentEnd(s, i)); }
    else if i < |s| && IsSpace(s[i]) { FirstCodeIsCode(s, i + 1); }
  }

  /**
   * The scan is the documented one exactly for the programs whose first character of code, after
   * blanks and comments, is not a `/`.
   */
  lemma DocumentedIff(s: string)
    ensures CodeFrom(s, 0, "") == Documented(s) <==> FirstCode(s, 0) == |s| || s[FirstCode(s, 0)] != '/'
  {
    hide CodeFrom, TurnAt, Piece;
    var k := FirstCode(s, 0);
    FirstCodeIsCode(s, 0);
    FirstCodeRead(s, k);
    ReadToFirstCode(s, 0, "");
    ReadToFirstCode(s, 0, STATEMENT_START);
    var front := CodeFrom(s, 0, "")[..k];
    SameFront(front, CodeFrom(s, k, ""), CodeFrom(s, k, STATEMENT_START));
  }

  lemma SameFront(a: string, b: string, c: string)
    ensures a + b == a + c <==> b == c
  {
    if a + b == a + c {
      assert b == (a + b)[|a|..] && c == (a + c)[|a|..];
    }
  }

  /** Nothing closes a regular expression here, or opens a literal or a comment. */
  ghost predicate PlainFrom(s: string, i: nat) {
    forall k | i <= k < |s| :: s[k] != '/' && s[k] != '\n' && s[k] != '\\' && s[k] != '#' && s[k] != '"'
  }

  lemma {:induction false} NothingCloses(s: string, i: nat)
    requires i <= |s| && PlainFrom(s, i)
    ensures LiteralEnd(s, '/', i) == |s|
    decreases |s| - i
  {
    if i < |s| { NothingCloses(s, i + 1); }
  }

  lemma {:induction false} NothingOpens(s: string, i: nat, prev: string)
    requires i <= |s| && PlainFrom(s, i)
    ensures CodeFrom(s, i, prev) == s[i..]
    decreases |s| - i
  {
    hide Operand, IsSpace;
    if i < |s| {
      var t := TurnAt(s, i, prev);
      NothingOpens(s, i + 1, t.prev);
      assert s[i..] == [s[i]] + s[i + 1..];
    }
  }

  const PATTERN := "/a*/{f()}"

  lemma PatternTurns()
    ensures TurnAt(PATTERN, 0, "") == Turn(1, "/", false) && TurnAt(PATTERN, 1, "/") == Turn(2, "a", false)
    ensures TurnAt(PATTERN, 2, "a") == Turn(3, "*", false) && TurnAt(PATTERN, 3, "*") == Turn(9, ")", true)
    ensures TurnAt(PATTERN, 0, STATEMENT_START) == Turn(4, ")", true)
  {
    var s := PATTERN;
    assert PlainFrom(s, 4);
    NothingCloses(s, 4);
    assert LiteralEnd(s, '/', 1) == LiteralEnd(s, '/', 2) == LiteralEnd(s, '/', 3) == 4;
  }

  /** A pattern that opens the program: the action is blanked, and the pattern is not. */
  lemma LeadingRegexHidesCode()
    ensures CodeFrom("/a*/{f()}", 0, "") == "/a*      " && Documented("/a*/{f()}") == "    {f()}"
  {
    hide TurnAt, CodeFrom, LiteralEnd, PlainFrom;
    var s := PATTERN;
    PatternTurns();
    PatternTail();
    CodeStart(s, 0, STATEMENT_START);
    CodeStart(s, 0, "");
    CodeStart(s, 1, "/");
    CodeStart(s, 2, "a");
    CodeStart(s, 3, "*");
  }

  lemma PatternTail()
    ensures CodeFrom(PATTERN, 4, ")") == "{f()}" && CodeFrom(PATTERN, 9, ")") == ""
  {
    NothingOpens(PATTERN, 4, ")");
    NothingOpens(PATTERN, 9, ")");
  }

  // ---- A `/` on a later line ------------------------------------------------------------------

  /** The last significant character when the scan arrives at `k`; nothing if it jumps over `k`. */
  function ArrivesWith(s: string, i: nat, prev: string, k: nat): (r: Option<string>)
    requires i <= |s| && k <= |s|
    decreases |s| - i
  {
    if i == k then Some(prev)
    else if i > k then None
    else
      var t := TurnAt(s, i, prev);
      ArrivesWith(s, t.next, t.prev, k)
  }

  /** What the scan makes of a character it arrives at. */
  lemma {:induction false} ArrivalDecides(s: string, i: nat, prev: string, k: nat)
    requires i <= |s| && k < |s| && ArrivesWith(s, i, prev, k).Some?
    ensures i <= k && |CodeFrom(s, i, prev)| == |s| - i
    ensures CodeFrom(s, i, prev)[k - i..] == CodeFrom(s, k, ArrivesWith(s, i, prev, k).value)
    decreases |s| - i
  {
    hide TurnAt, Piece;
    CodeFromKept(s, i, prev);
    if i < k {
      var t := TurnAt(s, i, prev);
      ArrivalDecides(s, t.next, t.prev, k);
      PieceKept(s, i, prev);
      var piece, rest := Piece(s, i, t), CodeFrom(s, t.next, t.prev);
      assert (piece + rest)[k - i..] == rest[k - t.next..];
    } else {
      assert CodeFrom(s, i, prev)[0..] == CodeFrom(s, i, prev);
    }
  }

  /** Blanks, newlines among them, leave the last significant character as it was. */
  lemma {:induction false} BlanksKeepPrev(s: string, i: nat, prev: string, k: nat, j: nat)
    requires i <= |s| && k <= j <= |s| && ArrivesWith(s, i, prev, k).Some?
    requires forall m | k <= m < j :: IsSpace(s[m])
    ensures ArrivesWith(s, i, prev, j) == ArrivesWith(s, i, prev, k)
    decreases |s| - i
  {
    hide Operand;
    if i < k {
      var t := TurnAt(s, i, prev);
      BlanksKeepPrev(s, t.next, t.prev, k, j);
      Arrived(s, t.next, t.prev, k);
    } else {
      Arrived(s, i, prev, k);
      if k < j { BlanksKeepPrev(s, i + 1, prev, k + 1, j); }
    }
  }

  lemma {:induction false} Arrived(s: string, i: nat, prev: string, k: nat)
    requires i <= |s| && k <= |s| && ArrivesWith(s, i, prev, k).Some?
    ensures i <= k
  {
  }

  /** No comment or literal crosses a newline, so the scan arrives at every one. */
  lemma {:induction false} ArrivesAtNewline(s: string, i: nat, prev: string, k: nat)
    requires i <= k < |s| && s[k] == '\n'
    ensures ArrivesWith(s, i, prev, k).Some?
    decreases |s| - i
  {
    hide TurnAt;
    if i < k {
      var t := TurnAt(s, i, prev);
      ArrivesAtNewline(s, t.next, t.prev, k);
    }
  }

  /**
   * A `/` that starts a line, blanks aside, is kept as a division exactly when the last significant
   * character before the line is an operand: a newline starts no statement.
   */
  lemma LineStartSlash(s: string, newline: nat, k: nat)
    requires newline < k < |s| && s[newline] == '\n' && s[k] == '/'
    requires forall m | newline <= m < k :: IsSpace(s[m])
    ensures |CodeFrom(s, 0, "")| == |s| && ArrivesWith(s, 0, "", newline).Some?
    ensures CodeFrom(s, 0, "")[k] == '/' <==> Operand(ArrivesWith(s, 0, "", newline).value)
  {
    ArrivesAtNewline(s, 0, "", newline);
    BlanksKeepPrev(s, 0, "", newline, k);
    ArrivalDecides(s, 0, "", k);
    var prev := ArrivesWith(s, 0, "", newline).value;
    var all := CodeFrom(s, 0, "");
    assert all[k] == all[k - 0..][0] == CodeFrom(s, k, prev)[0];
  }

  const TWO_RULES := "NR\n/b*/{f()}"

  lemma TwoRulesTurns()
    ensures var s := TWO_RULES;
            TurnAt(s, 0, "") == Turn(1, "N", false) && TurnAt(s, 1, "N") == Turn(2, "R", false)
            && TurnAt(s, 2, "R") == Turn(3, "R", false) && TurnAt(s, 3, "R") == Turn(4, "/", false)
            && TurnAt(s, 4, "/") == Turn(5, "b", false) && TurnAt(s, 5, "b") == Turn(6, "*", false)
            && TurnAt(s, 6, "*") == Turn(12, ")", true)
  {
    assert PlainFrom(TWO_RULES, 7);
    NothingCloses(TWO_RULES, 7);
  }

  /** Two rules, the second a pattern on a line of its own: its action is blanked, and the pattern is not. */
  lemma LaterRegexHidesCode()
    ensures CodeFrom("NR\n/b*/{f()}", 0, "") == "NR\n/b*      "
  {
    hide TurnAt, CodeFrom, PlainFrom;
    var s := TWO_RULES;
    TwoRulesTurns();
    CodeStart(s, 0, "");
    CodeStart(s, 1, "N");
    CodeStart(s, 2, "R");
    CodeStart(s, 3, "R");
    CodeStart(s, 4, "/");
    CodeStart(s, 5, "b");
    CodeStart(s, 6, "*");
    CodeLength(s, 12, ")");
  }
}
