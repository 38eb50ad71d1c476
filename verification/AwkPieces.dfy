/** The blanking of an awk program, told from the pieces the program is written with. */
module AwkPieces {
  import opened Ascii
  import opened AwkText

  /** A stretch of a program; literals are given without their delimiters, comments without their `#`. */
  datatype Part = Code(text: string) | Comment(text: string) | Text(body: string) | Pattern(body: string) | Division

  /** Characters as they are, except that a backslash takes the next one with it; nothing crosses a line. */
  predicate Escaped(body: string, close: char)
    decreases |body|
  {
    body == ""
    || (body[0] == '\\' && |body| >= 2 && body[1] != '\n' && Escaped(body[2..], close))
    || (body[0] != '\\' && body[0] != close && body[0] != '\n' && Escaped(body[1..], close))
  }

  function Written(p: Part): (s: string)
    ensures !p.Code? ==> s != ""
  {
    match p
    case Code(text) => text
    case Comment(text) => "#" + text
    case Text(body) => "\"" + (body + "\"")
    case Pattern(body) => "/" + (body + "/")
    case Division => "/"
  }

  function Program(ps: seq<Part>): string { if ps == [] then "" else Written(ps[0]) + Program(ps[1..]) }

  /** What one part becomes. */
  function BlankedPart(p: Part): string {
    if p.Code? || p.Division? then Written(p) else Spaces(|Written(p)|)
  }

  /** The program with everything but code and divisions blanked. */
  function Blanked(ps: seq<Part>): string {
    if ps == [] then ""
    else BlankedPart(ps[0]) + Blanked(ps[1..])
  }

  /** The last character of code that is no blank; a literal counts as an operand. */
  function Last(p: Part, prev: string): string {
    match p
    case Code(text) => LastOf(text, prev)
    case Comment(_) => prev
    case Text(_) => ")"
    case Pattern(_) => ")"
    case Division => "/"
  }

  function LastOf(text: string, prev: string): string {
    if text == "" then prev else LastOf(text[1..], if IsSpace(text[0]) then prev else [text[0]])
  }

  /** What may follow what: a pattern nothing it could divide, a division an operand, a comment a line end. */
  predicate Fits(ps: seq<Part>, prev: string) {
    ps == []
    || (Fits(ps[1..], Last(ps[0], prev))
        && match ps[0]
           case Code(text) => forall k | 0 <= k < |text| :: text[k] !in "#\"/"
           case Comment(text) => '\n' !in text && (Program(ps[1..]) == "" || Program(ps[1..])[0] == '\n')
           case Text(body) => Escaped(body, '"')
           case Pattern(body) => Escaped(body, '/') && !Operand(prev)
           case Division => Operand(prev))
  }

  // ---- One part -----------------------------------------------------------------------------

  lemma {:induction false} CommentRead(s: string, i: nat, n: nat)
    requires i + n <= |s| && (forall k | i <= k < i + n :: s[k] != '\n') && (i + n < |s| ==> s[i + n] == '\n')
    ensures CommentEnd(s, i) == i + n
    decreases n
  {
    if n > 0 { CommentRead(s, i + 1, n - 1); }
  }

  lemma {:induction false} LiteralRead(s: string, close: char, i: nat, body: string)
    requires i + |body| < |s| && s[i..i + |body|] == body && s[i + |body|] == close && close != '\n' && close != '\\'
    requires Escaped(body, close)
    ensures LiteralEnd(s, close, i) == i + |body| + 1
    decreases |body|
  {
    if body != "" {
      assert s[i] == body[0];
      if body[0] == '\\' {
        assert s[i + 1] == body[1] && s[i + 2..i + |body|] == body[2..];
        LiteralRead(s, close, i + 2, body[2..]);
      } else {
        assert s[i + 1..i + |body|] == body[1..];
        LiteralRead(s, close, i + 1, body[1..]);
      }
    }
  }

  lemma {:induction false} CodeRead(s: string, i: nat, text: string, prev: string)
    requires i + |text| <= |s| && s[i..i + |text|] == text && forall k | 0 <= k < |text| :: text[k] !in "#\"/"
    ensures CodeFrom(s, i, prev) == text + CodeFrom(s, i + |text|, LastOf(text, prev))
    decreases |text|
  {
    hide IsSpace, CodeFrom;
    if text == "" {
      assert text + CodeFrom(s, i, prev) == CodeFrom(s, i, prev);
    } else {
      assert s[i] == text[0] && s[i + 1..i + |text|] == text[1..];
      var next := if IsSpace(s[i]) then prev else [s[i]];
      CodeRead(s, i + 1, text[1..], next);
      CodeStart(s, i, prev);
      assert TurnAt(s, i, prev) == Turn(i + 1, next, false);
      assert [text[0]] + (text[1..] + CodeFrom(s, i + |text|, LastOf(text, prev)))
          == text + CodeFrom(s, i + |text|, LastOf(text, prev));
    }
  }

  lemma PartTurn(s: string, i: nat, p: Part, rest: string, prev: string)
    requires i <= |s| && s[i..] == Written(p) + rest && !p.Code?
    requires p.Comment? ==> '\n' !in p.text && (rest == "" || rest[0] == '\n')
    requires p.Text? ==> Escaped(p.body, '"')
    requires p.Pattern? ==> Escaped(p.body, '/') && !Operand(prev)
    requires p.Division? ==> Operand(prev)
    ensures i < |s| && TurnAt(s, i, prev) == Turn(i + |Written(p)|, Last(p, prev), !p.Division?)
  {
    hide Operand, Escaped, CommentEnd, LiteralEnd;
    var w := Written(p);
    assert s[i] == s[i..][0] == w[0];
    match p
    case Comment(text) => CommentWhole(s, i, text, rest);
    case Text(body) =>
      BodyPlaces(s, i, '"', body, rest);
      LiteralRead(s, '"', i + 1, body);
    case Pattern(body) =>
      BodyPlaces(s, i, '/', body, rest);
      LiteralRead(s, '/', i + 1, body);
    case Division =>
  }

  lemma CommentWhole(s: string, i: nat, text: string, rest: string)
    requires i <= |s| && s[i..] == "#" + text + rest && '\n' !in text && (rest == "" || rest[0] == '\n')
    ensures CommentEnd(s, i) == i + 1 + |text|
  {
    hide CommentEnd;
    var w := "#" + text;
    assert forall k | 0 <= k < |w| :: s[i + k] == s[i..][k] == w[k];
    forall k | i <= k < i + |w| ensures s[k] != '\n' { if k > i { assert s[k] == w[k - i] == text[k - i - 1]; } }
    assert i + |w| < |s| ==> s[i + |w|] == s[i..][|w|] == rest[0];
    CommentRead(s, i, |w|);
  }

  /** Where a literal's characters stand. */
  lemma BodyPlaces(s: string, i: nat, mark: char, body: string, rest: string)
    requires i <= |s| && s[i..] == [mark] + (body + [mark]) + rest
    ensures i + 1 + |body| < |s| && s[i + 1..i + 1 + |body|] == body && s[i + 1 + |body|] == mark
  {
    var w := [mark] + (body + [mark]);
    assert s[i + 1 + |body|] == s[i..][1 + |body|] == w[1 + |body|];
    forall k | 0 <= k < |body| ensures s[i + 1 + k] == body[k] { assert s[i + 1 + k] == s[i..][1 + k] == w[1 + k]; }
  }

  // ---- A program ----------------------------------------------------------------------------

  lemma {:induction false} PartsRead(s: string, i: nat, ps: seq<Part>, prev: string)
    requires i <= |s| && s[i..] == Program(ps) && Fits(ps, prev)
    ensures CodeFrom(s, i, prev) == Blanked(ps)
    decreases |ps|
  {
    hide CodeFrom, TurnAt, Operand, Escaped, Last, Written;
    if ps == [] {
      NothingLeft(s, prev);
    } else {
      var w := Written(ps[0]);
      assert s[i + |w|..] == s[i..][|w|..] == Program(ps[1..]);
      PartsRead(s, i + |w|, ps[1..], Last(ps[0], prev));
      PartRead(s, i, ps[0], Program(ps[1..]), prev);
    }
  }

  lemma PartRead(s: string, i: nat, p: Part, rest: string, prev: string)
    requires i <= |s| && s[i..] == Written(p) + rest
    requires p.Code? ==> forall k | 0 <= k < |p.text| :: p.text[k] !in "#\"/"
    requires p.Comment? ==> '\n' !in p.text && (rest == "" || rest[0] == '\n')
    requires p.Text? ==> Escaped(p.body, '"')
    requires p.Pattern? ==> Escaped(p.body, '/') && !Operand(prev)
    requires p.Division? ==> Operand(prev)
    ensures i + |Written(p)| <= |s|
    ensures CodeFrom(s, i, prev) == BlankedPart(p) + CodeFrom(s, i + |Written(p)|, Last(p, prev))
  {
    hide CodeFrom, TurnAt, Operand, Escaped, Last;
    var w := Written(p);
    if p.Code? {
      assert s[i..i + |w|] == s[i..][..|w|] == w;
      CodeRead(s, i, w, prev);
      LastIs(p, prev);
    } else {
      PartTurn(s, i, p, rest, prev);
      CodeStart(s, i, prev);
      DivisionIs(p, s, i);
    }
  }

  lemma NothingLeft(s: string, prev: string)
    ensures CodeFrom(s, |s|, prev) == ""
  {
  }

  lemma LastIs(p: Part, prev: string)
    requires p.Code?
    ensures Last(p, prev) == LastOf(p.text, prev)
  {
  }

  lemma DivisionIs(p: Part, s: string, i: nat)
    requires i < |s| && !p.Code? && |s[i..]| >= |Written(p)| && s[i..][..|Written(p)|] == Written(p)
    ensures p.Division? ==> [s[i]] == Written(p)
  {
    assert s[i] == s[i..][..|Written(p)|][0];
  }

  /**
   * Every program written in pieces that fit: comments, strings and patterns are blanked, each character
   * by a space, and code and divisions are kept. At the start of a file nothing has come before, which
   * counts as an operand.
   */
  lemma PiecesBlanked(ps: seq<Part>)
    requires Fits(ps, "")
    ensures CodeFrom(Program(ps), 0, "") == Blanked(ps)
  {
    assert Program(ps)[0..] == Program(ps);
    PartsRead(Program(ps), 0, ps, "");
  }

  /** An operand ends with a letter, a digit, an underscore or a closing bracket; so does nothing at all. */
  lemma OperandIff(prev: string)
    requires |prev| <= 1
    ensures Operand(prev)
            <==> prev == "" || 'a' <= prev[0] <= 'z' || 'A' <= prev[0] <= 'Z' || '0' <= prev[0] <= '9'
                 || prev[0] in "_)]"
  {
  }
}
