/**
 * The lexer of `scripts/check-dispatch.py`: comments and literals are removed, and every character
 * that stays keeps its line.
 */
module DispatchLexer {
  import opened Ascii
  import opened Wrappers

  // ---- Apostrophes --------------------------------------------------------------------------

  /** The closing quote at or after `k`, if one comes before the next unescaped newline. */
  function CloserFrom(text: string, quote: char, k: nat): (r: Option<nat>)
    ensures r.Some? ==> k <= r.value < |text|
    decreases |text| - k
  {
    if k >= |text| || text[k] == '\n' then None
    else if text[k] == '\\' && k + 1 < |text| then CloserFrom(text, quote, k + 2)
    else if text[k] == quote then Some(k)
    else CloserFrom(text, quote, k + 1)
  }

  /** `_closes_on_this_line` */
  method ClosesOnThisLine(text: string, i: nat) returns (closes: bool)
    requires i < |text|
    ensures closes == CloserFrom(text, text[i], i + 1).Some?
  {
    var quote := text[i];
    var k := i + 1;
    while k < |text| && text[k] != '\n'
      invariant CloserFrom(text, quote, k) == CloserFrom(text, quote, i + 1)
      decreases |text| - k
    {
      if text[k] == '\\' && k + 1 < |text| {
        k := k + 2;
        continue;
      }
      if text[k] == quote { return true; }
      k := k + 1;
    }
    return false;
  }

  predicate InNumber(c: char) { IsAlnum(c) || c == '\'' || c == '.' }

  /** Where the token that ends before `i` starts. */
  function TokenStart(text: string, i: nat): (j: nat)
    requires i <= |text|
    ensures j <= i && (forall k | j <= k < i :: InNumber(text[k])) && (j > 0 ==> !InNumber(text[j - 1]))
  {
    if i == 0 || !InNumber(text[i - 1]) then i else TokenStart(text, i - 1)
  }

  /** A token that begins a number: a digit, or a dot and a digit. */
  predicate DigitSeparator(text: string, i: nat)
    requires i < |text|
  {
    var start := TokenStart(text, i);
    && i + 1 < |text| && IsAlnum(text[i + 1])
    && start < i
    && (IsDigit(text[start]) || (text[start] == '.' && start + 1 < i && IsDigit(text[start + 1])))
  }

  /** `_is_digit_separator` */
  method IsDigitSeparator(text: string, i: nat) returns (r: bool)
    requires i < |text|
    ensures r == DigitSeparator(text, i)
  {
    if i == 0 || i + 1 >= |text| { return false; }
    if !IsAlnum(text[i + 1]) { return false; }
    var j := i - 1;
    while j >= 0 && InNumber(text[j])
      invariant -1 <= j < i && TokenStart(text, j + 1) == TokenStart(text, i)
    {
      j := j - 1;
    }
    var start := j + 1;
    if start >= i { return false; }
    if IsDigit(text[start]) { return true; }
    return text[start] == '.' && start + 1 < i && IsDigit(text[start + 1]);
  }

  /** Where a literal opened before `j` ends; past the text when an escape is its last character. */
  function LiteralEnd(text: string, quote: char, j: nat): (e: nat)
    ensures j <= |text| ==> j <= e <= |text| + 1
    decreases |text| - j
  {
    if j >= |text| then j
    else if text[j] == '\\' then LiteralEnd(text, quote, j + 2)
    else if text[j] == quote then j + 1
    else LiteralEnd(text, quote, j + 1)
  }

  /**
   * A literal that closes on its line ends exactly at that closer, and the only newlines it
   * crosses are escaped ones.
   */
  lemma {:induction false} LiteralEndsAtCloser(text: string, quote: char, k: nat)
    requires quote != '\\' && CloserFrom(text, quote, k).Some?
    ensures var c := CloserFrom(text, quote, k).value;
            && text[c] == quote
            && LiteralEnd(text, quote, k) == c + 1
            && forall p | k <= p < c && text[p] == '\n' :: p > k && text[p - 1] == '\\'
    decreases |text| - k
  {
    if text[k] == '\\' && k + 1 < |text| {
      LiteralEndsAtCloser(text, quote, k + 2);
    } else if text[k] != quote {
      LiteralEndsAtCloser(text, quote, k + 1);
    }
  }

  // ---- The scan -----------------------------------------------------------------------------

  /** `text.find(c, i)`, or the end. */
  function FindChar(text: string, c: char, i: nat): (j: nat)
    requires i <= |text|
    ensures i <= j <= |text|
    decreases |text| - i
  {
    if i == |text| || text[i] == c then i else FindChar(text, c, i + 1)
  }

  /** Past the next end of a block comment at or after `i`, or the end. */
  function CommentEnd(text: string, i: nat): (j: nat)
    requires i <= |text|
    ensures i <= j <= |text|
    decreases |text| - i
  {
    if i + 1 >= |text| then |text|
    else if text[i] == '*' && text[i + 1] == '/' then i + 2
    else CommentEnd(text, i + 1)
  }

  /** What the scan does at a position: keep the character, or remove everything before `next`. */
  datatype Action = Keep | Remove(next: nat)

  function ActionAt(text: string, i: nat): (a: Action)
    requires i < |text|
    ensures a.Remove? ==> i < a.next <= |text| + 1
  {
    var c, next := text[i], if i + 1 < |text| then text[i + 1] else ' ';
    if c == '/' && next == '/' then Remove(FindChar(text, '\n', i + 1))
    else if c == '/' && next == '*' then Remove(CommentEnd(text, i + 2))
    else if c == '\'' && (DigitSeparator(text, i) || CloserFrom(text, c, i + 1).None?) then Keep
    else if c == '"' || c == '\'' then Remove(LiteralEnd(text, c, i + 1))
    else Keep
  }

  /** The positions of the newlines of `[i, j)`. */
  function NewlinesIn(text: string, i: nat, j: nat): seq<nat>
    requires i <= |text|
    decreases |text| - i
  {
    if i >= j || i == |text| then []
    else (if text[i] == '\n' then [i] else []) + NewlinesIn(text, i + 1, j)
  }

  /** The source positions of the characters the scan emits from `i` on. */
  function Positions(text: string, i: nat): seq<nat>
    decreases |text| - i
  {
    if i >= |text| then []
    else
      match ActionAt(text, i)
      case Keep => [i] + Positions(text, i + 1)
      case Remove(next) => NewlinesIn(text, i, next) + Positions(text, next)
  }

  /** The characters at some positions. */
  function Select(text: string, ps: seq<nat>): (s: string)
    requires forall k | 0 <= k < |ps| :: ps[k] < |text|
    ensures |s| == |ps| && forall k | 0 <= k < |ps| :: s[k] == text[ps[k]]
  {
    seq(|ps|, k requires 0 <= k < |ps| => text[ps[k]])
  }

  /** `"\n" * text.count("\n", i, j)` */
  function Breaks(text: string, i: nat, j: nat): string
    requires i <= |text|
  {
    seq(|NewlinesIn(text, i, j)|, _ => '\n')
  }

  lemma {:induction false} NewlinesInRange(text: string, i: nat, j: nat)
    requires i <= |text|
    ensures forall k | 0 <= k < |NewlinesIn(text, i, j)| ::
              var p := NewlinesIn(text, i, j)[k]; i <= p < j && p < |text| && text[p] == '\n'
    decreases |text| - i
  {
    if i < j && i < |text| { NewlinesInRange(text, i + 1, j); }
  }

  lemma {:induction false} PositionsInRange(text: string, i: nat)
    ensures forall k | 0 <= k < |Positions(text, i)| :: i <= Positions(text, i)[k] < |text|
    decreases |text| - i
  {
    if i < |text| {
      match ActionAt(text, i)
      case Keep => PositionsInRange(text, i + 1);
      case Remove(next) =>
        NewlinesInRange(text, i, next);
        PositionsInRange(text, next);
    }
  }

  /** `strip_comments_and_strings` */
  method StripCommentsAndStrings(text: string) returns (out: string)
    ensures (forall k | 0 <= k < |Positions(text, 0)| :: Positions(text, 0)[k] < |text|)
    ensures out == Select(text, Positions(text, 0))
  {
    out := "";
    var i := 0;
    ghost var done: seq<nat> := [];
    PositionsInRange(text, 0);
    while i < |text|
      invariant 0 <= i <= |text| + 1
      invariant done + Positions(text, i) == Positions(text, 0)
      invariant forall k | 0 <= k < |done| :: done[k] < |text|
      invariant out == Select(text, done)
      decreases |text| - i
    {
      hide Positions, ActionAt, Select;
      PositionsStep(done, text, i);
      var next, keep := ScanAt(text, i);
      if keep {
        SelectAppend(text, done, [i]);
        SelectOne(text, i);
        done := done + [i];
        out := out + [text[i]];
      } else {
        SelectBreaks(text, i, next);
        SelectAppend(text, done, NewlinesIn(text, i, next));
        done := done + NewlinesIn(text, i, next);
        out := out + Breaks(text, i, next);
      }
      i := next;
    }
    assert done == Positions(text, 0);
  }

  lemma PositionsStep(done: seq<nat>, text: string, i: nat)
    requires i < |text|
    ensures done + Positions(text, i) == match ActionAt(text, i)
                                         case Keep => done + [i] + Positions(text, i + 1)
                                         case Remove(next) => done + NewlinesIn(text, i, next) + Positions(text, next)
  {
    hide ActionAt, NewlinesIn;
    match ActionAt(text, i)
    case Keep => assert done + ([i] + Positions(text, i + 1)) == done + [i] + Positions(text, i + 1);
    case Remove(next) =>
      assert done + (NewlinesIn(text, i, next) + Positions(text, next))
        == done + NewlinesIn(text, i, next) + Positions(text, next);
  }

  lemma SelectAppend(text: string, ps: seq<nat>, qs: seq<nat>)
    requires forall k | 0 <= k < |ps| :: ps[k] < |text|
    requires forall k | 0 <= k < |qs| :: qs[k] < |text|
    ensures forall k | 0 <= k < |ps + qs| :: (ps + qs)[k] < |text|
    ensures Select(text, ps + qs) == Select(text, ps) + Select(text, qs)
  {
  }

  lemma SelectOne(text: string, i: nat)
    requires i < |text|
    ensures Select(text, [i]) == [text[i]]
  {
  }

  /** The newlines of a removed stretch are what the scan writes for it. */
  lemma SelectBreaks(text: string, i: nat, j: nat)
    requires i <= |text|
    ensures forall k | 0 <= k < |NewlinesIn(text, i, j)| :: NewlinesIn(text, i, j)[k] < |text|
    ensures Select(text, NewlinesIn(text, i, j)) == Breaks(text, i, j)
  {
    NewlinesInRange(text, i, j);
  }

  /** One turn of the loop. */
  method ScanAt(text: string, i: nat) returns (next: nat, keep: bool)
    requires i < |text|
    ensures ActionAt(text, i) == if keep then Keep else Remove(next)
    ensures keep ==> next == i + 1
    ensures i < next <= |text| + 1
  {
    var c := text[i];
    var after := if i + 1 < |text| then text[i + 1] else ' ';
    if c == '/' && after == '/' { return FindChar(text, '\n', i + 1), false; }
    if c == '/' && after == '*' { return CommentEnd(text, i + 2), false; }
    if c == '\'' {
      var separator := IsDigitSeparator(text, i);
      var closes := ClosesOnThisLine(text, i);
      if separator || !closes { return i + 1, true; }
    }
    if c == '"' || c == '\'' {
      var j := i + 1;
      while j < |text|
        invariant i < j <= |text| + 1
        invariant LiteralEnd(text, c, j) == LiteralEnd(text, c, i + 1)
        decreases |text| - j
      {
        if text[j] == '\\' {
          j := j + 2;
          continue;
        }
        if text[j] == c { return j + 1, false; }
        j := j + 1;
      }
      return j, false;
    }
    return i + 1, true;
  }

  // ---- Coordinates --------------------------------------------------------------------------

  /**
   * The characters at `ps` stand for `[i, j)` of the text without moving a line: they are in
   * order, as many newlines come before each as in the text, and as many in all.
   */
  ghost predicate Faithful(text: string, i: nat, j: nat, ps: seq<nat>)
    requires i <= j <= |text|
  {
    && (forall k | 0 <= k < |ps| :: i <= ps[k] < j)
    && (forall k, l | 0 <= k < l < |ps| :: ps[k] < ps[l])
    && (forall k | 0 <= k < |ps| :: Newlines(Select(text, ps[..k])) == Newlines(text[i..ps[k]]))
    && Newlines(Select(text, ps)) == Newlines(text[i..j])
  }

  lemma NewlinesSplit(text: string, i: nat, m: nat, j: nat)
    requires i <= m <= j <= |text|
    ensures Newlines(text[i..j]) == Newlines(text[i..m]) + Newlines(text[m..j])
  {
    assert text[i..j] == text[i..m] + text[m..j];
    NewlinesConcat(text[i..m], text[m..j]);
  }

  lemma SelectConcat(text: string, ps: seq<nat>, qs: seq<nat>)
    requires forall k | 0 <= k < |ps| :: ps[k] < |text|
    requires forall k | 0 <= k < |qs| :: qs[k] < |text|
    ensures forall k | 0 <= k < |ps + qs| :: (ps + qs)[k] < |text|
    ensures Newlines(Select(text, ps + qs)) == Newlines(Select(text, ps)) + Newlines(Select(text, qs))
  {
    assert Select(text, ps + qs) == Select(text, ps) + Select(text, qs);
    NewlinesConcat(Select(text, ps), Select(text, qs));
  }

  /** Faithful stretches join. */
  lemma FaithfulConcat(text: string, i: nat, m: nat, j: nat, ps: seq<nat>, qs: seq<nat>)
    requires i <= m <= j <= |text| && Faithful(text, i, m, ps) && Faithful(text, m, j, qs)
    ensures Faithful(text, i, j, ps + qs)
  {
    hide Newlines;
    var all := ps + qs;
    SelectConcat(text, ps, qs);
    NewlinesSplit(text, i, m, j);
    forall k | 0 <= k < |all| ensures Newlines(Select(text, all[..k])) == Newlines(text[i..all[k]]) {
      if k < |ps| {
        assert all[..k] == ps[..k];
      } else {
        var l := k - |ps|;
        assert all[..k] == ps + qs[..l] && all[k] == qs[l];
        SelectConcat(text, ps, qs[..l]);
        NewlinesSplit(text, i, m, qs[l]);
      }
    }
  }

  lemma FaithfulKeep(text: string, i: nat)
    requires i < |text|
    ensures Faithful(text, i, i + 1, [i])
  {
    assert Select(text, [i]) == [text[i]] == text[i..i + 1];
    assert Select(text, [i][..0]) == [] == text[i..i];
  }

  lemma FaithfulDrop(text: string, i: nat)
    requires i < |text| && text[i] != '\n'
    ensures Faithful(text, i, i + 1, [])
  {
    assert Select(text, []) == [];
    assert text[i..i + 1] == [text[i]];
    NewlinesNone(text[i..i + 1]);
  }

  lemma FaithfulEmpty(text: string, i: nat)
    requires i <= |text|
    ensures Faithful(text, i, i, [])
  {
    assert Select(text, []) == [] == text[i..i];
  }

  /** A removed stretch that leaves its newlines is faithful. */
  lemma {:induction false} FaithfulNewlines(text: string, i: nat, j: nat)
    requires i <= j <= |text|
    ensures Faithful(text, i, j, NewlinesIn(text, i, j))
    decreases j - i
  {
    hide Faithful;
    if i == j {
      FaithfulEmpty(text, i);
    } else {
      FaithfulNewlines(text, i + 1, j);
      if text[i] == '\n' {
        FaithfulKeep(text, i);
        FaithfulConcat(text, i, i + 1, j, [i], NewlinesIn(text, i + 1, j));
      } else {
        FaithfulDrop(text, i);
        FaithfulConcat(text, i, i + 1, j, [], NewlinesIn(text, i + 1, j));
      }
    }
  }

  lemma {:induction false} NewlinesPastEnd(text: string, i: nat, j: nat)
    requires i <= |text| <= j
    ensures NewlinesIn(text, i, j) == NewlinesIn(text, i, |text|)
    decreases |text| - i
  {
    if i < |text| { NewlinesPastEnd(text, i + 1, j); }
  }

  lemma {:induction false} PositionsFaithful(text: string, i: nat)
    requires i <= |text|
    ensures Faithful(text, i, |text|, Positions(text, i))
    decreases |text| - i
  {
    hide Faithful, NewlinesIn;
    if i == |text| {
      FaithfulEmpty(text, i);
    } else {
      match ActionAt(text, i)
      case Keep =>
        PositionsFaithful(text, i + 1);
        FaithfulKeep(text, i);
        FaithfulConcat(text, i, i + 1, |text|, [i], Positions(text, i + 1));
      case Remove(next) =>
        if next <= |text| {
          PositionsFaithful(text, next);
          FaithfulNewlines(text, i, next);
          FaithfulConcat(text, i, next, |text|, NewlinesIn(text, i, next), Positions(text, next));
        } else {
          NewlinesPastEnd(text, i, next);
          FaithfulNewlines(text, i, |text|);
          assert Positions(text, i) == NewlinesIn(text, i, |text|);
        }
    }
  }

  /** `text.count("\n", 0, k) + 1`: the line a match at `k` is reported on. */
  function LineAt(text: string, k: nat): nat
    requires k <= |text|
  {
    Newlines(text[..k]) + 1
  }

  /** The first line is line 1, and the next begins behind each newline. */
  lemma LinesFromOne(text: string, k: nat)
    requires k < |text|
    ensures LineAt(text, 0) == 1
    ensures LineAt(text, k + 1) == LineAt(text, k) + if text[k] == '\n' then 1 else 0
  {
    NewlinesConcat(text[..k], [text[k]]);
    assert text[..k + 1] == text[..k] + [text[k]];
  }

  /**
   * Lexing keeps coordinates: what is left is a subsequence of the source, with every newline of
   * it, and a match found in it is reported on the line its characters stand on in the source.
   */
  lemma LinesKept(text: string, k: nat)
    requires k < |Positions(text, 0)|
    ensures var ps := Positions(text, 0);
            && (forall l | 0 <= l < |ps| :: ps[l] < |text|)
            && (forall l, m | 0 <= l < m < |ps| :: ps[l] < ps[m])
            && Newlines(Select(text, ps)) == Newlines(text)
            && LineAt(Select(text, ps), k) == LineAt(text, ps[k])
  {
    var ps := Positions(text, 0);
    PositionsFaithful(text, 0);
    assert text[0..|text|] == text && text[0..ps[k]] == text[..ps[k]];
    assert Select(text, ps)[..k] == Select(text, ps[..k]);
  }
}
