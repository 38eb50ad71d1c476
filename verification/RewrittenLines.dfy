/** Which lines of a document a rewrite of its citations changes. */
module RewrittenLines {
  import opened Ascii
  import opened Wrappers
  import opened Citations

  /** The lines of a text followed by those of another, the two joining on one line. */
  function Meet(a: seq<string>, b: seq<string>): seq<string>
    requires a != [] && b != []
  {
    a[..|a| - 1] + [a[|a| - 1] + b[0]] + b[1..]
  }

  /** One character more in front of the lines of a text. */
  function Grow(c: char, lines: seq<string>): (r: seq<string>)
    requires lines != []
    ensures r != []
  {
    if c == '\n' then [[]] + lines else [[c] + lines[0]] + lines[1..]
  }

  lemma LinesCons(s: string)
    requires s != []
    ensures Lines(s) == Grow(s[0], Lines(s[1..]))
  {
  }

  lemma GrowMeet(c: char, a: seq<string>, b: seq<string>)
    requires a != [] && b != []
    ensures Grow(c, Meet(a, b)) == Meet(Grow(c, a), b)
  {
    if c != '\n' && |a| == 1 { assert [c] + (a[0] + b[0]) == [c] + a[0] + b[0]; }
  }

  lemma MeetNothing(b: seq<string>)
    requires b != []
    ensures Meet([[]], b) == b
  {
    var first: string := [];
    assert first + b[0] == b[0];
  }

  /** Splitting a concatenation joins the last line of the one to the first of the other. */
  lemma {:induction false} LinesAppend(s: string, t: string)
    ensures Lines(s + t) == Meet(Lines(s), Lines(t))
  {
    hide Lines, Meet, Grow;
    if s == [] {
      assert s + t == t;
      NoLines();
      MeetNothing(Lines(t));
    } else {
      assert (s + t)[1..] == s[1..] + t;
      LinesAppend(s[1..], t);
      LinesCons(s + t);
      LinesCons(s);
      GrowMeet(s[0], Lines(s[1..]), Lines(t));
    }
  }

  lemma NoLines()
    ensures Lines([]) == [[]]
  {
  }

  /** Line `n` of a concatenation, counted from 0. */
  lemma LineOfAppend(s: string, t: string, n: nat)
    requires n <= Newlines(s) + Newlines(t)
    ensures n < |Lines(s + t)|
    ensures var k := Newlines(s);
            Lines(s + t)[n] == if n < k then Lines(s)[n]
                               else if n == k then Lines(s)[k] + Lines(t)[0]
                               else Lines(t)[n - k]
  {
    LinesAppend(s, t);
    NewlinesConcat(s, t);
  }

  /** A moved citation stands on line `n`, counted from 0. */
  predicate MovedOn(doc: Document, moves: Moves, n: int)
    requires |moves| == |Tokens(doc)|
  {
    if doc == [] then false
    else
      var after := n - Newlines(ShowPiece(doc[0]));
      if doc[0].Prose? then MovedOn(doc[1..], moves, after)
      else (moves[0].Some? && n == 0) || MovedOn(doc[1..], moves[1..], after)
  }

  /** A head piece that stays, or that moves on another line, leaves line `n` as the rest does. */
  lemma HeadKept(p: string, p': string, r: string, r': string, n: nat)
    requires Newlines(p) == Newlines(p') && Newlines(r) == Newlines(r') && n <= Newlines(p) + Newlines(r)
    requires p == p' || (Newlines(p) == 0 && n > 0)
    requires n >= Newlines(p) ==> Lines(r)[n - Newlines(p)] == Lines(r')[n - Newlines(p)]
    ensures n < |Lines(p + r)| && n < |Lines(p' + r')| && Lines(p + r)[n] == Lines(p' + r')[n]
  {
    LineOfAppend(p, r, n);
    LineOfAppend(p', r', n);
  }

  /**
   * Where no moved citation was written across a line break, a line that holds no moved citation reads
   * after the rewrite as it did before.
   */
  lemma {:induction false} UntouchedLineKept(doc: Document, moves: Moves, n: nat)
    requires |moves| == |Tokens(doc)| && !MovesAcrossLines(Tokens(doc), moves)
    requires forall p | p in doc && p.Token? :: '\n' !in p.path
    requires n <= Newlines(Render(doc)) && !MovedOn(doc, moves, n)
    ensures Newlines(Render(Repair(doc, moves))) == Newlines(Render(doc))
    ensures Lines(Render(Repair(doc, moves)))[n] == Lines(Render(doc))[n]
  {
    hide ShowPiece, MoveToken, Newlines, Lines, MovesAcrossLines;
    RepairLineCount(doc, moves);
    if doc != [] {
      var token := doc[0].Token?;
      var rest := if token then moves[1..] else moves;
      var doc' := Repair(doc, moves);
      assert doc'[1..] == Repair(doc[1..], rest);
      assert doc[0] in doc && forall p | p in doc[1..] :: p in doc;
      if token {
        MovesAcrossLinesStep(Tokens(doc), moves);
        MovedTokenLines(doc[0], moves[0]);
        NewlinesNone(ShowPiece(doc[0]));
        StaysSame(doc[0], moves[0]);
        assert Tokens(doc)[1..] == Tokens(doc[1..]);
      } else {
        assert Tokens(doc) == Tokens(doc[1..]);
      }
      var p, p', r, r' := ShowPiece(doc[0]), ShowPiece(doc'[0]), Render(doc[1..]), Render(doc'[1..]);
      NewlinesConcat(p, r);
      RepairLineCount(doc[1..], rest);
      if n >= Newlines(p) { UntouchedLineKept(doc[1..], rest, n - Newlines(p)); }
      HeadKept(p, p', r, r', n);
    }
  }

  lemma StaysSame(t: Piece, move: Option<seq<Anchor>>)
    requires t.Token?
    ensures move.None? ==> MoveToken(t, move) == t
  {
  }
}
