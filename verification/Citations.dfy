/**
 * Citations as `scripts/check-citations.py` reads and writes them: anchor lists, and documents as
 * prose interleaved with the citations the tool owns.
 */
module Citations {
  import opened Ascii
  import opened Wrappers
  import D = Decimal
  import opened Splice

  /** `10` or `10-20`. */
  datatype Anchor = Anchor(a: int, b: Option<int>)

  // ---- Anchor lists -------------------------------------------------------------------------
  /** `f"{na}-{nb}" if nb else f"{na}"` */
  function ShowAnchor(x: Anchor): string {
    D.ShowInt(x.a) + (if x.b.Some? && x.b.value != 0 then "-" + D.ShowInt(x.b.value) else "")
  }

  /** The anchors joined by a comma and a space. */
  function ShowAnchors(xs: seq<Anchor>): string {
    if xs == [] then ""
    else if |xs| == 1 then ShowAnchor(xs[0])
    else ShowAnchor(xs[0]) + ", " + ShowAnchors(xs[1..])
  }

  /** `(\d+)(?:-(\d+))?` at the front of `s`, which starts with a digit: the anchor and its length. */
  function ReadAnchor(s: string): (r: (Anchor, nat))
    requires s != [] && IsDigit(s[0])
    ensures 0 < r.1 <= |s|
  {
    var n := RunLength(s, IsDigit);
    var rest := s[n..];
    if |rest| >= 2 && rest[0] == '-' && IsDigit(rest[1]) then
      var m := RunLength(rest[1..], IsDigit);
      (Anchor(D.Read(s[..n]), Some(D.Read(rest[1..][..m]))), n + 1 + m)
    else (Anchor(D.Read(s[..n]), None), n)
  }

  /** `ANCHOR.finditer` over an anchor list. */
  function ReadAnchors(s: string): seq<Anchor>
    decreases |s|
  {
    if s == [] then []
    else if IsDigit(s[0]) then
      var (x, n) := ReadAnchor(s);
      [x] + ReadAnchors(s[n..])
    else ReadAnchors(s[1..])
  }

  /** An anchor whose printed form is read back as itself: no sign, and no range ending at 0. */
  predicate Printable(x: Anchor) { x.a >= 0 && (x.b.Some? ==> x.b.value > 0) }

  /** A printed number at the front of a string is the string's run of digits. */
  lemma ShownNumberFront(n: nat, rest: string)
    requires rest == [] || !IsDigit(rest[0])
    ensures var s, k := D.Show(n) + rest, |D.Show(n)|;
            s != [] && IsDigit(s[0]) && RunLength(s, IsDigit) == k && D.Read(s[..k]) == n && s[k..] == rest
  {
    var s := D.Show(n) + rest;
    D.ReadShow(n);
    RunLengthUnique(s, IsDigit, |D.Show(n)|);
    assert s[..|D.Show(n)|] == D.Show(n);
  }

  lemma ReadShownLine(x: Anchor, rest: string)
    requires Printable(x) && x.b.None?
    requires rest == [] || rest[0] == ','
    ensures var s := D.Show(x.a) + rest; s != [] && IsDigit(s[0]) && ReadAnchor(s) == (x, |D.Show(x.a)|)
  {
    hide D.Show, D.Read, RunLength;
    ShownNumberFront(x.a, rest);
  }

  lemma ReadShownRange(x: Anchor, rest: string)
    requires Printable(x) && x.b.Some?
    requires rest == [] || rest[0] == ','
    ensures var s := D.Show(x.a) + ("-" + (D.Show(x.b.value) + rest));
            s != [] && IsDigit(s[0]) && ReadAnchor(s) == (x, |D.Show(x.a)| + 1 + |D.Show(x.b.value)|)
  {
    hide D.Show, D.Read, RunLength;
    var end := D.Show(x.b.value) + rest;
    var tail := "-" + end;
    ShownNumberFront(x.a, tail);
    ShownNumberFront(x.b.value, rest);
    assert tail[1..] == end && tail[1] == end[0];
  }

  lemma ReadShownAnchor(x: Anchor, rest: string)
    requires Printable(x)
    requires rest == [] || rest[0] == ','
    ensures var s := ShowAnchor(x) + rest;
            s != [] && IsDigit(s[0]) && ReadAnchor(s) == (x, |ShowAnchor(x)|)
  {
    hide D.Show, ReadAnchor;
    if x.b.Some? {
      assert ShowAnchor(x) + rest == D.Show(x.a) + ("-" + (D.Show(x.b.value) + rest));
      ReadShownRange(x, rest);
    } else {
      assert ShowAnchor(x) == D.Show(x.a);
      ReadShownLine(x, rest);
    }
  }

  /** Reading an anchor list is reading its first anchor and then the others. */
  lemma ReadFirstAnchor(x: Anchor, rest: string)
    requires Printable(x)
    requires rest == [] || rest[0] == ','
    ensures ReadAnchors(ShowAnchor(x) + rest) == [x] + ReadAnchors(rest)
  {
    hide ShowAnchor, ReadAnchor;
    ReadShownAnchor(x, rest);
    assert (ShowAnchor(x) + rest)[|ShowAnchor(x)|..] == rest;
  }

  lemma ReadSeparator(rest: string)
    ensures ReadAnchors(", " + rest) == ReadAnchors(rest)
  {
    assert (", " + rest)[1..] == " " + rest;
    assert (" " + rest)[1..] == rest;
  }

  /** The anchors read back from a rebuilt citation are the anchors it was built from. */
  lemma {:induction false} ReadShownAnchors(xs: seq<Anchor>)
    requires forall x | x in xs :: Printable(x)
    ensures ReadAnchors(ShowAnchors(xs)) == xs
  {
    hide ShowAnchor, ReadAnchor;
    if |xs| == 1 {
      ReadFirstAnchor(xs[0], "");
      assert ShowAnchor(xs[0]) + "" == ShowAnchors(xs);
    } else if |xs| > 1 {
      var others := ShowAnchors(xs[1..]);
      ReadFirstAnchor(xs[0], ", " + others);
      assert ShowAnchor(xs[0]) + (", " + others) == ShowAnchors(xs);
      ReadSeparator(others);
      assert forall x | x in xs[1..] :: x in xs;
      ReadShownAnchors(xs[1..]);
    }
  }

  /** Printed anchors stay on one line. */
  lemma {:induction false} ShownAnchorsOneLine(xs: seq<Anchor>)
    ensures '\n' !in ShowAnchors(xs)
  {
    if xs != [] {
      assert forall n: nat {:trigger D.Show(n)} :: '\n' !in D.Show(n);
      ShownAnchorsOneLine(xs[1..]);
    }
  }

  // ---- Documents ----------------------------------------------------------------------------

  /**
   * A stretch of a document: text the tool does not own, or a citation it does. `spelled` is the
   * path as the document writes it, `path` the tracked path `classify` found it to name, and
   * `list` the anchor list as written.
   */
  datatype Piece = Prose(text: string) | Token(spelled: string, path: string, list: string)

  type Document = seq<Piece>

  function ShowPiece(p: Piece): string {
    match p
    case Prose(text) => text
    case Token(spelled, _, list) => spelled + ":" + list
  }

  /** The text of a document. */
  function Render(doc: Document): string {
    if doc == [] then "" else ShowPiece(doc[0]) + Render(doc[1..])
  }

  /** The citations of a document, in order. */
  function Tokens(doc: Document): (r: seq<Piece>)
    ensures forall k | 0 <= k < |r| :: r[k].Token?
  {
    if doc == [] then [] else (if doc[0].Token? then [doc[0]] else []) + Tokens(doc[1..])
  }

  /** One element of what `citations(text)` returns. */
  datatype Citation = Citation(whole: string, path: string, start: nat, end: nat, anchors: seq<Anchor>)

  function CiteOf(t: Piece, at: nat): Citation
    requires t.Token?
  {
    Citation(ShowPiece(t), t.path, at, at + |ShowPiece(t)|, ReadAnchors(t.list))
  }

  /** `citations(text)`: the citations in order, each with its span; `at` is the offset of `doc`. */
  function Cites(doc: Document, at: nat): (r: seq<Citation>)
    ensures |r| == |Tokens(doc)|
  {
    if doc == [] then []
    else
      (if doc[0].Token? then [CiteOf(doc[0], at)] else [])
      + Cites(doc[1..], at + |ShowPiece(doc[0])|)
  }

  lemma CitesStep(doc: Document, at: nat)
    requires doc != []
    ensures var cites, rest := Cites(doc, at), Cites(doc[1..], at + |ShowPiece(doc[0])|);
            if doc[0].Token? then cites == [CiteOf(doc[0], at)] + rest && cites[1..] == rest
            else cites == rest
  {
  }

  /** Apart from its span, a citation is its token. */
  lemma {:induction false} CiteIsToken(doc: Document, at: nat, k: nat)
    requires k < |Tokens(doc)|
    ensures Tokens(doc)[k].Token? && Cites(doc, at)[k] == CiteOf(Tokens(doc)[k], Cites(doc, at)[k].start)
  {
    hide ReadAnchors;
    CitesStep(doc, at);
    if !(doc[0].Token? && k == 0) {
      CiteIsToken(doc[1..], at + |ShowPiece(doc[0])|, if doc[0].Token? then k - 1 else k);
    }
  }

  /** Spans of a document's citations: not empty, in range, in order and disjoint. */
  lemma {:induction false} CiteSpans(doc: Document, at: nat)
    ensures Spread(Cites(doc, at), at, at + |Render(doc)|)
  {
    hide ReadAnchors, Spread, Cites, Tokens, Render, ShowPiece, CiteOf;
    if doc == [] {
      SpreadNil(at);
    } else {
      var mid, hi := at + |ShowPiece(doc[0])|, at + |Render(doc)|;
      CitesStep(doc, at);
      PieceSpan(doc, at);
      CiteSpans(doc[1..], mid);
      if doc[0].Token? {
        SpreadCons(CiteOf(doc[0], at), Cites(doc[1..], mid), at, mid, hi);
      } else {
        SpreadWiden(Cites(doc, at), at, mid, hi);
      }
    }
  }

  lemma SpreadNil(at: nat)
    ensures Spread(Cites([], at), at, at + |Render([])|)
  {
  }

  lemma PieceSpan(doc: Document, at: nat)
    requires doc != []
    ensures |Render(doc)| == |ShowPiece(doc[0])| + |Render(doc[1..])|
    ensures doc[0].Token? ==>
              CiteOf(doc[0], at).start == at < CiteOf(doc[0], at).end == at + |ShowPiece(doc[0])|
  {
    hide ReadAnchors;
  }

  lemma SpreadCons(c: Citation, rest: seq<Citation>, lo: nat, mid: nat, hi: nat)
    requires lo <= c.start < c.end <= mid <= hi && Spread(rest, mid, hi)
    ensures Spread([c] + rest, lo, hi)
  {
  }

  lemma SpreadWiden(cites: seq<Citation>, lo: nat, mid: nat, hi: nat)
    requires lo <= mid && Spread(cites, mid, hi)
    ensures Spread(cites, lo, hi)
  {
  }

  predicate Spread(cites: seq<Citation>, lo: nat, hi: nat) {
    && (forall k | 0 <= k < |cites| :: lo <= cites[k].start < cites[k].end <= hi)
    && (forall j, k | 0 <= j < k < |cites| :: cites[j].end <= cites[k].start)
  }

  // ---- Moving citations ---------------------------------------------------------------------

  /** The re-anchored spelling of a citation of `path`. */
  function Rebuilt(path: string, anchors: seq<Anchor>): string { path + ":" + ShowAnchors(anchors) }

  /** Per citation, the anchors to move it to, or nothing to leave it alone. */
  type Moves = seq<Option<seq<Anchor>>>

  function MoveToken(t: Piece, move: Option<seq<Anchor>>): (r: Piece)
    requires t.Token?
    ensures r.Token? && r.path == t.path
  {
    match move
    case None => t
    case Some(to) => Token(t.path, t.path, ShowAnchors(to))
  }

  /** The document with its citations moved and everything else untouched. */
  function Repair(doc: Document, moves: Moves): Document
    requires |moves| == |Tokens(doc)|
  {
    if doc == [] then []
    else if doc[0].Prose? then [doc[0]] + Repair(doc[1..], moves)
    else [MoveToken(doc[0], moves[0])] + Repair(doc[1..], moves[1..])
  }

  /** The citations of the moved document are the moved citations. */
  lemma {:induction false} RepairedTokens(doc: Document, moves: Moves)
    requires |moves| == |Tokens(doc)|
    ensures |Tokens(Repair(doc, moves))| == |moves|
    ensures forall k | 0 <= k < |moves| :: Tokens(Repair(doc, moves))[k] == MoveToken(Tokens(doc)[k], moves[k])
  {
    hide MoveToken;
    if doc != [] {
      RepairedTokens(doc[1..], if doc[0].Token? then moves[1..] else moves);
    }
  }

  function MoveEdit(c: Citation, move: Option<seq<Anchor>>): seq<Edit> {
    match move
    case None => []
    case Some(to) => [Edit(c.start, c.end, Rebuilt(c.path, to))]
  }

  /** The edits that carry out the moves, in document order. */
  function MoveEdits(cites: seq<Citation>, moves: Moves): seq<Edit>
    requires |moves| == |cites|
  {
    if cites == [] then [] else MoveEdit(cites[0], moves[0]) + MoveEdits(cites[1..], moves[1..])
  }

  /** An edit of the listing is the edit of one citation. */
  lemma {:induction false} MoveEditsAt(cites: seq<Citation>, moves: Moves, e: Edit)
    requires |moves| == |cites|
    ensures e in MoveEdits(cites, moves) <==> exists k :: 0 <= k < |cites| && e in MoveEdit(cites[k], moves[k])
  {
    hide MoveEdit;
    if cites != [] {
      var rest, ms := cites[1..], moves[1..];
      MoveEditsAt(rest, ms, e);
      if k :| 0 < k < |cites| && e in MoveEdit(cites[k], moves[k]) {
        assert rest[k - 1] == cites[k] && ms[k - 1] == moves[k];
      }
      if k :| 0 <= k < |rest| && e in MoveEdit(rest[k], ms[k]) {
        assert cites[k + 1] == rest[k] && moves[k + 1] == ms[k];
      }
    }
  }

  /** The edits of disjoint citations are in order and in range. */
  lemma {:induction false} MoveEditsInOrder(cites: seq<Citation>, moves: Moves, lo: nat, hi: nat)
    requires |moves| == |cites| && Spread(cites, lo, hi)
    ensures InOrder(MoveEdits(cites, moves)) && AllInRange(MoveEdits(cites, moves), hi)
    ensures forall k | 0 <= k < |MoveEdits(cites, moves)| :: lo <= MoveEdits(cites, moves)[k].start
  {
    hide Rebuilt;
    if cites != [] {
      MoveEditsInOrder(cites[1..], moves[1..], cites[0].end, hi);
      MoveEditsInOrder(cites[1..], moves[1..], lo, hi);
    }
  }

  /** The edits of a document's moves fit any text the document ends. */
  lemma MoveEditsFit(before: string, doc: Document, moves: Moves)
    requires |moves| == |Tokens(doc)|
    ensures var text, edits := before + Render(doc), MoveEdits(Cites(doc, |before|), moves);
            AllInRange(edits, |text|) && InOrder(edits) && (edits != [] ==> |before| <= edits[0].start)
  {
    CiteSpans(doc, |before|);
    MoveEditsInOrder(Cites(doc, |before|), moves, |before|, |before + Render(doc)|);
  }

  /** Substituting a document's moves into a text that ends with the document. */
  function Spliced(before: string, doc: Document, moves: Moves): string
    requires |moves| == |Tokens(doc)|
  {
    MoveEditsFit(before, doc, moves);
    Substitute(before + Render(doc), |before|, MoveEdits(Cites(doc, |before|), moves))
  }

  /** A piece that stays contributes itself. */
  lemma SplicedKept(before: string, doc: Document, moves: Moves, rest: Moves)
    requires doc != [] && |moves| == |Tokens(doc)| && |rest| == |Tokens(doc[1..])|
    requires if doc[0].Token? then moves[0].None? && rest == moves[1..] else rest == moves
    ensures Spliced(before, doc, moves)
            == ShowPiece(doc[0]) + Spliced(before + ShowPiece(doc[0]), doc[1..], rest)
  {
    hide Cites, MoveEdits, Substitute, CiteOf, InOrder, AllInRange, ShowPiece, Tokens, Render;
    var here := before + ShowPiece(doc[0]);
    var text := before + Render(doc);
    var edits := MoveEdits(Cites(doc, |before|), moves);
    MoveEditsFit(before, doc, moves);
    MoveEditsFit(here, doc[1..], rest);
    CitesStep(doc, |before|);
    if doc[0].Token? { MoveEditsHead(Cites(doc, |before|), moves); }
    assert edits == MoveEdits(Cites(doc[1..], |here|), rest);
    RenderStep(before, doc);
    SubstituteFrom(text, |before|, |here|, edits);
  }

  lemma RenderStep(before: string, doc: Document)
    requires doc != []
    ensures var text, here := before + Render(doc), before + ShowPiece(doc[0]);
            text == here + Render(doc[1..]) && |here| <= |text| && text[|before|..|here|] == ShowPiece(doc[0])
  {
    hide ShowPiece;
    Regroup(before, ShowPiece(doc[0]), Render(doc[1..]));
  }

  lemma Regroup(a: string, b: string, c: string)
    ensures a + (b + c) == (a + b) + c && (a + (b + c))[|a|..|a + b|] == b
  {
  }

  /** A moved citation contributes its new spelling. */
  lemma SplicedMoved(before: string, doc: Document, moves: Moves)
    requires doc != [] && doc[0].Token? && |moves| == |Tokens(doc)| == |Tokens(doc[1..])| + 1 && moves[0].Some?
    ensures Spliced(before, doc, moves)
            == Rebuilt(doc[0].path, moves[0].value)
               + Spliced(before + ShowPiece(doc[0]), doc[1..], moves[1..])
  {
    hide Cites, MoveEdits, Substitute, Rebuilt, InOrder, AllInRange, ShowPiece, Tokens, Render;
    var p, here := |before|, before + ShowPiece(doc[0]);
    var text := before + Render(doc);
    var later := MoveEdits(Cites(doc[1..], |here|), moves[1..]);
    MoveEditsFit(before, doc, moves);
    MoveEditsFit(here, doc[1..], moves[1..]);
    CitesStep(doc, p);
    MoveEditsHead(Cites(doc, p), moves);
    RenderStep(before, doc);
    var e := Edit(p, |here|, Rebuilt(doc[0].path, moves[0].value));
    assert MoveEdits(Cites(doc, p), moves) == [e] + later;
    SubstituteCons(text, p, e, later);
    assert text[p..p] + e.text == e.text;
  }

  lemma MoveEditsHead(cites: seq<Citation>, moves: Moves)
    requires cites != [] && |moves| == |cites|
    ensures MoveEdits(cites, moves) == MoveEdit(cites[0], moves[0]) + MoveEdits(cites[1..], moves[1..])
  {
  }

  /**
   * Splicing the edits into the rendered document is rendering the moved document: no character
   * outside a moved citation's span changes.
   */
  lemma {:induction false} SpliceIsRepair(before: string, doc: Document, moves: Moves)
    requires |moves| == |Tokens(doc)|
    ensures Spliced(before, doc, moves) == Render(Repair(doc, moves))
    decreases |doc|
  {
    hide Spliced;
    if doc == [] {
      SplicedNothing(before, moves);
    } else {
      var rest := if doc[0].Token? then moves[1..] else moves;
      if doc[0].Token? && moves[0].Some? {
        SplicedMoved(before, doc, moves);
      } else {
        SplicedKept(before, doc, moves, rest);
      }
      SpliceIsRepair(before + ShowPiece(doc[0]), doc[1..], rest);
    }
  }

  lemma SplicedNothing(before: string, moves: Moves)
    requires moves == []
    ensures Spliced(before, [], moves) == ""
  {
  }

  // ---- Line counts --------------------------------------------------------------------------

  /** Some moved citation was written across a line break. */
  ghost predicate MovesAcrossLines(tokens: seq<Piece>, moves: Moves)
    requires |moves| == |tokens|
  {
    exists k :: 0 <= k < |moves| && moves[k].Some? && '\n' in ShowPiece(tokens[k])
  }

  lemma MovesAcrossLinesStep(tokens: seq<Piece>, moves: Moves)
    requires |moves| == |tokens| > 0
    ensures MovesAcrossLines(tokens, moves) <==>
            (moves[0].Some? && '\n' in ShowPiece(tokens[0])) || MovesAcrossLines(tokens[1..], moves[1..])
  {
    var ts, ms := tokens[1..], moves[1..];
    if k :| 0 < k < |moves| && moves[k].Some? && '\n' in ShowPiece(tokens[k]) {
      assert ms[k - 1] == moves[k] && ts[k - 1] == tokens[k];
    }
    if k :| 0 <= k < |ms| && ms[k].Some? && '\n' in ShowPiece(ts[k]) {
      assert ms[k] == moves[k + 1] && ts[k] == tokens[k + 1];
    }
  }

  /** A moved citation stands on one line. */
  lemma MovedTokenLines(t: Piece, move: Option<seq<Anchor>>)
    requires t.Token? && '\n' !in t.path
    ensures var n, n' := Newlines(ShowPiece(t)), Newlines(ShowPiece(MoveToken(t, move)));
            n' <= n && (n' == n <==> !(move.Some? && '\n' in ShowPiece(t)))
  {
    NewlinesNone(ShowPiece(t));
    if move.Some? {
      ShownAnchorsOneLine(move.value);
      NewlinesNone(ShowPiece(MoveToken(t, move)));
    }
  }

  /**
   * A repair keeps the document's line count exactly when no citation it moves was written across
   * a line break: the anchor pattern admits one around a comma, and the rebuilt list has none.
   */
  lemma {:induction false} RepairLineCount(doc: Document, moves: Moves)
    requires |moves| == |Tokens(doc)|
    requires forall p | p in doc && p.Token? :: '\n' !in p.path
    ensures Newlines(Render(Repair(doc, moves))) <= Newlines(Render(doc))
    ensures Newlines(Render(Repair(doc, moves))) == Newlines(Render(doc))
            <==> !MovesAcrossLines(Tokens(doc), moves)
  {
    hide ShowPiece, MoveToken, Newlines, MovesAcrossLines;
    if doc == [] {
      EmptyLineCount();
    } else {
      var token := doc[0].Token?;
      var rest := if token then moves[1..] else moves;
      var doc' := Repair(doc, moves);
      assert doc'[1..] == Repair(doc[1..], rest);
      assert doc[0] in doc && forall p | p in doc[1..] :: p in doc;
      RepairLineCount(doc[1..], rest);
      NewlinesConcat(ShowPiece(doc[0]), Render(doc[1..]));
      NewlinesConcat(ShowPiece(doc'[0]), Render(doc'[1..]));
      if token {
        MovedTokenLines(doc[0], moves[0]);
        MovesAcrossLinesStep(Tokens(doc), moves);
        assert Tokens(doc)[1..] == Tokens(doc[1..]);
      } else {
        assert Tokens(doc) == Tokens(doc[1..]);
      }
    }
  }

  lemma EmptyLineCount()
    ensures !MovesAcrossLines([], [])
  {
  }
}
