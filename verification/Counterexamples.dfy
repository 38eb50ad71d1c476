/**
 * Documents on which `scripts/check-citations.py` does not do what its comments promise. Each is a
 * document or a corpus beside a sound diff: a rewrite that joins two lines, a rewrite that a second
 * check takes for another citation, and a rewritten source whose line another document cites. The
 * conditions they fail are those of the general results; here the inputs are worked out.
 */
module Counterexamples {
  import opened Ascii
  import opened Wrappers
  import opened Citations
  import opened Reanchor
  import opened Fixpoint
  import opened Recheck
  import opened LooseRecheck
  import opened Pass
  import opened TouchedLines
  import opened Corpus
  import opened RewrittenSources
  import opened RewrittenRuns
  import L = LineMap
  import D = Decimal

  // ---- A file of two lines below a new one ---------------------------------------------------

  const PUSHED: L.Script := [L.Change([], ["new"]), L.Keep(["x", "y"])]

  const TWO_LINES: Env := Env(map["p" := ["x", "y"]], map["p" := [L.Hunk(0, 0, 1)]], map[], {})

  const PUSHED_DOWN: Sources := map["p" := ["new", "x", "y"]]

  lemma KeepScript(lines: seq<string>, pos: nat)
    ensures L.Old([L.Keep(lines)]) == lines && L.New([L.Keep(lines)]) == lines && L.Hunks([L.Keep(lines)], pos) == []
  {
    assert [L.Keep(lines)][1..] == [];
  }

  lemma ChangeScript(removed: seq<string>, added: seq<string>)
    ensures L.Old([L.Change(removed, added)]) == removed && L.New([L.Change(removed, added)]) == added
    ensures L.Hunks([L.Change(removed, added)], 0) == [L.ChangeHunk(removed, added, 0)]
  {
    assert [L.Change(removed, added)][1..] == [];
  }

  lemma PushedScript(line: string, lines: seq<string>)
    ensures var script := [L.Change([], [line]), L.Keep(lines)];
            L.Old(script) == lines && L.New(script) == [line] + lines && L.Hunks(script, 0) == [L.Hunk(0, 0, 1)]
  {
    var script := [L.Change([], [line]), L.Keep(lines)];
    assert script[1..] == [L.Keep(lines)];
    KeepScript(lines, 0);
  }

  lemma PushedSound()
    ensures Sound(TWO_LINES, PUSHED_DOWN, map["p" := PUSHED]) && VersionedHold(TWO_LINES, PUSHED_DOWN)
  {
    hide L.Old, L.New, L.Hunks;
    PushedScript("new", ["x", "y"]);
  }

  /** One line is cited by its number. */
  function At(n: int): Anchor { Anchor(n, None) }

  lemma Shown()
    ensures ShowAnchors([At(1)]) == "1" && ShowAnchors([At(2)]) == "2" && ShowAnchors([At(1)]) != ShowAnchors([At(2)])
    ensures ReadAnchors("1") == [At(1)] && ReadAnchors("2") == [At(2)]
  {
    assert D.Show(1) == "1" && D.Show(2) == "2";
    ReadShownAnchors([At(1)]);
    ReadShownAnchors([At(2)]);
  }

  lemma PushedLines()
    ensures Loaded(TWO_LINES, PUSHED_DOWN) && "p" in TWO_LINES.base
    ensures !AnchorRight(TWO_LINES, PUSHED_DOWN, "p", At(1), At(1))
    ensures !AnchorRight(TWO_LINES, PUSHED_DOWN, "p", At(2), At(2))
    ensures MapAnchor(TWO_LINES.hunks["p"], At(1)) == Some(At(2))
    ensures MapAnchor(TWO_LINES.hunks["p"], At(2)) == Some(At(3))
  {
    assert LineOf(["x", "y"], 1) == Some("x") && LineOf(["new", "x", "y"], 1) == Some("new");
    assert LineOf(["x", "y"], 2) == Some("y") && LineOf(["new", "x", "y"], 2) == Some("x");
    assert "x"[0] != "y"[0] && "x"[0] != "new"[0];
    var hunks := [L.Hunk(0, 0, 1)];
    assert hunks[1..] == [];
    assert L.MapFrom(hunks, 1, 0) == L.MapFrom([], 1, 1) && L.MapFrom(hunks, 2, 0) == L.MapFrom([], 2, 1);
  }

  lemma MapOne(hunks: seq<L.Hunk>, x: Anchor)
    ensures MapAnchors(hunks, [x]) == match MapAnchor(hunks, x) case None => None case Some(y) => Some([y])
  {
    var none: seq<Anchor> := [];
    assert [x][1..] == none && MapAnchors(hunks, none) == Some(none);
    var r := MapAnchor(hunks, x);
    if r.Some? { assert [r.value] + none == [r.value]; }
  }

  // ---- A citation written across a line break -------------------------------------------------

  const BROKEN_LINE: Document := [Token("p", "p", "1,\n2")]

  lemma BrokenLineCite()
    ensures Cites(BROKEN_LINE, 0) == [CiteOf(BROKEN_LINE[0], 0)] && Tokens(BROKEN_LINE) == BROKEN_LINE
    ensures CiteOf(BROKEN_LINE[0], 0).anchors == [At(1), At(2)] && CiteOf(BROKEN_LINE[0], 0).path == "p"
  {
    assert BROKEN_LINE[1..] == [] && Cites([], |ShowPiece(BROKEN_LINE[0])|) == [] && Tokens([]) == [];
    Shown();
    var s := "1,\n2";
    assert s[..1] == "1" && s[1..] == ",\n2" && s[1..][1..] == "\n2" && "\n2"[1..] == "2";
    assert ReadAnchor(s) == (At(1), 1) by {
      RunLengthUnique(s, IsDigit, 1);
      assert D.Read("1") == 1;
    }
    assert ReadAnchors(",\n2") == ReadAnchors("\n2") == ReadAnchors("2");
  }

  /** The rewrite of a sound corpus joins the two lines of this document. */
  lemma LineCountDrops()
    ensures Sound(TWO_LINES, PUSHED_DOWN, map["p" := PUSHED]) && VersionedHold(TWO_LINES, PUSHED_DOWN)
    ensures Loaded(TWO_LINES, PUSHED_DOWN)
    ensures var cites := Cites(BROKEN_LINE, 0);
            Newlines(Render(Repair(BROKEN_LINE, MovesOf(TWO_LINES, PUSHED_DOWN, "d", cites, cites))))
            < Newlines(Render(BROKEN_LINE))
  {
    PushedSound();
    PushedLines();
    BrokenLineCite();
    var c := CiteOf(BROKEN_LINE[0], 0);
    var cites := Cites(BROKEN_LINE, 0);
    var moves := MovesOf(TWO_LINES, PUSHED_DOWN, "d", cites, cites);
    BrokenLineMoves(c);
    assert moves[0].Some?;
    RepairLineCount(BROKEN_LINE, moves);
    assert ShowPiece(BROKEN_LINE[0])[4] == '\n';
    MovesAcrossLinesStep(Tokens(BROKEN_LINE), moves);
  }

  lemma BrokenLineMoves(c: Citation)
    requires c.path == "p" && c.anchors == [At(1), At(2)]
    ensures Loaded(TWO_LINES, PUSHED_DOWN) && MoveOf(TWO_LINES, PUSHED_DOWN, "d", [c], [c], 0).Some?
  {
    PushedLines();
    OnlyCite(c);
    var xs := c.anchors;
    assert !AnchorRight(TWO_LINES, PUSHED_DOWN, "p", xs[0], xs[0]);
    assert xs[1..] == [At(2)];
    MapOne(TWO_LINES.hunks["p"], At(2));
    assert MapAnchors(TWO_LINES.hunks["p"], xs).Some?;
    assert Judge(TWO_LINES, PUSHED_DOWN, "d", c, c).Moved?;
  }

  lemma OnlyCite(c: Citation)
    ensures OfPath([c], c.path) == [c] && OfPath([c][..0], c.path) == []
  {
    assert [c][..0] == [];
  }

  // ---- A citation rewritten into the spelling of another --------------------------------------

  const BOTH_LINES: Document := [Token("p", "p", "1"), Prose(" "), Token("p", "p", "2")]

  const FIRST_LINE: Document := [Token("p", "p", "1")]

  /** The citation of line `n` of a source, written at `at`. */
  function LineCite(path: string, n: nat, at: nat): Citation {
    CiteOf(Token(path, path, D.Show(n)), at)
  }

  lemma BothCites()
    ensures Cites(BOTH_LINES, 0) == [LineCite("p", 1, 0), LineCite("p", 2, 4)]
    ensures Cites(FIRST_LINE, 0) == [LineCite("p", 1, 0)]
  {
    hide ReadAnchors, D.Show;
    Digits();
    var after := BOTH_LINES[1..];
    assert after[1..] == [BOTH_LINES[2]] && after[1..][1..] == [] && FIRST_LINE[1..] == [];
    assert |ShowPiece(BOTH_LINES[0])| == 3 && |ShowPiece(BOTH_LINES[1])| == 1;
    var none: Document := [];
    assert Cites(none, 7) == [] && Cites(none, 3) == [];
    assert Cites([BOTH_LINES[2]], 4) == [LineCite("p", 2, 4)] + Cites(none, 7);
    assert Cites(after, 3) == Cites(after[1..], 4);
  }

  lemma Digits()
    ensures D.Show(1) == "1" && D.Show(2) == "2"
  {
  }

  lemma LineCites()
    ensures LineCite("p", 1, 0).anchors == [At(1)] && LineCite("p", 2, 4).anchors == [At(2)]
    ensures LineCite("p", 1, 0).whole == "p:1" && LineCite("p", 2, 4).whole == "p:2"
    ensures Rebuilt("p", [At(2)]) == LineCite("p", 2, 4).whole
  {
    hide ReadAnchors, D.Show;
    Shown();
    Digits();
  }

  lemma TwoOfPath(a: Citation, b: Citation)
    requires a.path == b.path
    ensures OfPath([a, b], a.path) == [a, b] && OfPath([a], a.path) == [a]
    ensures Paths([a, b]) == [a.path]
  {
    assert [a, b][..1] == [a] && [a][..0] == [];
    assert OfPath([a], a.path) == OfPath([], a.path) + [a] == [a];
    assert OfPath([a, b], a.path) == OfPath([a], a.path) + [b];
    assert Paths([a]) == [a.path];
  }

  /**
   * Two base citations, of which the document keeps the first: line 1 moved to 2, so the citation is
   * rewritten into the spelling of the other, whose line moved to 3, and the next check takes the one
   * for the other.
   */
  lemma LooseFixpointFails()
    ensures Sound(TWO_LINES, PUSHED_DOWN, map["p" := PUSHED]) && VersionedHold(TWO_LINES, PUSHED_DOWN)
    ensures Loaded(TWO_LINES, PUSHED_DOWN)
    ensures var olds, curs := Cites(BOTH_LINES, 0), Cites(FIRST_LINE, 0);
            var curs' := Cites(Repair(FIRST_LINE, MovesOf(TWO_LINES, PUSHED_DOWN, "d", olds, curs)), 0);
            DocTally(TWO_LINES, PUSHED_DOWN, "d", Paths(olds), olds, curs, NOTHING).unmappable == 0
            && DocTally(TWO_LINES, PUSHED_DOWN, "d", Paths(olds), olds, curs', NOTHING).drifted > 0
  {
    hide DocTally, MovesOf, Repair, Cites, Sound, VersionedHold, Collides, Paths, OfPath;
    hide TWO_LINES, PUSHED_DOWN, PUSHED;
    PushedSound();
    PushedLines();
    BothCites();
    LineCites();
    var a, b := LineCite("p", 1, 0), LineCite("p", 2, 4);
    TwoOfPath(a, b);
    CollidingPath(a, b);
    OnePathTally([a, b], [a]);
    DocumentFixpointIff(TWO_LINES, PUSHED_DOWN, map["p" := PUSHED], "d", BOTH_LINES, FIRST_LINE, NOTHING, NOTHING);
    assert Paths([a, b])[0] == "p";
  }

  lemma OnePathTally(olds: seq<Citation>, curs: seq<Citation>)
    requires Loaded(TWO_LINES, PUSHED_DOWN)
    requires Paths(olds) == ["p"] && OfPath(olds, "p") == olds && OfPath(curs, "p") == curs
    requires "p" in TWO_LINES.base && |olds| != |curs| && forall k | 0 <= k < |olds| :: olds[k].path in TWO_LINES.base
    ensures DocTally(TWO_LINES, PUSHED_DOWN, "d", Paths(olds), olds, curs, NOTHING)
            == LooseTally(TWO_LINES, PUSHED_DOWN, olds, curs, Loose(NOTHING, {})).tally
  {
    hide LooseTally;
    assert ["p"][..0] == [];
  }

  lemma CollidingPath(a: Citation, b: Citation)
    requires a == LineCite("p", 1, 0) && b == LineCite("p", 2, 4)
    ensures Loaded(TWO_LINES, PUSHED_DOWN) && "p" in TWO_LINES.base && a.path == b.path == "p"
    ensures Collides(TWO_LINES, PUSHED_DOWN, [a, b], [a])
    ensures LooseTally(TWO_LINES, PUSHED_DOWN, [a, b], [a], Loose(NOTHING, {})).tally.unmappable == 0
  {
    hide LooseTally, TWO_LINES, PUSHED_DOWN, MapAnchor, Spelled, Rebuilt;
    PushedLines();
    LineCites();
    MapOne(TWO_LINES.hunks["p"], At(1));
    assert !AnchorRight(TWO_LINES, PUSHED_DOWN, "p", a.anchors[0], a.anchors[0]);
    assert !AnchorRight(TWO_LINES, PUSHED_DOWN, "p", b.anchors[0], b.anchors[0]);
    assert [a, b][..1] == [a] && [a][..0] == [];
    assert FirstWrong(TWO_LINES, PUSHED_DOWN, [a], a.whole) == Some(a);
    assert LooseMove(TWO_LINES, PUSHED_DOWN, [a, b], a.whole) == Some([At(2)]);
    SpelledSome([a], b.whole);
    LooseUnmappable(TWO_LINES, PUSHED_DOWN, [a, b], [a]);
    assert b in [a, b] && a in [a];
  }

  // ---- A rewritten source that another document cites -----------------------------------------

  const SEE: Document := [Prose("see "), Token("b", "b", "1")]

  const NOTE: Document := [Token("a", "a", "1")]

  const CITED: Mode :=
    Mode(Env(map["a" := ["see b:1"], "b" := ["t"]], map["a" := [], "b" := [L.Hunk(0, 0, 1)]], map[], {}), true, {})

  const START: Sources := map["a" := ["see b:1"], "b" := ["new", "t"]]

  const CITED_SCRIPTS: map<string, L.Script> :=
    map["a" := [L.Keep(["see b:1"])], "b" := [L.Change([], ["new"]), L.Keep(["t"])]]

  /** The hunks of the working tree once `a` is rewritten. */
  const REWRITTEN: Env := CITED.env.(hunks := map["a" := [L.Hunk(1, 1, 1)], "b" := [L.Hunk(0, 0, 1)]])

  const REWRITTEN_SCRIPTS: map<string, L.Script> :=
    CITED_SCRIPTS["a" := [L.Change(["see b:1"], ["see b:2"])]]

  const AFTERWARDS: Sources := map["a" := ["see b:2"], "b" := ["new", "t"]]

  const NOTE_JOB: Job := Job("D.md", Some(NOTE), NOTE)

  const SOURCE_JOB: Job := Job("a", Some(SEE), SEE)

  /** One script gives the base, the hunks and the current text of a source. */
  ghost predicate Fits(env: Env, now: Sources, scripts: map<string, L.Script>, p: string) {
    p in env.base && p in env.hunks && p in now && p in scripts
    && env.base[p] == L.Old(scripts[p]) && env.hunks[p] == L.Hunks(scripts[p], 0) && now[p] == L.New(scripts[p])
  }

  lemma TwoFit(env: Env, now: Sources, scripts: map<string, L.Script>)
    requires env.base.Keys == {"a", "b"} && Fits(env, now, scripts, "a") && Fits(env, now, scripts, "b")
    ensures Sound(env, now, scripts)
  {
    hide L.Old, L.New, L.Hunks;
    forall p | p in env.base ensures Fits(env, now, scripts, p) {
      if p != "a" { assert p == "b"; }
    }
  }

  lemma CitedSound()
    ensures Sound(CITED.env, START, CITED_SCRIPTS)
    ensures VersionedHold(CITED.env, START) && VersionedHold(CITED.env, AFTERWARDS)
  {
    hide L.Old, L.New, L.Hunks, Sound;
    PushedScript("new", ["t"]);
    KeepScript(["see b:1"], 0);
    TwoFit(CITED.env, START, CITED_SCRIPTS);
  }

  lemma RewrittenSound()
    ensures Sound(REWRITTEN, AFTERWARDS, REWRITTEN_SCRIPTS) && SameBase(CITED.env, REWRITTEN)
  {
    hide L.Old, L.New, L.Hunks, Sound;
    PushedScript("new", ["t"]);
    ChangeScript(["see b:1"], ["see b:2"]);
    TwoFit(REWRITTEN, AFTERWARDS, REWRITTEN_SCRIPTS);
  }

  /** A document with one citation: what the pass does with it. */
  lemma OneCitation(m: Mode, job: Job, s: Progress, c: Citation)
    requires Loaded(m.env, s.now) && job.base == Some(job.cur) && Cites(job.cur, 0) == [c] && c.path in m.env.base
    requires s.tally.edits == []
    ensures Queued(m, job, s) == AddPair(s.tally, job.name, c, c, Judge(m.env, s.now, job.name, c, c))
    ensures MovesOf(m.env, s.now, job.name, [c], [c]) == [PairMove(Judge(m.env, s.now, job.name, c, c))]
    ensures JobPaired(m.env, job)
  {
    hide Judge;
    OnlyCite(c);
    OnlyPath(c);
    var one := [c];
    assert one[..0] == [] && [c.path][..0] == [];
    assert s.tally.(edits := []) == s.tally;
    assert DocTally(m.env, s.now, job.name, [], one, one, s.tally) == s.tally;
    assert PairTally(m.env, s.now, job.name, [], [], s.tally) == s.tally;
    assert PairTally(m.env, s.now, job.name, one, one, s.tally)
        == AddPair(s.tally, job.name, c, c, Judge(m.env, s.now, job.name, c, c));
  }

  lemma OnlyPath(c: Citation)
    ensures Paths([c]) == [c.path]
  {
    assert [c][..0] == [];
  }

  /** The citations of the two documents, and what the pass decides of them. */
  lemma Decided()
    ensures var c, d := LineCite("a", 1, 0), LineCite("b", 1, 4);
            Loaded(CITED.env, START) && "a" in CITED.env.base && "b" in CITED.env.base
            && Cites(NOTE, 0) == [c] && Cites(SEE, 0) == [d] && c.anchors == [At(1)] && d.anchors == [At(1)]
            && Judge(CITED.env, START, "D.md", c, c) == Right && Judge(CITED.env, START, "a", d, d) == Moved([At(2)])
  {
    Shown();
    assert D.Show(1) == "1";
    var c, d := LineCite("a", 1, 0), LineCite("b", 1, 4);
    var none: Document := [];
    assert NOTE[1..] == none && SEE[1..] == [SEE[1]] && SEE[1..][1..] == none;
    assert Cites(none, 3) == [] && Cites(none, 7) == [];
    assert Cites([SEE[1]], 4) == [d] + Cites(none, 7);
    assert LineOf(["t"], 1) == Some("t") && LineOf(["new", "t"], 1) == Some("new") && "t"[0] != "new"[0];
    assert !AnchorRight(CITED.env, START, "b", d.anchors[0], d.anchors[0]);
    var hunks := [L.Hunk(0, 0, 1)];
    assert hunks[1..] == [] && L.MapFrom(hunks, 1, 0) == L.MapFrom([], 1, 1);
    MapOne(hunks, At(1));
  }

  /** The source as the pass leaves it. */
  lemma SourceRewritten()
    ensures |Tokens(SEE)| == 1 && Lines(Render(Repair(SEE, [Some([At(2)])]))) == ["see b:2"]
    ensures |Tokens(NOTE)| == 1 && Repair(NOTE, [None]) == NOTE
  {
    Shown();
    var none: Document, done: Moves := [], [];
    assert SEE[1..] == [SEE[1]] && SEE[1..][1..] == none && NOTE[1..] == none;
    assert Tokens(none) == [] && Repair(none, done) == none && [Some([At(2)])][1..] == done && [None][1..] == done;
    var t := Token("b", "b", "2");
    assert Repair([SEE[1]], [Some([At(2)])]) == [t] + Repair(none, done);
    var doc := [Prose("see "), t];
    assert Repair(SEE, [Some([At(2)])]) == doc;
    assert doc[1..] == [t] && [t][1..] == none && Render([t]) == "b:2" + Render(none);
    assert Render(doc) == "see b:2";
    LinesOne("see b:2");
  }

  /** The pass over the two documents: nothing is left over, and `a` is rewritten. */
  lemma PassRewrites()
    ensures Loaded(CITED.env, START)
    ensures var jobs, s := [NOTE_JOB, SOURCE_JOB], Started(START);
            Passed(CITED, jobs[..0], s).now == START
            && Left(CITED, NOTE_JOB, START) == NOTE
            && Passed(CITED, jobs, s).now == AFTERWARDS && Passed(CITED, jobs, s).withheld == 0
            && Passed(CITED, jobs, s).tally.unmappable == 0
    ensures JobPaired(CITED.env, NOTE_JOB) && JobPaired(CITED.env, SOURCE_JOB)
  {
    hide Judge, MovesOf, Queued, Repair, Render, Cites, JobPaired, Tokens;
    Decided();
    SourceRewritten();
    var s, jobs := Started(START), [NOTE_JOB, SOURCE_JOB];
    var c, d := LineCite("a", 1, 0), LineCite("b", 1, 4);
    NothingPassed(CITED, jobs, s);
    PassedNext(CITED, jobs, 0, s);
    PassedNext(CITED, jobs, 1, s);
    assert jobs[..2] == jobs;
    OneCitation(CITED, NOTE_JOB, s, c);
    var s1 := Next(CITED, NOTE_JOB, s);
    assert s1.now == START && s1.tally.edits == [] && s1.withheld == 0 && s1.tally.unmappable == 0;
    OneCitation(CITED, SOURCE_JOB, s1, d);
    assert START["a" := ["see b:2"]] == AFTERWARDS;
  }

  /** The line of `a` that the document cites is one the pass rewrites. */
  lemma NoteReworded()
    ensures Loaded(CITED.env, START) && ("a", 1) in Reworded(CITED, [NOTE_JOB, SOURCE_JOB], START, 0)
  {
    hide Left, Queued, Passed, RewordedFrom;
    PassRewrites();
    var jobs := [NOTE_JOB, SOURCE_JOB];
    StageEnds(CITED, jobs, START);
    RewordedTracks(CITED, jobs, START, 0);
    assert LineOf(["see b:1"], 1) == Some("see b:1") && LineOf(["see b:2"], 1) == Some("see b:2");
    assert "see b:1"[6] != "see b:2"[6];
  }

  /** A settled citation of a rewritten line does not stand. */
  lemma PairBreaks(c: Citation, changed: LineSet)
    requires c.path == "a" && c.anchors == [At(1)] && ("a", 1) in changed
    requires Loaded(CITED.env, START) && "a" in CITED.env.base && Judge(CITED.env, START, "D.md", c, c) == Right
    ensures !PathStands(CITED.env, START, changed, changed, "D.md", "a", [c], [c], [c], true)
  {
    hide Judge;
    OnlyCite(c);
    assert !AnchorSteady(CITED.env, changed, "a", c.anchors[0], c.anchors[0]);
    var one := [c];
    assert !PairStands(CITED.env, START, changed, changed, "D.md", one[0], one[0], one[0], true);
    assert !PairsStand(CITED.env, START, changed, changed, "D.md", one, one, one, true);
  }

  /** The document that cites the rewritten line does not hold. */
  lemma NoteBreaks()
    ensures Loaded(CITED.env, START) && !HoldsInRun(CITED, [NOTE_JOB, SOURCE_JOB], START, 0)
  {
    hide Judge, Left, Cites, OfPath, Paths, Passed, Reworded, SpelledStand, PathStands;
    PassRewrites();
    Decided();
    NoteReworded();
    var c, jobs := LineCite("a", 1, 0), [NOTE_JOB, SOURCE_JOB];
    StageEnds(CITED, jobs, START);
    PairBreaks(c, Reworded(CITED, jobs, START, 0));
    OnlyPath(c);
    assert Paths([c])[0] == "a";
  }

  /**
   * A line inserted into `b` moves the citation that the tracked source `a` makes of it; the pass
   * rewrites that line of `a`, leaves nothing over, and so makes the citation of that line drift.
   */
  lemma SourceRewriteDrifts()
    ensures Sound(CITED.env, START, CITED_SCRIPTS) && Sound(REWRITTEN, AFTERWARDS, REWRITTEN_SCRIPTS)
    ensures Loaded(CITED.env, START) && Loaded(REWRITTEN, AFTERWARDS)
    ensures var jobs, s := [NOTE_JOB, SOURCE_JOB], Started(START);
            var first := Passed(CITED, jobs, s);
            first.now == AFTERWARDS && first.tally.unmappable == 0 && first.withheld == 0
            && Checked(REWRITTEN, AFTERWARDS, AfterPass(CITED, jobs, s)).tally.drifted > 0
  {
    hide Sound, VersionedHold, Passed, JobPaired, HoldsInRun, Checked, AfterPass, Left;
    CitedSound();
    RewrittenSound();
    SoundIsLoaded(REWRITTEN, AFTERWARDS, REWRITTEN_SCRIPTS);
    PassRewrites();
    NoteBreaks();
    var jobs := [NOTE_JOB, SOURCE_JOB];
    CleanAfterRewriteIff(CITED, REWRITTEN, jobs, CITED_SCRIPTS, START);
  }
}
