/** The document loop of `main` in `scripts/check-citations.py`: totals, rewrites and the exit code. */
module Run {
  import opened Ascii
  import opened Splice
  import opened Citations
  import opened Reanchor
  import opened Fixpoint
  import opened Pass

  class CitationRun {
    const env: Env
    const fix: bool
    const misaimed: set<string>
    var now: Sources
    var total: nat
    var unchecked: nat
    var drifted: nat
    var fixable: nat
    var unmappable: nat
    var withheld: nat
    var used: set<(string, string, string)>
    var edits: seq<Edit>

    /** Citations are conserved: each drifted one is fixable, withheld or unmappable. */
    ghost predicate Valid()
      reads this
    {
      && Loaded(env, now)
      && drifted == fixable + withheld + unmappable
      && unchecked <= total
    }

    function Totals(): Tally
      reads this
    {
      Tally(total, unchecked, drifted, fixable, unmappable, edits, used)
    }

    function HowRun(): Mode { Mode(env, fix, misaimed) }

    function SoFar(): Progress
      reads this
    {
      Progress(now, Totals(), withheld)
    }

    constructor (env: Env, fix: bool, misaimed: set<string>, now: Sources)
      requires Loaded(env, now)
      ensures Valid() && SoFar() == Started(now) && HowRun() == Mode(env, fix, misaimed)
    {
      this.env, this.fix, this.misaimed, this.now := env, fix, misaimed, now;
      total, unchecked, drifted, fixable, unmappable, withheld := 0, 0, 0, 0, 0, 0;
      used, edits := {}, [];
    }

    /** One pair of the ordinal pairing. */
    method PairOne(doc: string, was: Citation, cur: Citation)
      requires Loaded(env, now) && was.path in env.base
      modifies this
      ensures now == old(now) && withheld == old(withheld)
      ensures Totals() == AddPair(old(Totals()), doc, was, cur, Judge(env, now, doc, was, cur))
    {
      total := total + |was.anchors|;
      if |was.anchors| != |cur.anchors| {
        drifted := drifted + 1;
        unmappable := unmappable + 1;
      } else if AllRight(env, now, was.path, was.anchors, cur.anchors) {
      } else if DeclaredReaim(env, doc, was.whole, cur.whole) {
        used := used + {(doc, was.whole, cur.whole)};
      } else {
        drifted := drifted + 1;
        match MapAnchors(env.hunks[was.path], was.anchors)
        case None => unmappable := unmappable + 1;
        case Some(to) =>
          edits := edits + [Edit(cur.start, cur.end, Rebuilt(was.path, to))];
          fixable := fixable + 1;
      }
    }

    /** The ordinal pairing of one path. */
    method PairPath(doc: string, olds: seq<Citation>, curs: seq<Citation>)
      requires Loaded(env, now) && |olds| == |curs| && forall k | 0 <= k < |olds| :: olds[k].path in env.base
      modifies this
      ensures now == old(now) && withheld == old(withheld)
      ensures Totals() == PairTally(env, now, doc, olds, curs, old(Totals()))
    {
      hide Judge, AddPair, Totals;
      for i := 0 to |olds|
        invariant now == old(now) && withheld == old(withheld)
        invariant Totals() == PairTally(env, now, doc, olds[..i], curs[..i], old(Totals()))
      {
        assert olds[..i + 1][..i] == olds[..i] && curs[..i + 1][..i] == curs[..i];
        PairOne(doc, olds[i], curs[i]);
      }
      assert olds[..|olds|] == olds && curs[..|olds|] == curs;
    }

    /** One base citation of the check by spelling. */
    method LooseOne(was: Citation, curs: seq<Citation>, counted: set<string>) returns (counted': set<string>)
      requires Loaded(env, now) && was.path in env.base
      modifies this
      ensures now == old(now) && withheld == old(withheld)
      ensures Loose(Totals(), counted') == AddLoose(env, now, curs, Loose(old(Totals()), counted), was)
    {
      hide AllRight, MapAnchors, Spelled, SpanEdits, Rebuilt;
      counted' := counted;
      total := total + |was.anchors|;
      var spans := Spelled(curs, was.whole);
      if spans == [] {
        unchecked := unchecked + |was.anchors|;
      } else if AllRight(env, now, was.path, was.anchors, was.anchors) || was.whole in counted {
      } else {
        counted' := counted + {was.whole};
        drifted := drifted + 1;
        match MapAnchors(env.hunks[was.path], was.anchors)
        case None => unmappable := unmappable + 1;
        case Some(to) =>
          edits := edits + SpanEdits(spans, Rebuilt(was.path, to));
          fixable := fixable + 1;
      }
    }

    /** The check by spelling of one path. */
    method LoosePath(olds: seq<Citation>, curs: seq<Citation>)
      requires Loaded(env, now) && forall k | 0 <= k < |olds| :: olds[k].path in env.base
      modifies this
      ensures now == old(now) && withheld == old(withheld)
      ensures Totals() == LooseTally(env, now, olds, curs, Loose(old(Totals()), {})).tally
    {
      hide AddLoose, Totals;
      var counted: set<string> := {};
      for i := 0 to |olds|
        invariant now == old(now) && withheld == old(withheld)
        invariant Loose(Totals(), counted) == LooseTally(env, now, olds[..i], curs, Loose(old(Totals()), {}))
      {
        assert olds[..i + 1][..i] == olds[..i];
        counted := LooseOne(olds[i], curs, counted);
      }
      assert olds[..|olds|] == olds;
    }

    /** The loop over `by_path_old` for one document. */
    method QueueDocument(doc: string, olds: seq<Citation>, curs: seq<Citation>)
      requires Loaded(env, now)
      modifies this
      ensures now == old(now) && withheld == old(withheld)
      ensures Totals() == DocTally(env, now, doc, Paths(olds), olds, curs, old(Totals()).(edits := []))
    {
      edits := [];
      var paths := Paths(olds);
      for i := 0 to |paths|
        invariant now == old(now) && withheld == old(withheld)
        invariant Totals() == DocTally(env, now, doc, paths[..i], olds, curs, old(Totals()).(edits := []))
      {
        assert paths[..i + 1][..i] == paths[..i];
        if paths[i] in env.base {
          var os, cs := OfPath(olds, paths[i]), OfPath(curs, paths[i]);
          if |os| == |cs| { PairPath(doc, os, cs); } else { LoosePath(os, cs); }
        }
      }
      assert paths[..|paths|] == paths;
    }

    /**
     * One document. A rewritten document is the old one with exactly its citations moved; a
     * document that owns a misaimed declaration is left alone and its citations are withheld; a
     * rewritten tracked source replaces its cached lines.
     */
    method ProcessDocument(job: Job) returns (out: string)
      requires Valid()
      modifies this
      ensures Valid()
      ensures SoFar() == Next(HowRun(), job, old(SoFar()))
      ensures out == Render(Left(HowRun(), job, old(now)))
    {
      hide DocTally, MovesOf, Repair, Render, Cites, MoveEdits, Paths;
      out := Render(job.cur);
      if job.base.Some? {
        var olds, curs := Cites(job.base.value, 0), Cites(job.cur, 0);
        ghost var start := Totals().(edits := []);
        var before := fixable;
        QueueDocument(job.name, olds, curs);
        DocTallyGrows(env, now, job.name, Paths(olds), olds, curs, start);
        if fix && edits != [] {
          if job.name in misaimed {
            withheld := withheld + (fixable - before);
            fixable := before;
          } else {
            QueueRewritesDocument(env, now, job.name, olds, job.cur, start);
            var r := ApplyEdits(out, edits);
            assert r == Rewritten(Render(Repair(job.cur, MovesOf(env, now, job.name, olds, curs)))) by {
              assert Order(MoveEdits(curs, MovesOf(env, now, job.name, olds, curs)), edits, |out|);
            }
            out := r.text;
            if job.name in now {
              now := now[job.name := Lines(out)];
            }
          }
        } else if fix {
          EmptyQueueKeepsText(env, now, job.name, olds, job.cur, start);
        }
      }
    }

    /**
     * The rest of `main`. `misdeclared` says that a declared re-aim or a gloss was found wrong, which
     * stops a check and which `--fix` survives but does not forgive; `unversioned` that a versioned
     * line lost its token, which stops either.
     */
    method Execute(jobs: seq<Job>, misdeclared: bool, unversioned: bool) returns (outs: seq<string>, exit: int)
      requires Valid()
      modifies this
      ensures Valid() && |outs| == |jobs|
      ensures if Stopped(misdeclared, unversioned) then
                exit == 2 && SoFar() == old(SoFar()) && forall k | 0 <= k < |jobs| :: outs[k] == Render(jobs[k].cur)
              else
                SoFar() == Passed(HowRun(), jobs, old(SoFar()))
                && (forall k | 0 <= k < |jobs| :: outs[k] == TextAfter(HowRun(), jobs, old(SoFar()), k))
                && exit == if fix then (if unmappable > 0 || misdeclared then 2 else 0)
                           else if drifted > 0 then 1 else 0
      ensures exit == 2 <==> (misdeclared || unversioned || env.base.Keys == {} || (fix && unmappable > 0))
      ensures exit == 1 <==> (!misdeclared && !unversioned && env.base.Keys != {} && !fix && drifted > 0)
      ensures exit in {0, 1, 2}
    {
      hide Next, Left, Passed;
      if Stopped(misdeclared, unversioned) {
        outs := seq(|jobs|, k requires 0 <= k < |jobs| => Render(jobs[k].cur));
        return outs, 2;
      }
      outs := [];
      NothingPassed(HowRun(), jobs, SoFar());
      for i := 0 to |jobs|
        invariant Valid() && |outs| == i
        invariant SoFar() == Passed(HowRun(), jobs[..i], old(SoFar()))
        invariant forall k | 0 <= k < i :: outs[k] == TextAfter(HowRun(), jobs, old(SoFar()), k)
      {
        PassedNext(HowRun(), jobs, i, old(SoFar()));
        var out := ProcessDocument(jobs[i]);
        outs := outs + [out];
      }
      assert jobs[..|jobs|] == jobs;
      if fix {
        exit := if unmappable > 0 || misdeclared then 2 else 0;
      } else {
        exit := if drifted > 0 then 1 else 0;
      }
    }

    /** A run that ends before the loop; with no tracked source at the base there is nothing to check. */
    predicate Stopped(misdeclared: bool, unversioned: bool) {
      (misdeclared && !fix) || unversioned || env.base.Keys == {}
    }
  }

  /** The text a pass leaves of its `k`-th document. */
  function TextAfter(m: Mode, jobs: seq<Job>, s: Progress, k: nat): string
    requires Loaded(m.env, s.now) && k < |jobs|
  {
    Render(Left(m, jobs[k], Passed(m, jobs[..k], s).now))
  }

  /** A queue without edits moves nothing. */
  lemma EmptyQueueKeepsText(env: Env, now: Sources, doc: string, olds: seq<Citation>, cur: Document, t: Tally)
    requires Loaded(env, now) && t.edits == []
    requires DocTally(env, now, doc, Paths(olds), olds, Cites(cur, 0), t).edits == []
    ensures Render(Repair(cur, MovesOf(env, now, doc, olds, Cites(cur, 0)))) == Render(cur)
  {
    hide DocTally, MoveOf, Cites, Render, Repair, MoveEdits;
    var order := MoveEdits(Cites(cur, 0), MovesOf(env, now, doc, olds, Cites(cur, 0)));
    QueueRewritesDocument(env, now, doc, olds, cur, t);
    if order != [] { HasElement(order); }
  }
}
