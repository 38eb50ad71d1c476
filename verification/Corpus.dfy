/** Fixing a whole corpus of documents and checking it again. */
module Corpus {
  import opened Citations
  import opened Reanchor
  import opened Fixpoint
  import opened Recheck
  import opened LooseRecheck
  import opened Pass
  import opened TouchedLines
  import L = LineMap

  /** The corpus as a pass leaves it. */
  function AfterPass(m: Mode, jobs: seq<Job>, s: Progress): (r: seq<Job>)
    requires Loaded(m.env, s.now)
    ensures |r| == |jobs|
  {
    seq(|jobs|, k requires 0 <= k < |jobs| => jobs[k].(cur := Left(m, jobs[k], Passed(m, jobs[..k], s).now)))
  }

  /** A check of a corpus from scratch. */
  function Checked(env: Env, now: Sources, jobs: seq<Job>): Progress
    requires Loaded(env, now)
  {
    Passed(Mode(env, false, {}), jobs, Started(now))
  }

  lemma AfterPrefix(m: Mode, jobs: seq<Job>, s: Progress, n: nat)
    requires Loaded(m.env, s.now) && n <= |jobs|
    ensures AfterPass(m, jobs, s)[..n] == AfterPass(m, jobs[..n], s)
  {
    hide Passed, Left;
    forall k | 0 <= k < n ensures AfterPass(m, jobs, s)[k] == AfterPass(m, jobs[..n], s)[k] {
      assert jobs[..n][..k] == jobs[..k];
    }
  }

  // ---- What a document adds to the totals ----------------------------------------------------

  lemma {:induction false} PairAdds(env: Env, now: Sources, doc: string, os: seq<Citation>, cs: seq<Citation>,
                                    t: Tally, u: Tally, z: Tally)
    requires Loaded(env, now) && |os| == |cs| && forall k | 0 <= k < |os| :: os[k].path in env.base
    requires Adds(t, u, z)
    ensures Adds(t, PairTally(env, now, doc, os, cs, u), PairTally(env, now, doc, os, cs, z))
  {
    hide Judge;
    if os != [] {
      var n := |os| - 1;
      PairAdds(env, now, doc, os[..n], cs[..n], t, u, z);
    }
  }

  lemma {:induction false} DocAdds(env: Env, now: Sources, doc: string, paths: seq<string>,
                                   olds: seq<Citation>, curs: seq<Citation>, t: Tally, u: Tally, z: Tally)
    requires Loaded(env, now) && Adds(t, u, z)
    ensures Adds(t, DocTally(env, now, doc, paths, olds, curs, u), DocTally(env, now, doc, paths, olds, curs, z))
  {
    hide PairTally, LooseTally, Adds;
    if paths != [] {
      var n := |paths| - 1;
      DocAdds(env, now, doc, paths[..n], olds, curs, t, u, z);
      var os, cs := OfPath(olds, paths[n]), OfPath(curs, paths[n]);
      var u' := DocTally(env, now, doc, paths[..n], olds, curs, u);
      var z' := DocTally(env, now, doc, paths[..n], olds, curs, z);
      if paths[n] in env.base {
        if |os| == |cs| { PairAdds(env, now, doc, os, cs, t, u', z'); }
        else { LooseAdds(env, now, os, cs, t, u', z'); }
      }
    }
  }

  /** Whatever is repairable has an edit queued. */
  predicate Backed(t: Tally, t': Tally) { |t'.edits| - |t.edits| >= t'.fixable - t.fixable }

  lemma {:induction false} PairBacked(env: Env, now: Sources, doc: string, os: seq<Citation>, cs: seq<Citation>,
                                      t: Tally)
    requires Loaded(env, now) && |os| == |cs| && forall k | 0 <= k < |os| :: os[k].path in env.base
    ensures Backed(t, PairTally(env, now, doc, os, cs, t))
  {
    hide Judge, Rebuilt;
    if os != [] {
      var n := |os| - 1;
      PairBacked(env, now, doc, os[..n], cs[..n], t);
    }
  }

  lemma SpansSome(cites: seq<Citation>, text: string)
    requires cites != []
    ensures SpanEdits(cites, text) != []
  {
  }

  lemma {:induction false} LooseBacked(env: Env, now: Sources, os: seq<Citation>, cs: seq<Citation>, s: Loose)
    requires Loaded(env, now) && forall k | 0 <= k < |os| :: os[k].path in env.base
    ensures Backed(s.tally, LooseTally(env, now, os, cs, s).tally)
  {
    hide MapAnchors, AllRight, SpanEdits, Spelled, Rebuilt;
    if os != [] {
      var n := |os| - 1;
      LooseBacked(env, now, os[..n], cs, s);
      var was := os[n];
      var same := Spelled(cs, was.whole);
      if same != [] && MapAnchors(env.hunks[was.path], was.anchors).Some? {
        SpansSome(same, Rebuilt(was.path, MapAnchors(env.hunks[was.path], was.anchors).value));
      }
    }
  }

  lemma {:induction false} DocBacked(env: Env, now: Sources, doc: string, paths: seq<string>,
                                     olds: seq<Citation>, curs: seq<Citation>, t: Tally)
    requires Loaded(env, now)
    ensures Backed(t, DocTally(env, now, doc, paths, olds, curs, t))
  {
    hide PairTally, LooseTally;
    if paths != [] {
      var n := |paths| - 1;
      DocBacked(env, now, doc, paths[..n], olds, curs, t);
      var os, cs := OfPath(olds, paths[n]), OfPath(curs, paths[n]);
      var t' := DocTally(env, now, doc, paths[..n], olds, curs, t);
      if paths[n] in env.base {
        if |os| == |cs| { PairBacked(env, now, doc, os, cs, t'); }
        else { LooseBacked(env, now, os, cs, Loose(t', {})); }
      }
    }
  }

  /** What one document adds, both as it is counted and as it is given back. */
  lemma DocumentAdds(m: Mode, job: Job, s: Progress)
    requires Loaded(m.env, s.now) && job.base.Some?
    ensures var t, r := Queued(m, job, s), Next(m, job, s);
            t.drifted - s.tally.drifted == (t.fixable - s.tally.fixable) + (t.unmappable - s.tally.unmappable)
            && t.unmappable >= s.tally.unmappable
            && r.tally.unmappable == t.unmappable
            && r.withheld - s.withheld == if m.fix && job.name in m.misaimed then t.fixable - s.tally.fixable else 0
  {
    hide DocTally, Cites, Paths;
    var olds, curs := Cites(job.base.value, 0), Cites(job.cur, 0);
    DocTallyGrows(m.env, s.now, job.name, Paths(olds), olds, curs, s.tally.(edits := []));
    DocBacked(m.env, s.now, job.name, Paths(olds), olds, curs, s.tally.(edits := []));
  }

  /** A check counts a document as a pass over it does, when neither the document nor the sources changed. */
  lemma SameDocumentAgain(m: Mode, env': Env, job: Job, s: Progress, s': Progress)
    requires Loaded(m.env, s.now) && job.base.Some? && env' == m.env && s'.now == s.now
    ensures var t, t' := Queued(m, job, s), Queued(Mode(env', false, {}), job, s');
            t'.drifted - s'.tally.drifted == t.drifted - s.tally.drifted
            && t'.fixable - s'.tally.fixable == t.fixable - s.tally.fixable
            && t'.unmappable - s'.tally.unmappable == t.unmappable - s.tally.unmappable
  {
    hide DocTally, Cites, Paths;
    var olds, curs := Cites(job.base.value, 0), Cites(job.cur, 0);
    DocAdds(m.env, s.now, job.name, Paths(olds), olds, curs, s.tally, s.tally.(edits := []), NOTHING);
    DocAdds(m.env, s.now, job.name, Paths(olds), olds, curs, s'.tally, s'.tally.(edits := []), NOTHING);
  }

  // ---- Fix, then check -----------------------------------------------------------------------

  /** A document cites each tracked path as often as its base did. */
  predicate JobPaired(env: Env, job: Job) {
    job.base.Some? ==> Paired(env, Cites(job.base.value, 0), Cites(job.cur, 0))
  }

  /** What the check adds for one document of the fixed corpus. */
  lemma DocumentAgain(m: Mode, scripts: map<string, L.Script>, job: Job, s: Progress, s': Progress)
    requires m.fix && Sound(m.env, s.now, scripts) && VersionedHold(m.env, s.now) && s'.now == s.now
    requires JobPaired(m.env, job) && job.base.Some?
    ensures Loaded(m.env, s.now)
    ensures var check, after := Mode(m.env, false, {}), job.(cur := Left(m, job, s.now));
            var first, again := Next(m, job, s), Next(check, after, s');
            again.tally.unmappable - s'.tally.unmappable == first.tally.unmappable - s.tally.unmappable
            && again.tally.fixable - s'.tally.fixable == first.withheld - s.withheld
            && again.tally.drifted - s'.tally.drifted
               == (first.tally.unmappable - s.tally.unmappable) + (first.withheld - s.withheld)
  {
    hide DocTally, MovesOf, Sound, VersionedHold, Paired, Cites, Paths;
    SoundIsLoaded(m.env, s.now, scripts);
    DocumentAdds(m, job, s);
    if job.name in m.misaimed {
      SameDocumentAgain(m, m.env, job, s, s');
    } else {
      RepairReachesFixpoint(m.env, s.now, scripts, job.name, job.base.value, job.cur,
                            s.tally.(edits := []), s'.tally.(edits := []));
    }
  }

  /** The last document of a corpus, fixed and checked. */
  lemma CheckStep(m: Mode, env': Env, jobs: seq<Job>, s: Progress, now: Sources)
    requires Loaded(m.env, s.now) && Loaded(env', now) && jobs != []
    ensures var n := |jobs| - 1;
            var first := Passed(m, jobs[..n], s);
            Passed(m, jobs, s) == Next(m, jobs[n], first)
            && Checked(env', now, AfterPass(m, jobs, s))
               == Next(Mode(env', false, {}), jobs[n].(cur := Left(m, jobs[n], first.now)),
                       Checked(env', now, AfterPass(m, jobs[..n], s)))
  {
    hide Next, Left;
    AfterPrefix(m, jobs, s, |jobs| - 1);
  }

  lemma NothingLeft(m: Mode, env': Env, start: Sources, now: Sources)
    requires Loaded(m.env, start) && Loaded(env', now)
    ensures Checked(env', now, AfterPass(m, [], Started(start))) == Started(now)
    ensures Passed(m, [], Started(start)) == Started(start)
  {
  }

  lemma CheckedNow(env: Env, now: Sources, jobs: seq<Job>)
    requires Loaded(env, now)
    ensures Checked(env, now, jobs).now == now
  {
    CheckKeepsSources(Mode(env, false, {}), jobs, Started(now));
  }

  lemma NewDocument(m: Mode, job: Job, s: Progress)
    requires Loaded(m.env, s.now) && job.base.None?
    ensures Next(m, job, s) == s
  {
  }

  /**
   * The last document of an undisturbed corpus: pass and check count it as they would if no source
   * had been rewritten.
   */
  lemma StepReads(m: Mode, env': Env, jobs: seq<Job>, start: Sources, touched: LineSet, now: Sources)
    requires SameBase(m.env, env') && Loaded(m.env, start) && Loaded(env', now) && Agree(touched, start, now)
    requires jobs != [] && AllSpared(m, jobs, start, touched) && AllCovered(m, jobs, start, touched)
    ensures var n := |jobs| - 1;
            var job, first := jobs[n], Passed(m, jobs[..n], Started(start));
            var s := first.(now := start);
            var s' := Checked(env', now, AfterPass(m, jobs[..n], Started(start))).(now := start);
            var r, r' := Next(m, job, s), Next(Mode(m.env, false, {}), job.(cur := Left(m, job, start)), s');
            var again := Checked(env', now, AfterPass(m, jobs, Started(start)));
            Passed(m, jobs, Started(start)).tally == r.tally && Passed(m, jobs, Started(start)).withheld == r.withheld
            && again.tally.drifted == r'.tally.drifted && (env' == m.env ==> again.tally == r'.tally)
  {
    hide Next, Left, Passed, Checked, AfterPass, Tidy, Agree, DocAvoids, Covers, Cites;
    var n := |jobs| - 1;
    var job, first := jobs[n], Passed(m, jobs[..n], Started(start));
    var s' := Checked(env', now, AfterPass(m, jobs[..n], Started(start)));
    CheckStep(m, env', jobs, Started(start), now);
    CheckedNow(env', now, AfterPass(m, jobs[..n], Started(start)));
    PassAgrees(m, jobs[..n], start, touched);
    NextReads(m, job, start, touched, first);
    CheckReads(m.env, env', job.(cur := Left(m, job, start)), start, touched, s');
  }

  lemma {:induction false} FixThenCheckOn(m: Mode, env': Env, jobs: seq<Job>, scripts: map<string, L.Script>,
                                          start: Sources, touched: LineSet, now: Sources)
    requires m.fix && SameBase(m.env, env') && Sound(m.env, start, scripts) && VersionedHold(m.env, start)
    requires Loaded(m.env, start) && Loaded(env', now) && Agree(touched, start, now)
    requires AllSpared(m, jobs, start, touched) && AllCovered(m, jobs, start, touched)
    requires forall k | 0 <= k < |jobs| :: JobPaired(m.env, jobs[k])
    ensures FixedAgain(env' == m.env, Passed(m, jobs, Started(start)),
                       Checked(env', now, AfterPass(m, jobs, Started(start))))
  {
    hide JobPaired, Sound, VersionedHold, Next, Left, Passed, Checked, AfterPass, Agree, Tidy, Spared, Covers;
    if jobs == [] {
      NothingLeft(m, env', start, now);
    } else {
      var n := |jobs| - 1;
      var job := jobs[n];
      FixThenCheckOn(m, env', jobs[..n], scripts, start, touched, now);
      StepReads(m, env', jobs, start, touched, now);
      var s := Passed(m, jobs[..n], Started(start)).(now := start);
      var s' := Checked(env', now, AfterPass(m, jobs[..n], Started(start))).(now := start);
      if job.base.Some? {
        DocumentAgain(m, scripts, job, s, s');
      } else {
        NewDocument(m, job, s);
        NewDocument(Mode(m.env, false, {}), job.(cur := Left(m, job, start)), s');
      }
    }
  }

  /**
   * The check reports exactly the citations the pass left to a human or withheld; against the same
   * hunks it also sorts them as the pass did.
   */
  predicate FixedAgain(sameHunks: bool, first: Progress, again: Progress) {
    again.tally.drifted == first.tally.unmappable + first.withheld
    && (sameHunks ==> again.tally.unmappable == first.tally.unmappable && again.tally.fixable == first.withheld)
  }

  /**
   * Fix, then check from scratch: over any corpus whose documents cite each tracked path as often as
   * their base did, and none of whose comparisons reads a line the pass touches, the check reports
   * exactly the citations the pass left to a human or withheld, whichever sources it rewrote.
   */
  lemma FixThenCheck(m: Mode, env': Env, jobs: seq<Job>, scripts: map<string, L.Script>, start: Sources)
    requires m.fix && SameBase(m.env, env') && Sound(m.env, start, scripts) && VersionedHold(m.env, start)
    requires Loaded(m.env, start) && Loaded(env', start) && Undisturbed(m, jobs, start)
    requires forall k | 0 <= k < |jobs| :: JobPaired(m.env, jobs[k])
    ensures var first := Passed(m, jobs, Started(start));
            Loaded(env', first.now)
            && FixedAgain(env' == m.env, first, Checked(env', first.now, AfterPass(m, jobs, Started(start))))
  {
    hide JobPaired, Sound, VersionedHold, Passed, Checked, AfterPass, AllSpared, AllCovered;
    var touched := Touched(m, jobs, start);
    TouchedCovers(m, jobs, start);
    PassAgrees(m, jobs, start, touched);
    FixThenCheckOn(m, env', jobs, scripts, start, touched, Passed(m, jobs, Started(start)).now);
  }

  /** No path of a rewritten document collides with a stale spelling. */
  ghost predicate CollisionFree(m: Mode, now: Sources, job: Job)
    requires Loaded(m.env, now)
  {
    job.base.Some? && job.name !in m.misaimed ==>
      var olds, curs := Cites(job.base.value, 0), Cites(job.cur, 0);
      forall j | 0 <= j < |Paths(olds)| :: !CollidesOn(m.env, now, olds, curs, Paths(olds)[j])
  }

  ghost predicate AllFree(m: Mode, now: Sources, jobs: seq<Job>)
    requires Loaded(m.env, now)
  {
    forall k | 0 <= k < |jobs| :: CollisionFree(m, now, jobs[k])
  }

  lemma AllFreeNext(m: Mode, now: Sources, jobs: seq<Job>)
    requires Loaded(m.env, now) && jobs != []
    ensures var n := |jobs| - 1; AllFree(m, now, jobs) <==> AllFree(m, now, jobs[..n]) && CollisionFree(m, now, jobs[n])
  {
    hide CollisionFree;
  }

  lemma NoneCollides(m: Mode, now: Sources)
    requires Loaded(m.env, now)
    ensures AllFree(m, now, [])
  {
  }

  lemma DocumentCleanIff(m: Mode, scripts: map<string, L.Script>, job: Job, s: Progress, s': Progress)
    requires m.fix && Sound(m.env, s.now, scripts) && VersionedHold(m.env, s.now) && s'.now == s.now
    requires job.base.Some?
    ensures Loaded(m.env, s.now)
    ensures var check, after := Mode(m.env, false, {}), job.(cur := Left(m, job, s.now));
            var first, again := Next(m, job, s), Next(check, after, s');
            again.tally.drifted >= s'.tally.drifted
            && first.tally.unmappable >= s.tally.unmappable && first.withheld >= s.withheld
            && (again.tally.drifted == s'.tally.drifted
                <==> first.tally.unmappable == s.tally.unmappable && first.withheld == s.withheld
                     && CollisionFree(m, s.now, job))
  {
    hide DocTally, MovesOf, Sound, VersionedHold, Cites, Paths, CollidesOn;
    SoundIsLoaded(m.env, s.now, scripts);
    DocumentAdds(m, job, s);
    var check, after := Mode(m.env, false, {}), job.(cur := Left(m, job, s.now));
    DocumentAdds(check, after, s');
    if job.name in m.misaimed {
      SameDocumentAgain(m, m.env, job, s, s');
    } else {
      DocumentFixpointIff(m.env, s.now, scripts, job.name, job.base.value, job.cur,
                          s.tally.(edits := []), s'.tally.(edits := []));
    }
  }

  lemma {:induction false} CleanAgainOn(m: Mode, env': Env, jobs: seq<Job>, scripts: map<string, L.Script>,
                                        start: Sources, touched: LineSet, now: Sources)
    requires m.fix && SameBase(m.env, env') && Sound(m.env, start, scripts) && VersionedHold(m.env, start)
    requires Loaded(m.env, start) && Loaded(env', now) && Agree(touched, start, now)
    requires AllSpared(m, jobs, start, touched) && AllCovered(m, jobs, start, touched)
    ensures var first := Passed(m, jobs, Started(start));
            Checked(env', now, AfterPass(m, jobs, Started(start))).tally.drifted == 0
            <==> first.tally.unmappable == 0 && first.withheld == 0 && AllFree(m, start, jobs)
  {
    hide Sound, VersionedHold, Next, Left, Passed, Checked, AfterPass, Agree, Tidy, Spared, Covers;
    hide CollisionFree, AllFree;
    if jobs == [] {
      NothingLeft(m, env', start, now);
      NoneCollides(m, start);
    } else {
      var n := |jobs| - 1;
      var job := jobs[n];
      CleanAgainOn(m, env', jobs[..n], scripts, start, touched, now);
      AllFreeNext(m, start, jobs);
      StepReads(m, env', jobs, start, touched, now);
      var s := Passed(m, jobs[..n], Started(start)).(now := start);
      var s' := Checked(env', now, AfterPass(m, jobs[..n], Started(start))).(now := start);
      if job.base.Some? {
        DocumentCleanIff(m, scripts, job, s, s');
      } else {
        NewDocument(m, job, s);
        NewDocument(Mode(m.env, false, {}), job.(cur := Left(m, job, start)), s');
        NewIsFree(m, start, job);
      }
    }
  }

  lemma NewIsFree(m: Mode, now: Sources, job: Job)
    requires Loaded(m.env, now) && job.base.None?
    ensures CollisionFree(m, now, job)
  {
  }

  /**
   * Fix, then check from scratch, for documents of every kind: where no comparison reads a line the
   * pass touches, the check is clean exactly when the pass left nothing to a human, withheld nothing,
   * and rewrote no citation into the spelling of a stale base citation on a path whose citation count
   * changed.
   */
  lemma CleanAgainIff(m: Mode, env': Env, jobs: seq<Job>, scripts: map<string, L.Script>, start: Sources)
    requires m.fix && SameBase(m.env, env') && Sound(m.env, start, scripts) && VersionedHold(m.env, start)
    requires Loaded(m.env, start) && Loaded(env', start) && Undisturbed(m, jobs, start)
    ensures var first := Passed(m, jobs, Started(start));
            Loaded(env', first.now)
            && (Checked(env', first.now, AfterPass(m, jobs, Started(start))).tally.drifted == 0
                <==> first.tally.unmappable == 0 && first.withheld == 0 && AllFree(m, start, jobs))
  {
    hide Sound, VersionedHold, Passed, Checked, AfterPass, AllSpared, AllCovered, AllFree;
    var touched := Touched(m, jobs, start);
    TouchedCovers(m, jobs, start);
    PassAgrees(m, jobs, start, touched);
    CleanAgainOn(m, env', jobs, scripts, start, touched, Passed(m, jobs, Started(start)).now);
  }
}
