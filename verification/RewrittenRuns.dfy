/** A pass that rewrites tracked sources, and the check made from scratch after it. */
module RewrittenRuns {
  import opened Ascii
  import opened Wrappers
  import opened Citations
  import opened Reanchor
  import opened Fixpoint
  import opened Recheck
  import opened LooseRecheck
  import opened Pass
  import opened RewrittenLines
  import opened TouchedLines
  import opened Corpus
  import opened RewrittenSources
  import L = LineMap

  // ---- Which lines a run rewrites --------------------------------------------------------------

  /** The sources as the pass comes to document `k`. */
  function Stage(m: Mode, jobs: seq<Job>, start: Sources, k: nat): (r: Sources)
    requires Loaded(m.env, start) && k <= |jobs|
    ensures Loaded(m.env, r)
  {
    Passed(m, jobs[..k], Started(start)).now
  }

  /** The document is a tracked source, and what its queue makes of it reads otherwise on line `n`. */
  predicate Rewords(m: Mode, job: Job, s: Progress, n: int)
    requires Loaded(m.env, s.now)
  {
    job.base.Some? && job.name in s.now && Rewrites(m, job, Queued(m, job, s))
    && LineOf(Lines(Render(Left(m, job, s.now))), n) != LineOf(s.now[job.name], n)
  }

  /** The queue of a document from the `from`-th on rewrites line `n` of the source `p`. */
  ghost predicate RewordedFrom(m: Mode, jobs: seq<Job>, start: Sources, from: nat, p: string, n: int)
    requires Loaded(m.env, start)
  {
    exists j :: from <= j < |jobs| && jobs[j].name == p && Rewords(m, jobs[j], Passed(m, jobs[..j], Started(start)), n)
  }

  /** The lines of sources that the queues of the documents from the `from`-th on rewrite. */
  ghost function Reworded(m: Mode, jobs: seq<Job>, start: Sources, from: nat): LineSet
    requires Loaded(m.env, start)
  {
    iset p: string, n: int | RewordedFrom(m, jobs, start, from, p, n) :: (p, n)
  }

  /** `git ls-files` names a file once. */
  predicate NamesOnce(jobs: seq<Job>) {
    forall i, j | 0 <= i < j < |jobs| :: jobs[i].name != jobs[j].name
  }

  /** A source no document of the stretch is stays as it is. */
  lemma {:induction false} StaysUnwritten(m: Mode, jobs: seq<Job>, start: Sources, i: nat, k: nat, p: string)
    requires Loaded(m.env, start) && i <= k <= |jobs| && p in Stage(m, jobs, start, i)
    requires forall j | i <= j < k :: jobs[j].name != p
    ensures p in Stage(m, jobs, start, k) && Stage(m, jobs, start, k)[p] == Stage(m, jobs, start, i)[p]
    decreases k
  {
    hide Queued, Left, Passed;
    if i < k {
      StaysUnwritten(m, jobs, start, i, k - 1, p);
      PassedNext(m, jobs, k - 1, Started(start));
    }
  }

  lemma StageKeys(m: Mode, jobs: seq<Job>, start: Sources, i: nat)
    requires Loaded(m.env, start) && i < |jobs|
    ensures Stage(m, jobs, start, i + 1).Keys == Stage(m, jobs, start, i).Keys
  {
    hide Queued, Left, Passed;
    PassedNext(m, jobs, i, Started(start));
  }

  /** What the document `k` itself does to its own source. */
  lemma OwnSource(m: Mode, jobs: seq<Job>, start: Sources, k: nat, n: int)
    requires Loaded(m.env, start) && k < |jobs| && jobs[k].name in Stage(m, jobs, start, k)
    ensures jobs[k].name in Stage(m, jobs, start, k + 1)
    ensures LineOf(Stage(m, jobs, start, k)[jobs[k].name], n) != LineOf(Stage(m, jobs, start, k + 1)[jobs[k].name], n)
            <==> Rewords(m, jobs[k], Passed(m, jobs[..k], Started(start)), n)
  {
    hide Queued, Left, Passed;
    PassedNext(m, jobs, k, Started(start));
  }

  lemma RewordedStep(m: Mode, jobs: seq<Job>, start: Sources, k: nat, p: string, n: int)
    requires Loaded(m.env, start) && k < |jobs|
    ensures RewordedFrom(m, jobs, start, k, p, n)
            <==> RewordedFrom(m, jobs, start, k + 1, p, n)
                 || (jobs[k].name == p && Rewords(m, jobs[k], Passed(m, jobs[..k], Started(start)), n))
  {
    hide Rewords, Passed;
  }

  /** Between document `k` and the end, a line reads otherwise exactly when some queue rewrites it. */
  lemma {:induction false} RewordedLine(m: Mode, jobs: seq<Job>, start: Sources, k: nat, p: string, n: int)
    requires Loaded(m.env, start) && k <= |jobs| && NamesOnce(jobs) && p in Stage(m, jobs, start, k)
    ensures p in Stage(m, jobs, start, |jobs|)
    ensures RewordedFrom(m, jobs, start, k, p, n)
            <==> LineOf(Stage(m, jobs, start, k)[p], n) != LineOf(Stage(m, jobs, start, |jobs|)[p], n)
    decreases |jobs| - k
  {
    hide Rewords, Stage;
    if k < |jobs| {
      RewordedStep(m, jobs, start, k, p, n);
      StageKeys(m, jobs, start, k);
      RewordedLine(m, jobs, start, k + 1, p, n);
      if jobs[k].name == p {
        OwnSource(m, jobs, start, k, n);
        StaysUnwritten(m, jobs, start, k + 1, |jobs|, p);
      } else {
        StaysUnwritten(m, jobs, start, k, k + 1, p);
      }
    }
  }

  lemma RewordedTracks(m: Mode, jobs: seq<Job>, start: Sources, k: nat)
    requires Loaded(m.env, start) && k <= |jobs| && NamesOnce(jobs)
    ensures Tracks(Stage(m, jobs, start, k), Stage(m, jobs, start, |jobs|), Reworded(m, jobs, start, k))
  {
    hide Stage, RewordedFrom;
    var rest, now := Stage(m, jobs, start, k), Stage(m, jobs, start, |jobs|);
    forall p, n | p in rest && p in now
      ensures (p, n) in Reworded(m, jobs, start, k) <==> LineOf(rest[p], n) != LineOf(now[p], n)
    {
      RewordedLine(m, jobs, start, k, p, n);
    }
  }

  // ---- The condition on a run -------------------------------------------------------------------

  /** Every citation that document `k` settles names only lines no queue rewrites from then on. */
  ghost predicate StandsInRun(m: Mode, jobs: seq<Job>, start: Sources, k: nat)
    requires Loaded(m.env, start) && k < |jobs|
  {
    JobStands(m, jobs[k], Stage(m, jobs, start, k), Reworded(m, jobs, start, 0), Reworded(m, jobs, start, k))
  }

  lemma BrokenInRun(m: Mode, jobs: seq<Job>, scripts: map<string, L.Script>, start: Sources, k: nat, f: Flips)
    requires m.fix && Sound(m.env, start, scripts) && VersionedHold(m.env, start) && NamesOnce(jobs) && k < |jobs|
    requires Loaded(m.env, start) && VersionedHold(m.env, Stage(m, jobs, start, |jobs|))
    ensures var f' := JobFlips(m, jobs[k], Stage(m, jobs, start, k), Stage(m, jobs, start, |jobs|), f);
            f'.broken >= f.broken && (f'.broken == f.broken <==> StandsInRun(m, jobs, start, k))
  {
    hide VersionedHold, Sound, JobFlips, JobStands, Passed, Tracks, Reworded;
    RewordedTracks(m, jobs, start, 0);
    RewordedTracks(m, jobs, start, k);
    StageEnds(m, jobs, start);
    JobBrokenIff(m, jobs[k], scripts, start, Stage(m, jobs, start, k), Stage(m, jobs, start, |jobs|),
                 Reworded(m, jobs, start, 0), Reworded(m, jobs, start, k), f);
  }

  lemma {:induction false} RunBrokenIff(m: Mode, jobs: seq<Job>, scripts: map<string, L.Script>, start: Sources, n: nat)
    requires m.fix && Sound(m.env, start, scripts) && VersionedHold(m.env, start) && NamesOnce(jobs) && n <= |jobs|
    requires Loaded(m.env, start) && VersionedHold(m.env, Stage(m, jobs, start, |jobs|))
    ensures RunFlips(m, jobs[..n], start, Stage(m, jobs, start, |jobs|)).broken == 0
            <==> forall k | 0 <= k < n :: StandsInRun(m, jobs, start, k)
  {
    hide VersionedHold, Sound, JobFlips, StandsInRun, RunFlips, Stage;
    var now := Stage(m, jobs, start, |jobs|);
    if n == 0 {
      NoFlips(m, jobs, start, now);
    } else {
      RunBrokenIff(m, jobs, scripts, start, n - 1);
      RunFlipsStep(m, jobs, start, now, n - 1);
      BrokenInRun(m, jobs, scripts, start, n - 1, RunFlips(m, jobs[..n - 1], start, now));
    }
  }

  lemma NoFlips(m: Mode, jobs: seq<Job>, start: Sources, now: Sources)
    requires Loaded(m.env, start) && Loaded(m.env, now)
    ensures RunFlips(m, jobs[..0], start, now) == NO_FLIPS
  {
  }

  lemma RunFlipsStep(m: Mode, jobs: seq<Job>, start: Sources, now: Sources, k: nat)
    requires Loaded(m.env, start) && Loaded(m.env, now) && k < |jobs|
    ensures RunFlips(m, jobs[..k + 1], start, now)
            == JobFlips(m, jobs[k], Stage(m, jobs, start, k), now, RunFlips(m, jobs[..k], start, now))
  {
    hide JobFlips;
    assert jobs[..k + 1][..k] == jobs[..k];
  }

  lemma StageEnds(m: Mode, jobs: seq<Job>, start: Sources)
    requires Loaded(m.env, start)
    ensures Stage(m, jobs, start, 0) == start
    ensures Stage(m, jobs, start, |jobs|) == Passed(m, jobs, Started(start)).now && jobs[..|jobs|] == jobs
  {
    assert jobs[..|jobs|] == jobs && jobs[..0] == [];
  }

  /**
   * After a pass that rewrote tracked sources, the check made from scratch reports nothing beyond what
   * the pass left over exactly when no citation the pass settled names a line that a queue of the pass
   * rewrites from then on, unless its transition is declared or the line versioned.
   */
  lemma CheckAfterRewriteIff(m: Mode, env': Env, jobs: seq<Job>, scripts: map<string, L.Script>, start: Sources)
    requires m.fix && SameBase(m.env, env') && Sound(m.env, start, scripts) && VersionedHold(m.env, start)
    requires NamesOnce(jobs) && forall k | 0 <= k < |jobs| :: JobPaired(m.env, jobs[k])
    requires Loaded(m.env, start)
    requires var now := Passed(m, jobs, Started(start)).now; VersionedHold(m.env, now) && Loaded(env', now)
    ensures var first := Passed(m, jobs, Started(start));
            var again := Checked(env', first.now, AfterPass(m, jobs, Started(start)));
            var left := first.tally.unmappable + first.withheld;
            var healed := RunFlips(m, jobs, start, first.now).healed;
            healed <= left && again.tally.drifted + healed >= left
            && (again.tally.drifted + healed == left <==> forall k | 0 <= k < |jobs| :: StandsInRun(m, jobs, start, k))
  {
    hide VersionedHold, JobPaired, Next, Left, JobFlips, StandsInRun, Passed, Checked, RunFlips, AfterPass;
    StageEnds(m, jobs, start);
    RewriteAccount(m, env', jobs, start, Passed(m, jobs, Started(start)).now);
    RunBrokenIff(m, jobs, scripts, start, |jobs|);
  }

  // ---- A bound that can be read off the queues ---------------------------------------------------

  /** Some document's queue touches line `n` of the source `p`, as the pass comes to it. */
  ghost predicate TouchedInRun(m: Mode, jobs: seq<Job>, start: Sources, p: string, n: int)
    requires Loaded(m.env, start)
  {
    exists j :: 0 <= j < |jobs| && jobs[j].name == p && Touches(m, jobs[j], Stage(m, jobs, start, j), n)
  }

  ghost function NotedLines(m: Mode, jobs: seq<Job>, start: Sources): LineSet
    requires Loaded(m.env, start)
  {
    iset p: string, n: int | TouchedInRun(m, jobs, start, p, n) :: (p, n)
  }

  /** As the pass comes to a tracked source it has its text cached, and moves no citation across lines. */
  ghost predicate TidyInRun(m: Mode, jobs: seq<Job>, start: Sources, k: nat)
    requires Loaded(m.env, start) && k < |jobs|
  {
    Tidy(m, jobs[k], Stage(m, jobs, start, k))
  }

  /** A rewritten line is a touched one. */
  lemma RewordedIsTouched(m: Mode, job: Job, s: Progress, n: int)
    requires Loaded(m.env, s.now) && Tidy(m, job, s.now) && Rewords(m, job, s, n)
    ensures Touches(m, job, s.now, n)
  {
    hide OneLine, MovedOn, Planned, Queued, Lines, Render, Repair;
    RewrittenMoves(m, job, s);
    if !MovedOn(job.cur, Planned(m, job, s.now), n - 1) { OffLineKept(job.cur, Planned(m, job, s.now), n); }
  }

  lemma RewordedAreNoted(m: Mode, jobs: seq<Job>, start: Sources, from: nat)
    requires Loaded(m.env, start) && forall k | 0 <= k < |jobs| :: TidyInRun(m, jobs, start, k)
    ensures Reworded(m, jobs, start, from) <= NotedLines(m, jobs, start)
  {
    hide Rewords, Touches, Tidy, Passed;
    forall p, n | RewordedFrom(m, jobs, start, from, p, n) ensures TouchedInRun(m, jobs, start, p, n) {
      var j :| from <= j < |jobs| && jobs[j].name == p && Rewords(m, jobs[j], Passed(m, jobs[..j], Started(start)), n);
      assert TidyInRun(m, jobs, start, j);
      RewordedIsTouched(m, jobs[j], Passed(m, jobs[..j], Started(start)), n);
    }
  }

  /** No citation of document `k` as the pass leaves it names a line some queue touches. */
  ghost predicate LeftAvoids(m: Mode, jobs: seq<Job>, start: Sources, k: nat)
    requires Loaded(m.env, start) && k < |jobs|
  {
    AllAvoid(NotedLines(m, jobs, start), Cites(Left(m, jobs[k], Stage(m, jobs, start, k)), 0))
  }

  lemma AvoidingStands(env: Env, mid: Sources, noted: LineSet, ever: LineSet, since: LineSet, doc: string,
                       was: Citation, cur: Citation, cur': Citation, written: bool)
    requires Loaded(env, mid) && was.path in env.base && ever <= noted && since <= noted
    requires Avoids(noted, cur') && cur'.path == was.path
    requires Follows(cur, if written then PairMove(Judge(env, mid, doc, was, cur)) else None, cur')
    ensures PairStands(env, mid, ever, since, doc, was, cur, cur', written)
  {
    hide AllRight, MapAnchors;
    if Settled(Judge(env, mid, doc, was, cur), written) {
      forall k | 0 <= k < |was.anchors|
        ensures AnchorSteady(env, ever, was.path, was.anchors[k], cur'.anchors[k])
        ensures AnchorSteady(env, since, was.path, was.anchors[k], cur'.anchors[k])
      {
        assert AnchorAvoids(noted, cur'.path, cur'.anchors[k]);
      }
    }
  }

  lemma AvoidingPathStands(env: Env, mid: Sources, noted: LineSet, ever: LineSet, since: LineSet, doc: string,
                           path: string, olds: seq<Citation>, curs: seq<Citation>, curs': seq<Citation>, written: bool)
    requires Loaded(env, mid) && ever <= noted && since <= noted && AllAvoid(noted, curs')
    requires LeftFollows(env, mid, doc, olds, curs, curs', written)
    ensures PathStands(env, mid, ever, since, doc, path, olds, curs, curs', written)
  {
    hide PairStands, Judge, Avoids, LeftFollows, Follows;
    var os, cs, cs' := OfPath(olds, path), OfPath(curs, path), OfPath(curs', path);
    if path in env.base && |os| == |cs| == |cs'| {
      forall j | 0 <= j < |os| ensures PairStands(env, mid, ever, since, doc, os[j], cs[j], cs'[j], written) {
        var k := OfPathFrom(curs', path, j);
        PathFollows(env, mid, doc, path, olds, curs, curs', written, j);
        AvoidingStands(env, mid, noted, ever, since, doc, os[j], cs[j], cs'[j], written);
      }
    }
  }

  lemma AvoidingDocument(m: Mode, jobs: seq<Job>, scripts: map<string, L.Script>, start: Sources, k: nat)
    requires m.fix && Sound(m.env, start, scripts) && Loaded(m.env, start) && k < |jobs|
    requires (forall j | 0 <= j < |jobs| :: TidyInRun(m, jobs, start, j)) && LeftAvoids(m, jobs, start, k)
    ensures StandsInRun(m, jobs, start, k)
  {
    hide TidyInRun, Stage, PathStands, Cites, Paths, MovesOf, Repair, Left, AllAvoid, Reworded, NotedLines, LeftFollows;
    RewordedAreNoted(m, jobs, start, 0);
    RewordedAreNoted(m, jobs, start, k);
    var job, mid := jobs[k], Stage(m, jobs, start, k);
    if job.base.Some? {
      var olds, curs, curs' := Cites(job.base.value, 0), Cites(job.cur, 0), Cites(Left(m, job, mid), 0);
      RepairFollows(m.env, mid, scripts, job.name, job.base.value, job.cur);
      LeftFollowsMoves(m, job, mid);
      forall j | 0 <= j < |Paths(olds)|
        ensures PathStands(m.env, mid, Reworded(m, jobs, start, 0), Reworded(m, jobs, start, k), job.name,
                           Paths(olds)[j], olds, curs, curs', job.name !in m.misaimed)
      {
        AvoidingPathStands(m.env, mid, NotedLines(m, jobs, start), Reworded(m, jobs, start, 0),
                           Reworded(m, jobs, start, k), job.name, Paths(olds)[j], olds, curs, curs',
                           job.name !in m.misaimed);
      }
    }
  }

  /**
   * In particular: where no citation of the documents as left names a line that the pass says it touched,
   * and no citation moved in a tracked source was written across a line break, the check made from
   * scratch reports at most what the pass left to a human or withheld.
   */
  lemma NotedLinesBound(m: Mode, env': Env, jobs: seq<Job>, scripts: map<string, L.Script>, start: Sources)
    requires m.fix && SameBase(m.env, env') && Sound(m.env, start, scripts) && VersionedHold(m.env, start)
    requires NamesOnce(jobs) && forall k | 0 <= k < |jobs| :: JobPaired(m.env, jobs[k])
    requires Loaded(m.env, start)
    requires var now := Passed(m, jobs, Started(start)).now; VersionedHold(m.env, now) && Loaded(env', now)
    requires forall k | 0 <= k < |jobs| :: TidyInRun(m, jobs, start, k) && LeftAvoids(m, jobs, start, k)
    ensures var first := Passed(m, jobs, Started(start));
            Checked(env', first.now, AfterPass(m, jobs, Started(start))).tally.drifted
            <= first.tally.unmappable + first.withheld
  {
    hide VersionedHold, Sound, JobPaired, StandsInRun, Passed, Checked, RunFlips, AfterPass, TidyInRun, LeftAvoids;
    forall k | 0 <= k < |jobs| ensures StandsInRun(m, jobs, start, k) {
      AvoidingDocument(m, jobs, scripts, start, k);
    }
    CheckAfterRewriteIff(m, env', jobs, scripts, start);
  }

  // ---- Documents of every kind -----------------------------------------------------------------

  /**
   * The check by spelling finds nothing: of the base citations still spelled in the document, those that
   * were right name no line rewritten since, and those that were stale hold their text again.
   */
  ghost predicate SpelledStand(env: Env, mid: Sources, now: Sources, since: LineSet, os: seq<Citation>,
                               cs': seq<Citation>)
    requires Loaded(env, mid) && Loaded(env, now) && forall k | 0 <= k < |os| :: os[k].path in env.base
  {
    forall k | 0 <= k < |os| && Spelled(cs', os[k].whole) != [] ::
      if Wrong(env, mid, os[k]) then !Wrong(env, now, os[k])
      else AllSteady(env, since, os[k].path, os[k].anchors, os[k].anchors)
  }

  lemma SpelledCleanIff(env: Env, env': Env, mid: Sources, now: Sources, since: LineSet, os: seq<Citation>,
                        cs': seq<Citation>, t: Tally)
    requires SameBase(env, env') && Loaded(env, mid) && Loaded(env, now) && Loaded(env', now)
    requires VersionedHold(env, now) && Tracks(mid, now, since) && forall k | 0 <= k < |os| :: os[k].path in env.base
    ensures var r := LooseTally(env', now, os, cs', Loose(t, {})).tally;
            r.drifted >= t.drifted && (r.drifted == t.drifted <==> SpelledStand(env, mid, now, since, os, cs'))
  {
    hide LooseTally, AllRight, AllSteady, VersionedHold, Tracks, Spelled;
    LooseAdds(env', now, os, cs', t, t, NOTHING);
    LooseDrift(env', now, os, cs');
    AgreeSelf(iset{}, now);
    forall k | 0 <= k < |os|
      ensures Wrong(env', now, os[k]) == Wrong(env, now, os[k])
      ensures !Wrong(env, mid, os[k]) ==>
                (!Wrong(env, now, os[k]) <==> AllSteady(env, since, os[k].path, os[k].anchors, os[k].anchors))
    {
      SameRight(env, env', iset{}, now, now, os[k].path, os[k].anchors, os[k]);
      if !Wrong(env, mid, os[k]) {
        StaysRightIff(env, mid, now, since, os[k].path, os[k].anchors, os[k].anchors);
      }
    }
    assert forall k | 0 <= k < |os| :: os[k] in os;
  }

  /** Every citation of one path that the pass settled, or that is looked up by spelling, stands. */
  ghost predicate PathHolds(env: Env, mid: Sources, now: Sources, ever: LineSet, since: LineSet, doc: string,
                            path: string, olds: seq<Citation>, curs: seq<Citation>, curs': seq<Citation>,
                            written: bool)
    requires Loaded(env, mid) && Loaded(env, now)
  {
    PathStands(env, mid, ever, since, doc, path, olds, curs, curs', written)
    && (path in env.base && |OfPath(olds, path)| != |OfPath(curs, path)|
        ==> SpelledStand(env, mid, now, since, OfPath(olds, path), OfPath(curs', path)))
  }

  /** What a pass and the check after it add: the check adds no drift exactly under a condition. */
  predicate CleanIff(t: Tally, r: Tally, t': Tally, r': Tally, written: bool, holds: bool) {
    r.unmappable >= t.unmappable && r.fixable >= t.fixable && r'.drifted >= t'.drifted
    && (LeftOver(t, r, written) == 0 ==> (r'.drifted == t'.drifted <==> holds))
  }

  lemma PathCleanIff(env: Env, env': Env, start: Sources, mid: Sources, now: Sources, ever: LineSet, since: LineSet,
                     scripts: map<string, L.Script>, doc: string, path: string, olds: seq<Citation>,
                     curs: seq<Citation>, curs': seq<Citation>, written: bool, t: Tally, t': Tally)
    requires Sound(env, start, scripts) && VersionedHold(env, start) && VersionedHold(env, now)
    requires SameBase(env, env') && Loaded(env, mid) && Loaded(env, now) && Loaded(env', now)
    requires Tracks(start, now, ever) && Tracks(mid, now, since)
    requires (forall o | o in olds :: Written(o)) && LeftFollows(env, mid, doc, olds, curs, curs', written)
    ensures CleanIff(t, PathTally(env, mid, doc, path, olds, curs, t),
                     t', PathTally(env', now, doc, path, olds, curs', t'), written,
                     PathHolds(env, mid, now, ever, since, doc, path, olds, curs, curs', written))
  {
    hide PairTally, LooseTally, PairFlips, PairsStand, SpelledStand, Sound, VersionedHold, Written, Tracks;
    var os, cs, cs' := OfPath(olds, path), OfPath(curs, path), OfPath(curs', path);
    OfPathFollows(curs, curs', path);
    if path in env.base {
      if |os| == |cs| {
        PairsAccount(env, env', mid, now, doc, os, cs, cs', written, t, t', NO_FLIPS);
        PairTallyGrows(env, mid, doc, os, cs, t);
        PathBrokenIff(env, start, mid, now, ever, since, scripts, doc, path, olds, curs, curs', written, NO_FLIPS);
      } else {
        LooseTallyGrows(env, mid, os, cs, Loose(t, {}));
        SpelledCleanIff(env, env', mid, now, since, os, cs', t');
      }
    }
  }

  ghost predicate PathsHold(env: Env, mid: Sources, now: Sources, ever: LineSet, since: LineSet, doc: string,
                            paths: seq<string>, olds: seq<Citation>, curs: seq<Citation>, curs': seq<Citation>,
                            written: bool)
    requires Loaded(env, mid) && Loaded(env, now)
  {
    forall j | 0 <= j < |paths| :: PathHolds(env, mid, now, ever, since, doc, paths[j], olds, curs, curs', written)
  }

  lemma {:induction false} PathsCleanIff(env: Env, env': Env, start: Sources, mid: Sources, now: Sources, ever: LineSet,
                                         since: LineSet, scripts: map<string, L.Script>, doc: string,
                                         paths: seq<string>, olds: seq<Citation>, curs: seq<Citation>,
                                         curs': seq<Citation>, written: bool, t: Tally, t': Tally)
    requires Sound(env, start, scripts) && VersionedHold(env, start) && VersionedHold(env, now)
    requires SameBase(env, env') && Loaded(env, mid) && Loaded(env, now) && Loaded(env', now)
    requires Tracks(start, now, ever) && Tracks(mid, now, since)
    requires (forall o | o in olds :: Written(o)) && LeftFollows(env, mid, doc, olds, curs, curs', written)
    ensures CleanIff(t, DocTally(env, mid, doc, paths, olds, curs, t),
                     t', DocTally(env', now, doc, paths, olds, curs', t'), written,
                     PathsHold(env, mid, now, ever, since, doc, paths, olds, curs, curs', written))
  {
    hide PathTally, PathHolds, Sound, VersionedHold, Written, Tracks, LeftFollows;
    if paths != [] {
      var n := |paths| - 1;
      PathsCleanIff(env, env', start, mid, now, ever, since, scripts, doc, paths[..n], olds, curs, curs', written,
                    t, t');
      PathCleanIff(env, env', start, mid, now, ever, since, scripts, doc, paths[n], olds, curs, curs', written,
                   DocTally(env, mid, doc, paths[..n], olds, curs, t),
                   DocTally(env', now, doc, paths[..n], olds, curs', t'));
    }
  }

  /** Every citation of a document that the pass settled, or that is looked up by spelling, stands. */
  ghost predicate JobHolds(m: Mode, job: Job, mid: Sources, now: Sources, ever: LineSet, since: LineSet)
    requires Loaded(m.env, mid) && Loaded(m.env, now)
  {
    job.base.Some? ==>
      var olds := Cites(job.base.value, 0);
      PathsHold(m.env, mid, now, ever, since, job.name, Paths(olds), olds, Cites(job.cur, 0),
                Cites(Left(m, job, mid), 0), job.name !in m.misaimed)
  }

  lemma JobCleanIff(m: Mode, env': Env, job: Job, scripts: map<string, L.Script>, start: Sources, ever: LineSet,
                    since: LineSet, s: Progress, s': Progress)
    requires m.fix && Sound(m.env, start, scripts) && VersionedHold(m.env, start) && VersionedHold(m.env, s'.now)
    requires SameBase(m.env, env') && Loaded(m.env, s.now) && Loaded(m.env, s'.now) && Loaded(env', s'.now)
    requires Tracks(start, s'.now, ever) && Tracks(s.now, s'.now, since)
    ensures var r, r' := Next(m, job, s), Next(Mode(env', false, {}), job.(cur := Left(m, job, s.now)), s');
            r.tally.unmappable >= s.tally.unmappable && r.withheld >= s.withheld
            && r'.tally.drifted >= s'.tally.drifted
            && (r.tally.unmappable == s.tally.unmappable && r.withheld == s.withheld
                ==> (r'.tally.drifted == s'.tally.drifted <==> JobHolds(m, job, s.now, s'.now, ever, since)))
  {
    hide Written, VersionedHold, DocTally, PathsHold, Cites, Paths, MovesOf, Repair, Tracks, Left;
    if job.base.Some? {
      var olds, curs, written := Cites(job.base.value, 0), Cites(job.cur, 0), job.name !in m.misaimed;
      RepairFollows(m.env, s.now, scripts, job.name, job.base.value, job.cur);
      LeftFollowsMoves(m, job, s.now);
      DocumentAdds(m, job, s);
      PathsCleanIff(m.env, env', start, s.now, s'.now, ever, since, scripts, job.name, Paths(olds), olds, curs,
                    Cites(Left(m, job, s.now), 0), written, s.tally.(edits := []), s'.tally.(edits := []));
    }
  }

  /**
   * Document `k` as left: where a path is cited as often as in the base, no settled citation names a line
   * that a queue rewrites from then on; where it is not, the same holds of every base citation still
   * spelled, unless it was stale and holds its text again.
   */
  ghost predicate HoldsInRun(m: Mode, jobs: seq<Job>, start: Sources, k: nat)
    requires Loaded(m.env, start) && k < |jobs|
  {
    JobHolds(m, jobs[k], Stage(m, jobs, start, k), Stage(m, jobs, start, |jobs|), Reworded(m, jobs, start, 0),
             Reworded(m, jobs, start, k))
  }

  lemma CleanInRun(m: Mode, env': Env, jobs: seq<Job>, scripts: map<string, L.Script>, start: Sources, k: nat,
                   s': Progress)
    requires m.fix && Sound(m.env, start, scripts) && VersionedHold(m.env, start) && NamesOnce(jobs) && k < |jobs|
    requires Loaded(m.env, start) && VersionedHold(m.env, Stage(m, jobs, start, |jobs|))
    requires SameBase(m.env, env') && s'.now == Stage(m, jobs, start, |jobs|) && Loaded(env', s'.now)
    ensures var s := Passed(m, jobs[..k], Started(start));
            var r, r' := Next(m, jobs[k], s), Next(Mode(env', false, {}), jobs[k].(cur := Left(m, jobs[k], s.now)), s');
            r.tally.unmappable >= s.tally.unmappable && r.withheld >= s.withheld
            && r'.tally.drifted >= s'.tally.drifted
            && (r.tally.unmappable == s.tally.unmappable && r.withheld == s.withheld
                ==> (r'.tally.drifted == s'.tally.drifted <==> HoldsInRun(m, jobs, start, k)))
  {
    hide VersionedHold, Sound, JobHolds, Next, Passed, Tracks, Reworded, Left;
    RewordedTracks(m, jobs, start, 0);
    RewordedTracks(m, jobs, start, k);
    StageEnds(m, jobs, start);
    JobCleanIff(m, env', jobs[k], scripts, start, Reworded(m, jobs, start, 0), Reworded(m, jobs, start, k),
                Passed(m, jobs[..k], Started(start)), s');
  }

  lemma {:induction false} RunCleanIff(m: Mode, env': Env, jobs: seq<Job>, scripts: map<string, L.Script>,
                                       start: Sources, n: nat)
    requires m.fix && Sound(m.env, start, scripts) && VersionedHold(m.env, start) && NamesOnce(jobs) && n <= |jobs|
    requires Loaded(m.env, start) && VersionedHold(m.env, Stage(m, jobs, start, |jobs|))
    requires SameBase(m.env, env') && Loaded(env', Stage(m, jobs, start, |jobs|))
    ensures var now := Stage(m, jobs, start, |jobs|);
            var first, again := Passed(m, jobs[..n], Started(start)),
                                Checked(env', now, AfterPass(m, jobs[..n], Started(start)));
            again.now == now
            && (first.tally.unmappable == 0 && first.withheld == 0
                ==> (again.tally.drifted == 0 <==> forall k | 0 <= k < n :: HoldsInRun(m, jobs, start, k)))
  {
    hide VersionedHold, Sound, HoldsInRun, Stage, Next, Left, Passed, Checked, AfterPass;
    var now := Stage(m, jobs, start, |jobs|);
    if n == 0 {
      assert jobs[..0] == [];
      NothingLeft(m, env', start, now);
    } else {
      var k := n - 1;
      RunCleanIff(m, env', jobs, scripts, start, k);
      assert jobs[..n][..k] == jobs[..k] && jobs[..n][k] == jobs[k];
      CheckStep(m, env', jobs[..n], Started(start), now);
      CheckedNow(env', now, AfterPass(m, jobs[..n], Started(start)));
      CleanInRun(m, env', jobs, scripts, start, k, Checked(env', now, AfterPass(m, jobs[..k], Started(start))));
    }
  }

  /**
   * After a pass that left nothing over, over documents of every kind and whatever sources it rewrote,
   * the check made from scratch is clean exactly when every document holds in the run.
   */
  lemma CleanAfterRewriteIff(m: Mode, env': Env, jobs: seq<Job>, scripts: map<string, L.Script>, start: Sources)
    requires m.fix && SameBase(m.env, env') && Sound(m.env, start, scripts) && VersionedHold(m.env, start)
    requires NamesOnce(jobs) && Loaded(m.env, start)
    requires var now := Passed(m, jobs, Started(start)).now; VersionedHold(m.env, now) && Loaded(env', now)
    requires var first := Passed(m, jobs, Started(start)); first.tally.unmappable == 0 && first.withheld == 0
    ensures var first := Passed(m, jobs, Started(start));
            Checked(env', first.now, AfterPass(m, jobs, Started(start))).tally.drifted == 0
            <==> forall k | 0 <= k < |jobs| :: HoldsInRun(m, jobs, start, k)
  {
    hide VersionedHold, Sound, HoldsInRun, Passed, Checked, AfterPass;
    StageEnds(m, jobs, start);
    RunCleanIff(m, env', jobs, scripts, start, |jobs|);
  }
}
