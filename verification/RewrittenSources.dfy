/** Checking a corpus again when the pass rewrote tracked sources that other documents cite. */
module RewrittenSources {
  import opened Wrappers
  import opened Citations
  import opened Reanchor
  import opened Fixpoint
  import opened Recheck
  import opened LooseRecheck
  import opened Pass
  import opened TouchedLines
  import opened Corpus
  import L = LineMap

  // ---- One citation -------------------------------------------------------------------------

  /** The check reports the citation. */
  predicate Drifts(env: Env, now: Sources, doc: string, was: Citation, cur: Citation)
    requires Loaded(env, now) && was.path in env.base
  {
    |was.anchors| != |cur.anchors|
    || (!AllRight(env, now, was.path, was.anchors, cur.anchors) && !DeclaredReaim(env, doc, was.whole, cur.whole))
  }

  /** The hunks decide where a citation moves, never whether it drifts. */
  lemma DriftsJudged(env: Env, env': Env, now: Sources, doc: string, was: Citation, cur: Citation)
    requires SameBase(env, env') && Loaded(env, now) && Loaded(env', now) && was.path in env.base
    ensures Drifts(env, now, doc, was, cur)
            <==> !Judge(env', now, doc, was, cur).Right? && !Judge(env', now, doc, was, cur).Excused?
  {
    hide MapAnchors, AllRight;
    AgreeSelf(iset{}, now);
    if |was.anchors| == |cur.anchors| {
      SameRight(env, env', iset{}, now, now, was.path, was.anchors, cur.(path := was.path));
    }
  }

  /** The pass left the citation right or excused. */
  predicate Settled(v: Verdict, written: bool) { v.Right? || v.Excused? || (v.Moved? && written) }

  /** The set holds exactly the lines that read otherwise in the later sources. */
  ghost predicate Tracks(rest: Sources, now: Sources, changed: LineSet) {
    forall p, n | p in rest && p in now :: (p, n) in changed <==> LineOf(rest[p], n) != LineOf(now[p], n)
  }

  /** The line an endpoint names is not among those changed; a versioned line is held to its token. */
  ghost predicate EndpointSteady(env: Env, changed: LineSet, path: string, lo: int, hi: int) {
    (lo == hi && (path, lo) in env.versioned) || (path, hi) !in changed
  }

  ghost predicate AnchorSteady(env: Env, changed: LineSet, path: string, x: Anchor, y: Anchor) {
    EndpointSteady(env, changed, path, x.a, y.a)
    && (x.b.Some? && y.b.Some? ==> EndpointSteady(env, changed, path, x.b.value, y.b.value))
  }

  ghost predicate AllSteady(env: Env, changed: LineSet, path: string, xs: seq<Anchor>, ys: seq<Anchor>)
    requires |xs| == |ys|
  {
    forall k | 0 <= k < |xs| :: AnchorSteady(env, changed, path, xs[k], ys[k])
  }

  /** A citation that was right stays right exactly when it names no changed line. */
  lemma StaysRightIff(env: Env, rest: Sources, now: Sources, changed: LineSet, path: string,
                      xs: seq<Anchor>, ys: seq<Anchor>)
    requires Loaded(env, rest) && Loaded(env, now) && VersionedHold(env, now) && path in env.base && |xs| == |ys|
    requires AllRight(env, rest, path, xs, ys) && Tracks(rest, now, changed)
    ensures AllRight(env, now, path, xs, ys) <==> AllSteady(env, changed, path, xs, ys)
  {
    hide EndpointRight, EndpointSteady, VersionedHold, Tracks;
    forall k | 0 <= k < |xs|
      ensures AnchorRight(env, now, path, xs[k], ys[k]) == AnchorSteady(env, changed, path, xs[k], ys[k])
    {
      var x, y := xs[k], ys[k];
      assert AnchorRight(env, rest, path, x, y);
      EndpointStaysRight(env, rest, now, changed, path, x.a, y.a);
      if x.b.Some? { EndpointStaysRight(env, rest, now, changed, path, x.b.value, y.b.value); }
    }
  }

  lemma EndpointStaysRight(env: Env, rest: Sources, now: Sources, changed: LineSet, path: string, lo: int, hi: int)
    requires Loaded(env, rest) && Loaded(env, now) && VersionedHold(env, now) && path in env.base
    requires EndpointRight(env, rest, path, lo, hi) && Tracks(rest, now, changed)
    ensures EndpointRight(env, now, path, lo, hi) == EndpointSteady(env, changed, path, lo, hi)
  {
  }

  /**
   * A settled citation still stands: its transition is declared, or it names no line rewritten since it
   * was settled. A citation found right was settled on the sources of that moment, a moved one on the
   * text the line map was drawn from.
   */
  ghost predicate Stands(env: Env, ever: LineSet, since: LineSet, doc: string, v: Verdict,
                         was: Citation, cur: Citation)
  {
    |was.anchors| == |cur.anchors|
    && (DeclaredReaim(env, doc, was.whole, cur.whole)
        || AllSteady(env, if v.Moved? then ever else since, was.path, was.anchors, cur.anchors))
  }

  lemma SettledAgainIff(env: Env, start: Sources, mid: Sources, now: Sources, ever: LineSet, since: LineSet,
                        scripts: map<string, L.Script>, doc: string, was: Citation, cur: Citation, cur': Citation,
                        written: bool)
    requires Sound(env, start, scripts) && VersionedHold(env, start) && VersionedHold(env, now)
    requires Loaded(env, mid) && Loaded(env, now) && was.path in env.base && Written(was)
    requires Tracks(start, now, ever) && Tracks(mid, now, since)
    requires Settled(Judge(env, mid, doc, was, cur), written)
    requires Follows(cur, if written then PairMove(Judge(env, mid, doc, was, cur)) else None, cur')
    ensures !Drifts(env, now, doc, was, cur')
            <==> Stands(env, ever, since, doc, Judge(env, mid, doc, was, cur), was, cur')
  {
    hide VersionedHold, Sound, AllSteady, AllRight, MapAnchors, Tracks;
    SoundIsLoaded(env, start, scripts);
    var v := Judge(env, mid, doc, was, cur);
    if v.Moved? {
      MovedAnchorsRight(env, start, scripts, was.path, was.anchors, v.to);
      StaysRightIff(env, start, now, ever, was.path, was.anchors, cur'.anchors);
    } else if v.Right? {
      StaysRightIff(env, mid, now, since, was.path, was.anchors, cur'.anchors);
    }
  }

  // ---- Counting -----------------------------------------------------------------------------

  /** Settled citations the later check reports, and citations left over that it no longer reports. */
  datatype Flips = Flips(broken: nat, healed: nat)

  const NO_FLIPS := Flips(0, 0)

  function Flip(env: Env, mid: Sources, now: Sources, doc: string, was: Citation, cur: Citation, cur': Citation,
                written: bool, f: Flips): Flips
    requires Loaded(env, mid) && Loaded(env, now) && was.path in env.base
  {
    var settled, drifts := Settled(Judge(env, mid, doc, was, cur), written), Drifts(env, now, doc, was, cur');
    if settled && drifts then f.(broken := f.broken + 1)
    else if !settled && !drifts then f.(healed := f.healed + 1)
    else f
  }

  function PairFlips(env: Env, mid: Sources, now: Sources, doc: string, os: seq<Citation>, cs: seq<Citation>,
                     cs': seq<Citation>, written: bool, f: Flips): Flips
    requires Loaded(env, mid) && Loaded(env, now) && |os| == |cs| == |cs'|
    requires forall k | 0 <= k < |os| :: os[k].path in env.base
  {
    if os == [] then f
    else
      var n := |os| - 1;
      Flip(env, mid, now, doc, os[n], cs[n], cs'[n], written,
           PairFlips(env, mid, now, doc, os[..n], cs[..n], cs'[..n], written, f))
  }

  /** The citations of one path, where the document still cites it as often as its base did. */
  function PathFlips(env: Env, mid: Sources, now: Sources, doc: string, path: string, olds: seq<Citation>,
                     curs: seq<Citation>, curs': seq<Citation>, written: bool, f: Flips): Flips
    requires Loaded(env, mid) && Loaded(env, now)
  {
    var os, cs, cs' := OfPath(olds, path), OfPath(curs, path), OfPath(curs', path);
    if path in env.base && |os| == |cs| == |cs'| then PairFlips(env, mid, now, doc, os, cs, cs', written, f) else f
  }

  function DocFlips(env: Env, mid: Sources, now: Sources, doc: string, paths: seq<string>, olds: seq<Citation>,
                    curs: seq<Citation>, curs': seq<Citation>, written: bool, f: Flips): Flips
    requires Loaded(env, mid) && Loaded(env, now)
  {
    if paths == [] then f
    else
      var n := |paths| - 1;
      PathFlips(env, mid, now, doc, paths[n], olds, curs, curs', written,
                DocFlips(env, mid, now, doc, paths[..n], olds, curs, curs', written, f))
  }

  /** `mid` is what the sources read when the pass came to the document, `now` what they read after it. */
  function JobFlips(m: Mode, job: Job, mid: Sources, now: Sources, f: Flips): Flips
    requires Loaded(m.env, mid) && Loaded(m.env, now)
  {
    if job.base.None? then f
    else
      var olds := Cites(job.base.value, 0);
      DocFlips(m.env, mid, now, job.name, Paths(olds), olds, Cites(job.cur, 0), Cites(Left(m, job, mid), 0),
               job.name !in m.misaimed, f)
  }

  function RunFlips(m: Mode, jobs: seq<Job>, start: Sources, now: Sources): Flips
    requires Loaded(m.env, start) && Loaded(m.env, now)
  {
    if jobs == [] then NO_FLIPS
    else
      var n := |jobs| - 1;
      JobFlips(m, jobs[n], Passed(m, jobs[..n], Started(start)).now, now, RunFlips(m, jobs[..n], start, now))
  }

  // ---- The exact account --------------------------------------------------------------------

  /** How many citations a tally left over: what a human must move, and what was not written. */
  function LeftOver(t: Tally, t': Tally, written: bool): int {
    (t'.unmappable - t.unmappable) + if written then 0 else t'.fixable - t.fixable
  }

  predicate Accounted(first: Tally, first': Tally, again: Tally, again': Tally, f: Flips, f': Flips, written: bool) {
    && again'.drifted - again.drifted + (f'.healed - f.healed)
       == LeftOver(first, first', written) + (f'.broken - f.broken)
    && 0 <= f'.healed - f.healed <= LeftOver(first, first', written) && f'.broken >= f.broken
  }

  lemma PairAccount(env: Env, env': Env, mid: Sources, now: Sources, doc: string, was: Citation, cur: Citation,
                    cur': Citation, written: bool, t: Tally, t': Tally, f: Flips)
    requires SameBase(env, env') && Loaded(env, mid) && Loaded(env, now) && Loaded(env', now) && was.path in env.base
    ensures Accounted(t, AddPair(t, doc, was, cur, Judge(env, mid, doc, was, cur)),
                      t', AddPair(t', doc, was, cur', Judge(env', now, doc, was, cur')),
                      f, Flip(env, mid, now, doc, was, cur, cur', written, f), written)
  {
    hide Judge, Drifts;
    DriftsJudged(env, env', now, doc, was, cur');
  }

  lemma {:induction false} PairsAccount(env: Env, env': Env, mid: Sources, now: Sources, doc: string,
                                        os: seq<Citation>, cs: seq<Citation>, cs': seq<Citation>, written: bool,
                                        t: Tally, t': Tally, f: Flips)
    requires SameBase(env, env') && Loaded(env, mid) && Loaded(env, now) && Loaded(env', now)
    requires |os| == |cs| == |cs'| && forall k | 0 <= k < |os| :: os[k].path in env.base
    ensures Accounted(t, PairTally(env, mid, doc, os, cs, t), t', PairTally(env', now, doc, os, cs', t'),
                      f, PairFlips(env, mid, now, doc, os, cs, cs', written, f), written)
  {
    hide Judge, Flip, AddPair;
    if os != [] {
      var n := |os| - 1;
      PairsAccount(env, env', mid, now, doc, os[..n], cs[..n], cs'[..n], written, t, t', f);
      PairAccount(env, env', mid, now, doc, os[n], cs[n], cs'[n], written,
                  PairTally(env, mid, doc, os[..n], cs[..n], t), PairTally(env', now, doc, os[..n], cs'[..n], t'),
                  PairFlips(env, mid, now, doc, os[..n], cs[..n], cs'[..n], written, f));
    }
  }

  /** Citations, one by one of the same path. */
  predicate SamePaths(curs: seq<Citation>, curs': seq<Citation>) {
    |curs| == |curs'| && forall k | 0 <= k < |curs| :: curs'[k].path == curs[k].path
  }

  lemma {:induction false} PathsAccount(env: Env, env': Env, mid: Sources, now: Sources, doc: string,
                                        paths: seq<string>, olds: seq<Citation>, curs: seq<Citation>,
                                        curs': seq<Citation>, written: bool, t: Tally, t': Tally, f: Flips)
    requires SameBase(env, env') && Loaded(env, mid) && Loaded(env, now) && Loaded(env', now) && SamePaths(curs, curs')
    requires forall k | 0 <= k < |paths| ::
               paths[k] in env.base ==> |OfPath(olds, paths[k])| == |OfPath(curs, paths[k])|
    ensures Accounted(t, DocTally(env, mid, doc, paths, olds, curs, t),
                      t', DocTally(env', now, doc, paths, olds, curs', t'),
                      f, DocFlips(env, mid, now, doc, paths, olds, curs, curs', written, f), written)
  {
    hide PairTally, PairFlips;
    if paths != [] {
      var n := |paths| - 1;
      PathsAccount(env, env', mid, now, doc, paths[..n], olds, curs, curs', written, t, t', f);
      OfPathFollows(curs, curs', paths[n]);
      if paths[n] in env.base {
        PairsAccount(env, env', mid, now, doc, OfPath(olds, paths[n]), OfPath(curs, paths[n]), OfPath(curs', paths[n]),
                     written, DocTally(env, mid, doc, paths[..n], olds, curs, t),
                     DocTally(env', now, doc, paths[..n], olds, curs', t'),
                     DocFlips(env, mid, now, doc, paths[..n], olds, curs, curs', written, f));
      }
    }
  }

  /** A document left by a pass cites the same paths in the same order. */
  lemma LeftSamePaths(m: Mode, job: Job, now: Sources)
    requires Loaded(m.env, now)
    ensures SamePaths(Cites(job.cur, 0), Cites(Left(m, job, now), 0))
  {
    hide MoveOf, Cites, Repair;
    if job.base.Some? {
      var olds, curs := Cites(job.base.value, 0), Cites(job.cur, 0);
      var moves := MovesOf(m.env, now, job.name, olds, curs);
      var doc' := Repair(job.cur, moves);
      RepairedTokens(job.cur, moves);
      forall k | 0 <= k < |curs| ensures Cites(doc', 0)[k].path == curs[k].path {
        CiteIsToken(job.cur, 0, k);
        CiteIsToken(doc', 0, k);
      }
    }
  }

  lemma JobAccount(m: Mode, env': Env, job: Job, now: Sources, s: Progress, s': Progress, f: Flips)
    requires m.fix && SameBase(m.env, env') && Loaded(m.env, s.now) && Loaded(m.env, now) && Loaded(env', now)
    requires s'.now == now && JobPaired(m.env, job)
    ensures var first, again := Next(m, job, s), Next(Mode(env', false, {}), job.(cur := Left(m, job, s.now)), s');
            var f' := JobFlips(m, job, s.now, now, f);
            var left := (first.tally.unmappable - s.tally.unmappable) + (first.withheld - s.withheld);
            again.now == now
            && again.tally.drifted - s'.tally.drifted + (f'.healed - f.healed) == left + (f'.broken - f.broken)
            && 0 <= f'.healed - f.healed <= left && f'.broken >= f.broken
  {
    hide DocTally, DocFlips, Left, Cites, Paths, OfPath;
    if job.base.Some? {
      var olds, curs := Cites(job.base.value, 0), Cites(job.cur, 0);
      DocumentAdds(m, job, s);
      LeftSamePaths(m, job, s.now);
      assert forall k | 0 <= k < |Paths(olds)| :: Paths(olds)[k] in Paths(olds);
      PathsAccount(m.env, env', s.now, now, job.name, Paths(olds), olds, curs, Cites(Left(m, job, s.now), 0),
                   job.name !in m.misaimed, s.tally.(edits := []), s'.tally.(edits := []), f);
    }
  }

  /**
   * The exact account of fix, then check, whatever sources the pass rewrote: the check reports what
   * the pass left to a human or withheld, less what healed, and the settled citations that broke.
   */
  lemma {:induction false} RewriteAccount(m: Mode, env': Env, jobs: seq<Job>, start: Sources, now: Sources)
    requires m.fix && SameBase(m.env, env') && Loaded(m.env, start) && Loaded(m.env, now) && Loaded(env', now)
    requires forall k | 0 <= k < |jobs| :: JobPaired(m.env, jobs[k])
    ensures var first := Passed(m, jobs, Started(start));
            var again := Checked(env', now, AfterPass(m, jobs, Started(start)));
            var f, left := RunFlips(m, jobs, start, now), first.tally.unmappable + first.withheld;
            again.now == now && again.tally.drifted + f.healed == left + f.broken && f.healed <= left
  {
    hide Next, Left, JobFlips, JobPaired;
    if jobs == [] {
      NothingLeft(m, env', start, now);
    } else {
      var n := |jobs| - 1;
      RewriteAccount(m, env', jobs[..n], start, now);
      CheckStep(m, env', jobs, Started(start), now);
      JobAccount(m, env', jobs[n], now, Passed(m, jobs[..n], Started(start)),
                 Checked(env', now, AfterPass(m, jobs[..n], Started(start))), RunFlips(m, jobs[..n], start, now));
    }
  }

  // ---- What breaks --------------------------------------------------------------------------

  ghost predicate PairStands(env: Env, mid: Sources, ever: LineSet, since: LineSet, doc: string,
                             was: Citation, cur: Citation, cur': Citation, written: bool)
    requires Loaded(env, mid) && was.path in env.base
  {
    var v := Judge(env, mid, doc, was, cur);
    Settled(v, written) ==> Stands(env, ever, since, doc, v, was, cur')
  }

  ghost predicate PairsStand(env: Env, mid: Sources, ever: LineSet, since: LineSet, doc: string,
                             os: seq<Citation>, cs: seq<Citation>, cs': seq<Citation>, written: bool)
    requires Loaded(env, mid) && |os| == |cs| == |cs'|
    requires forall k | 0 <= k < |os| :: os[k].path in env.base
  {
    forall k | 0 <= k < |os| :: PairStands(env, mid, ever, since, doc, os[k], cs[k], cs'[k], written)
  }

  lemma {:induction false} PairsBrokenIff(env: Env, start: Sources, mid: Sources, now: Sources, ever: LineSet,
                                          since: LineSet, scripts: map<string, L.Script>, doc: string,
                                          os: seq<Citation>, cs: seq<Citation>, cs': seq<Citation>, written: bool,
                                          f: Flips)
    requires Sound(env, start, scripts) && VersionedHold(env, start) && VersionedHold(env, now)
    requires Loaded(env, mid) && Loaded(env, now) && Tracks(start, now, ever) && Tracks(mid, now, since)
    requires |os| == |cs| == |cs'|
    requires forall k | 0 <= k < |os| :: os[k].path in env.base && Written(os[k])
    requires forall k | 0 <= k < |os| ::
               Follows(cs[k], if written then PairMove(Judge(env, mid, doc, os[k], cs[k])) else None, cs'[k])
    ensures PairFlips(env, mid, now, doc, os, cs, cs', written, f).broken >= f.broken
    ensures PairFlips(env, mid, now, doc, os, cs, cs', written, f).broken == f.broken
            <==> PairsStand(env, mid, ever, since, doc, os, cs, cs', written)
  {
    hide Sound, VersionedHold, Written, Judge, Follows, Drifts, Stands, Tracks;
    if os != [] {
      var n := |os| - 1;
      PairsBrokenIff(env, start, mid, now, ever, since, scripts, doc, os[..n], cs[..n], cs'[..n], written, f);
      if Settled(Judge(env, mid, doc, os[n], cs[n]), written) {
        SettledAgainIff(env, start, mid, now, ever, since, scripts, doc, os[n], cs[n], cs'[n], written);
      }
    }
  }

  /** Every settled citation of one path stands. */
  ghost predicate PathStands(env: Env, mid: Sources, ever: LineSet, since: LineSet, doc: string, path: string,
                             olds: seq<Citation>, curs: seq<Citation>, curs': seq<Citation>, written: bool)
    requires Loaded(env, mid)
  {
    var os, cs, cs' := OfPath(olds, path), OfPath(curs, path), OfPath(curs', path);
    path in env.base && |os| == |cs| == |cs'| ==> PairsStand(env, mid, ever, since, doc, os, cs, cs', written)
  }

  /** Each citation of the document as left follows its move, or stays where nothing was written. */
  ghost predicate LeftFollows(env: Env, mid: Sources, doc: string, olds: seq<Citation>, curs: seq<Citation>,
                              curs': seq<Citation>, written: bool)
    requires Loaded(env, mid)
  {
    |curs| == |curs'|
    && forall k | 0 <= k < |curs| ::
         Follows(curs[k], if written then MoveOf(env, mid, doc, olds, curs, k) else None, curs'[k])
  }

  lemma PathFollows(env: Env, mid: Sources, doc: string, path: string, olds: seq<Citation>, curs: seq<Citation>,
                    curs': seq<Citation>, written: bool, j: nat)
    requires Loaded(env, mid) && LeftFollows(env, mid, doc, olds, curs, curs', written) && path in env.base
    requires j < |OfPath(olds, path)| == |OfPath(curs, path)| == |OfPath(curs', path)|
    ensures var o, c := OfPath(olds, path)[j], OfPath(curs, path)[j];
            Follows(c, if written then PairMove(Judge(env, mid, doc, o, c)) else None, OfPath(curs', path)[j])
  {
    hide Judge;
    var k := OfPathFrom(curs, path, j);
    OfPathFollows(curs[..k], curs'[..k], path);
    OfPathAt(curs', path, k);
    assert Follows(curs[k], if written then MoveOf(env, mid, doc, olds, curs, k) else None, curs'[k]);
  }

  lemma PathBrokenIff(env: Env, start: Sources, mid: Sources, now: Sources, ever: LineSet, since: LineSet,
                      scripts: map<string, L.Script>, doc: string, path: string, olds: seq<Citation>,
                      curs: seq<Citation>, curs': seq<Citation>, written: bool, f: Flips)
    requires Sound(env, start, scripts) && VersionedHold(env, start) && VersionedHold(env, now)
    requires Loaded(env, mid) && Loaded(env, now) && Tracks(start, now, ever) && Tracks(mid, now, since)
    requires (forall o | o in olds :: Written(o)) && LeftFollows(env, mid, doc, olds, curs, curs', written)
    ensures PathFlips(env, mid, now, doc, path, olds, curs, curs', written, f).broken >= f.broken
    ensures PathFlips(env, mid, now, doc, path, olds, curs, curs', written, f).broken == f.broken
            <==> PathStands(env, mid, ever, since, doc, path, olds, curs, curs', written)
  {
    hide Judge, Written, VersionedHold, Sound, PairFlips, PairsStand, Tracks;
    var os, cs, cs' := OfPath(olds, path), OfPath(curs, path), OfPath(curs', path);
    if path in env.base && |os| == |cs| == |cs'| {
      forall j | 0 <= j < |os|
        ensures Written(os[j])
        ensures Follows(cs[j], if written then PairMove(Judge(env, mid, doc, os[j], cs[j])) else None, cs'[j])
      {
        OfPathMember(olds, path, os[j]);
        PathFollows(env, mid, doc, path, olds, curs, curs', written, j);
      }
      PairsBrokenIff(env, start, mid, now, ever, since, scripts, doc, os, cs, cs', written, f);
    }
  }

  lemma {:induction false} DocBrokenIff(env: Env, start: Sources, mid: Sources, now: Sources, ever: LineSet,
                                        since: LineSet, scripts: map<string, L.Script>, doc: string,
                                        paths: seq<string>, olds: seq<Citation>, curs: seq<Citation>,
                                        curs': seq<Citation>, written: bool, f: Flips)
    requires Sound(env, start, scripts) && VersionedHold(env, start) && VersionedHold(env, now)
    requires Loaded(env, mid) && Loaded(env, now) && Tracks(start, now, ever) && Tracks(mid, now, since)
    requires (forall o | o in olds :: Written(o)) && LeftFollows(env, mid, doc, olds, curs, curs', written)
    ensures DocFlips(env, mid, now, doc, paths, olds, curs, curs', written, f).broken >= f.broken
    ensures DocFlips(env, mid, now, doc, paths, olds, curs, curs', written, f).broken == f.broken
            <==> forall j | 0 <= j < |paths| ::
                   PathStands(env, mid, ever, since, doc, paths[j], olds, curs, curs', written)
  {
    hide Written, VersionedHold, Sound, PathFlips, PathStands, LeftFollows, Tracks;
    if paths != [] {
      var n := |paths| - 1;
      DocBrokenIff(env, start, mid, now, ever, since, scripts, doc, paths[..n], olds, curs, curs', written, f);
      PathBrokenIff(env, start, mid, now, ever, since, scripts, doc, paths[n], olds, curs, curs', written,
                    DocFlips(env, mid, now, doc, paths[..n], olds, curs, curs', written, f));
    }
  }

  /** Every settled citation of a document stands. */
  ghost predicate JobStands(m: Mode, job: Job, mid: Sources, ever: LineSet, since: LineSet)
    requires Loaded(m.env, mid)
  {
    job.base.Some? ==>
      var olds := Cites(job.base.value, 0);
      forall j | 0 <= j < |Paths(olds)| ::
        PathStands(m.env, mid, ever, since, job.name, Paths(olds)[j], olds, Cites(job.cur, 0),
                   Cites(Left(m, job, mid), 0), job.name !in m.misaimed)
  }

  lemma JobBrokenIff(m: Mode, job: Job, scripts: map<string, L.Script>, start: Sources, mid: Sources, now: Sources,
                     ever: LineSet, since: LineSet, f: Flips)
    requires m.fix && Sound(m.env, start, scripts) && VersionedHold(m.env, start) && VersionedHold(m.env, now)
    requires Loaded(m.env, mid) && Loaded(m.env, now) && Tracks(start, now, ever) && Tracks(mid, now, since)
    ensures JobFlips(m, job, mid, now, f).broken >= f.broken
    ensures JobFlips(m, job, mid, now, f).broken == f.broken <==> JobStands(m, job, mid, ever, since)
  {
    hide Written, VersionedHold, DocFlips, PathStands, Cites, Paths, MovesOf, Repair, Tracks;
    if job.base.Some? {
      var olds, curs, written := Cites(job.base.value, 0), Cites(job.cur, 0), job.name !in m.misaimed;
      RepairFollows(m.env, mid, scripts, job.name, job.base.value, job.cur);
      LeftFollowsMoves(m, job, mid);
      DocBrokenIff(m.env, start, mid, now, ever, since, scripts, job.name, Paths(olds), olds, curs,
                   Cites(Left(m, job, mid), 0), written, f);
    }
  }

  lemma LeftFollowsMoves(m: Mode, job: Job, mid: Sources)
    requires m.fix && job.base.Some? && Loaded(m.env, mid)
    requires var olds, curs := Cites(job.base.value, 0), Cites(job.cur, 0);
             AllFollow(m.env, mid, job.name, olds, curs,
                       Cites(Repair(job.cur, MovesOf(m.env, mid, job.name, olds, curs)), 0))
    ensures LeftFollows(m.env, mid, job.name, Cites(job.base.value, 0), Cites(job.cur, 0), Cites(Left(m, job, mid), 0),
                        job.name !in m.misaimed)
  {
    hide Cites, Repair, MovesOf, MoveOf;
  }
}
