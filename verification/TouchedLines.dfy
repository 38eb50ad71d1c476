/**
 * The lines of tracked sources that a pass touches, and what it reads the same whether it touches them
 * or not.
 */
module TouchedLines {
  import opened Ascii
  import opened Citations
  import opened Reanchor
  import opened Fixpoint
  import opened Pass
  import opened RewrittenLines

  /** Lines of sources, by path and number. */
  type LineSet = iset<(string, int)>

  /** Off the set, every line reads the same in both. */
  ghost predicate Agree(touched: LineSet, a: Sources, b: Sources) {
    a.Keys == b.Keys
    && forall p, n | p in a && p in b && (p, n) !in touched :: LineOf(a[p], n) == LineOf(b[p], n)
  }

  /** The citation names no line of the set. */
  ghost predicate Avoids(touched: LineSet, c: Citation) {
    forall i | 0 <= i < |c.anchors| :: AnchorAvoids(touched, c.path, c.anchors[i])
  }

  ghost predicate AnchorAvoids(touched: LineSet, path: string, x: Anchor) {
    (path, x.a) !in touched && (x.b.Some? ==> (path, x.b.value) !in touched)
  }

  ghost predicate AllAvoid(touched: LineSet, cites: seq<Citation>) {
    forall k | 0 <= k < |cites| :: Avoids(touched, cites[k])
  }

  /**
   * The citations of a path whose numbers are looked up in the current text: the current ones where
   * they are paired with the base, and those of the base where they are looked up by spelling.
   */
  function LookedUp(olds: seq<Citation>, curs: seq<Citation>, path: string): seq<Citation> {
    if |OfPath(olds, path)| == |OfPath(curs, path)| then OfPath(curs, path) else OfPath(olds, path)
  }

  /** A document none of whose comparisons reads a line of the set. */
  ghost predicate DocAvoids(env: Env, touched: LineSet, olds: seq<Citation>, curs: seq<Citation>) {
    forall p | p in env.base :: AllAvoid(touched, LookedUp(olds, curs, p))
  }

  // ---- Reading a document against other sources ------------------------------------------------

  /** The later check compares against the same base, versioned lines and declarations. */
  predicate SameBase(env: Env, env': Env) {
    env'.base == env.base && env'.versioned == env.versioned && env'.reaims == env.reaims
  }

  lemma SameRight(env: Env, env': Env, touched: LineSet, a: Sources, b: Sources, path: string,
                  xs: seq<Anchor>, c: Citation)
    requires SameBase(env, env') && Loaded(env, a) && Loaded(env', b) && Agree(touched, a, b)
    requires path in env.base && c.path == path && Avoids(touched, c) && |xs| == |c.anchors|
    ensures AllRight(env, a, path, xs, c.anchors) == AllRight(env', b, path, xs, c.anchors)
  {
    hide EndpointRight;
    forall k | 0 <= k < |xs|
      ensures AnchorRight(env, a, path, xs[k], c.anchors[k]) == AnchorRight(env', b, path, xs[k], c.anchors[k])
    {
      var x, y := xs[k], c.anchors[k];
      assert AnchorAvoids(touched, path, y);
      SameEndpoint(env, env', touched, a, b, path, x.a, y.a);
      if x.b.Some? && y.b.Some? { SameEndpoint(env, env', touched, a, b, path, x.b.value, y.b.value); }
    }
  }

  lemma SameEndpoint(env: Env, env': Env, touched: LineSet, a: Sources, b: Sources, path: string, lo: int, hi: int)
    requires SameBase(env, env') && Loaded(env, a) && Loaded(env', b) && Agree(touched, a, b)
    requires path in env.base && (path, hi) !in touched
    ensures EndpointRight(env, a, path, lo, hi) == EndpointRight(env', b, path, lo, hi)
  {
  }

  /** What two readings add: the same drift, and everything the same where the hunks are the same too. */
  predicate SameAdded(env: Env, env': Env, t: Tally, r: Tally, t': Tally, r': Tally) {
    r.drifted - t.drifted == r'.drifted - t'.drifted && (env == env' && t == t' ==> r == r')
  }

  lemma PairReads(env: Env, env': Env, touched: LineSet, a: Sources, b: Sources, doc: string, o: Citation, c: Citation,
                  t: Tally, t': Tally)
    requires SameBase(env, env') && Loaded(env, a) && Loaded(env', b) && Agree(touched, a, b)
    requires o.path in env.base && c.path == o.path && Avoids(touched, c)
    ensures SameAdded(env, env', t, AddPair(t, doc, o, c, Judge(env, a, doc, o, c)),
                      t', AddPair(t', doc, o, c, Judge(env', b, doc, o, c)))
    ensures env == env' ==> Judge(env, a, doc, o, c) == Judge(env, b, doc, o, c)
  {
    hide AllRight, MapAnchors, Agree, Avoids;
    if |o.anchors| == |c.anchors| { SameRight(env, env', touched, a, b, o.path, o.anchors, c); }
  }

  lemma {:induction false} PairsRead(env: Env, env': Env, touched: LineSet, a: Sources, b: Sources, doc: string,
                                     os: seq<Citation>, cs: seq<Citation>, t: Tally, t': Tally)
    requires SameBase(env, env') && Loaded(env, a) && Loaded(env', b) && Agree(touched, a, b) && |os| == |cs|
    requires AllAvoid(touched, cs) && forall k | 0 <= k < |os| :: os[k].path in env.base && cs[k].path == os[k].path
    ensures SameAdded(env, env', t, PairTally(env, a, doc, os, cs, t), t', PairTally(env', b, doc, os, cs, t'))
  {
    hide Judge, AddPair, Agree, Avoids;
    if os != [] {
      var n := |os| - 1;
      PairsRead(env, env', touched, a, b, doc, os[..n], cs[..n], t, t');
      PairReads(env, env', touched, a, b, doc, os[n], cs[n],
                PairTally(env, a, doc, os[..n], cs[..n], t), PairTally(env', b, doc, os[..n], cs[..n], t'));
    }
  }

  lemma {:induction false} LooseReads(env: Env, env': Env, touched: LineSet, a: Sources, b: Sources,
                                      os: seq<Citation>, cs: seq<Citation>, t: Tally, t': Tally)
    requires SameBase(env, env') && Loaded(env, a) && Loaded(env', b) && Agree(touched, a, b)
    requires AllAvoid(touched, os) && forall k | 0 <= k < |os| :: os[k].path in env.base
    ensures var r, r' := LooseTally(env, a, os, cs, Loose(t, {})), LooseTally(env', b, os, cs, Loose(t', {}));
            r.counted == r'.counted && SameAdded(env, env', t, r.tally, t', r'.tally)
  {
    hide AllRight, MapAnchors, SpanEdits, Spelled, Agree, Avoids;
    if os != [] {
      var n := |os| - 1;
      LooseReads(env, env', touched, a, b, os[..n], cs, t, t');
      SameRight(env, env', touched, a, b, os[n].path, os[n].anchors, os[n]);
    }
  }

  lemma PathReads(env: Env, env': Env, touched: LineSet, a: Sources, b: Sources, doc: string, path: string,
                  olds: seq<Citation>, curs: seq<Citation>, t: Tally, t': Tally)
    requires SameBase(env, env') && Loaded(env, a) && Loaded(env', b) && Agree(touched, a, b)
    requires DocAvoids(env, touched, olds, curs)
    ensures SameAdded(env, env', t, PathTally(env, a, doc, path, olds, curs, t),
                      t', PathTally(env', b, doc, path, olds, curs, t'))
  {
    hide PairTally, LooseTally, Agree, AllAvoid;
    var os, cs := OfPath(olds, path), OfPath(curs, path);
    if path in env.base {
      assert AllAvoid(touched, LookedUp(olds, curs, path));
      if |os| == |cs| {
        PairsRead(env, env', touched, a, b, doc, os, cs, t, t');
      } else {
        LooseReads(env, env', touched, a, b, os, cs, t, t');
      }
    }
  }

  lemma {:induction false} DocReads(env: Env, env': Env, touched: LineSet, a: Sources, b: Sources, doc: string,
                                    paths: seq<string>, olds: seq<Citation>, curs: seq<Citation>, t: Tally, t': Tally)
    requires SameBase(env, env') && Loaded(env, a) && Loaded(env', b) && Agree(touched, a, b)
    requires DocAvoids(env, touched, olds, curs)
    ensures SameAdded(env, env', t, DocTally(env, a, doc, paths, olds, curs, t),
                      t', DocTally(env', b, doc, paths, olds, curs, t'))
  {
    hide PathTally, Agree, DocAvoids;
    if paths != [] {
      var n := |paths| - 1;
      DocReads(env, env', touched, a, b, doc, paths[..n], olds, curs, t, t');
      PathReads(env, env', touched, a, b, doc, paths[n], olds, curs,
                DocTally(env, a, doc, paths[..n], olds, curs, t), DocTally(env', b, doc, paths[..n], olds, curs, t'));
    }
  }

  // ---- What moves ---------------------------------------------------------------------------

  lemma {:induction false} FirstWrongReads(env: Env, touched: LineSet, a: Sources, b: Sources, os: seq<Citation>,
                                           whole: string)
    requires Loaded(env, a) && Loaded(env, b) && Agree(touched, a, b)
    requires AllAvoid(touched, os) && forall k | 0 <= k < |os| :: os[k].path in env.base
    ensures FirstWrong(env, a, os, whole) == FirstWrong(env, b, os, whole)
  {
    hide AllRight, Agree, Avoids;
    if os != [] {
      var n := |os| - 1;
      FirstWrongReads(env, touched, a, b, os[..n], whole);
      SameRight(env, env, touched, a, b, os[n].path, os[n].anchors, os[n]);
    }
  }

  lemma MoveReads(env: Env, touched: LineSet, a: Sources, b: Sources, doc: string,
                  olds: seq<Citation>, curs: seq<Citation>, k: nat)
    requires Loaded(env, a) && Loaded(env, b) && Agree(touched, a, b)
    requires DocAvoids(env, touched, olds, curs) && k < |curs|
    ensures MoveOf(env, a, doc, olds, curs, k) == MoveOf(env, b, doc, olds, curs, k)
  {
    hide Judge, Agree, FirstWrong;
    var p := curs[k].path;
    var os, cs := OfPath(olds, p), OfPath(curs, p);
    if p in env.base {
      assert AllAvoid(touched, LookedUp(olds, curs, p));
      if |os| == |cs| {
        OfPathAt(curs, p, k);
        var j := |OfPath(curs[..k], p)|;
        PairReads(env, env, touched, a, b, doc, os[j], cs[j], NOTHING, NOTHING);
      } else {
        FirstWrongReads(env, touched, a, b, os, curs[k].whole);
      }
    }
  }

  lemma MovesRead(env: Env, touched: LineSet, a: Sources, b: Sources, doc: string,
                  olds: seq<Citation>, curs: seq<Citation>)
    requires Loaded(env, a) && Loaded(env, b) && Agree(touched, a, b)
    requires DocAvoids(env, touched, olds, curs)
    ensures MovesOf(env, a, doc, olds, curs) == MovesOf(env, b, doc, olds, curs)
  {
    hide MoveOf, Agree, DocAvoids;
    forall k | 0 <= k < |curs| ensures MoveOf(env, a, doc, olds, curs, k) == MoveOf(env, b, doc, olds, curs, k) {
      MoveReads(env, touched, a, b, doc, olds, curs, k);
    }
  }

  // ---- A pass over documents that read none of the lines it touches --------------------------------

  /** Line `n` of the tracked source `job` holds a citation its queue moves; the pass names it in its note. */
  ghost predicate Touches(m: Mode, job: Job, start: Sources, n: int)
    requires Loaded(m.env, start)
  {
    Writable(m, job) && job.name in start && MovedOn(job.cur, Planned(m, job, start), n - 1)
  }

  /** The lines of tracked sources the pass is going to touch, as the sources stand before it. */
  ghost function Touched(m: Mode, jobs: seq<Job>, start: Sources): LineSet
    requires Loaded(m.env, start)
  {
    iset p: string, n: int | TouchedBy(m, jobs, start, p, n) :: (p, n)
  }

  ghost predicate TouchedBy(m: Mode, jobs: seq<Job>, start: Sources, p: string, n: int)
    requires Loaded(m.env, start)
  {
    exists k :: 0 <= k < |jobs| && jobs[k].name == p && Touches(m, jobs[k], start, n)
  }

  /**
   * A tracked source in which the pass moves a citation: the cached lines are those of its text, and no
   * citation that moves is written across a line break.
   */
  ghost predicate Tidy(m: Mode, job: Job, start: Sources)
    requires Loaded(m.env, start)
  {
    Writable(m, job) && job.name in start && SomeMoves(Planned(m, job, start)) ==>
      start[job.name] == Lines(Render(job.cur)) && OneLine(job.cur, Planned(m, job, start))
  }

  ghost predicate SomeMoves(moves: Moves) { exists k :: 0 <= k < |moves| && moves[k].Some? }

  /** The paths hold no line break, and neither does a citation that moves. */
  ghost predicate OneLine(doc: Document, moves: Moves)
    requires |moves| == |Tokens(doc)|
  {
    (forall p | p in doc && p.Token? :: '\n' !in p.path) && !MovesAcrossLines(Tokens(doc), moves)
  }

  /** Neither the document nor what the pass is to leave of it reads a line of the set. */
  ghost predicate Spared(m: Mode, job: Job, start: Sources, touched: LineSet)
    requires Loaded(m.env, start)
  {
    job.base.Some? ==>
      DocAvoids(m.env, touched, Cites(job.base.value, 0), Cites(job.cur, 0))
      && DocAvoids(m.env, touched, Cites(job.base.value, 0), Cites(Left(m, job, start), 0))
  }

  /** No comparison over the corpus, before the pass or after it, reads a line the pass touches. */
  ghost predicate Undisturbed(m: Mode, jobs: seq<Job>, start: Sources)
    requires Loaded(m.env, start)
  {
    AllSpared(m, jobs, start, Touched(m, jobs, start))
  }

  ghost predicate AllSpared(m: Mode, jobs: seq<Job>, start: Sources, touched: LineSet)
    requires Loaded(m.env, start)
  {
    forall k | 0 <= k < |jobs| :: Tidy(m, jobs[k], start) && Spared(m, jobs[k], start, touched)
  }

  ghost predicate Covers(m: Mode, job: Job, start: Sources, touched: LineSet)
    requires Loaded(m.env, start)
  {
    forall n | Touches(m, job, start, n) :: (job.name, n) in touched
  }

  ghost predicate AllCovered(m: Mode, jobs: seq<Job>, start: Sources, touched: LineSet)
    requires Loaded(m.env, start)
  {
    forall k | 0 <= k < |jobs| :: Covers(m, jobs[k], start, touched)
  }

  lemma TouchedCovers(m: Mode, jobs: seq<Job>, start: Sources)
    requires Loaded(m.env, start)
    ensures AllCovered(m, jobs, start, Touched(m, jobs, start))
  {
    hide Touches;
  }

  /** A rewritten source agrees with the source as it was, off the touched lines. */
  lemma RewriteAgrees(m: Mode, job: Job, start: Sources, touched: LineSet, now: Sources)
    requires Loaded(m.env, start) && Agree(touched, start, now)
    requires Tidy(m, job, start) && Covers(m, job, start, touched) && Writable(m, job) && job.name in now
    requires SomeMoves(Planned(m, job, start))
    ensures Agree(touched, start, now[job.name := Lines(Render(Left(m, job, start)))])
  {
    hide Planned, Render, Repair, Lines, OneLine, MovedOn;
    var now' := now[job.name := Lines(Render(Left(m, job, start)))];
    forall p, n | p in start && p in now' && (p, n) !in touched ensures LineOf(start[p], n) == LineOf(now'[p], n) {
      if p == job.name {
        assert !Touches(m, job, start, n);
        OffLineKept(job.cur, Planned(m, job, start), n);
      }
    }
  }

  lemma OffLineKept(doc: Document, moves: Moves, n: int)
    requires |moves| == |Tokens(doc)| && OneLine(doc, moves) && !MovedOn(doc, moves, n - 1)
    ensures LineOf(Lines(Render(doc)), n) == LineOf(Lines(Render(Repair(doc, moves))), n)
  {
    hide MovedOn, MovesAcrossLines;
    RepairLineCount(doc, moves);
    if 1 <= n <= |Lines(Render(doc))| { UntouchedLineKept(doc, moves, n - 1); }
  }

  /** A document is rewritten only where a citation moves. */
  lemma RewrittenMoves(m: Mode, job: Job, s: Progress)
    requires Loaded(m.env, s.now) && job.base.Some? && Queued(m, job, s).edits != []
    ensures SomeMoves(Planned(m, job, s.now))
  {
    hide DocTally, Cites, Paths;
    var olds, curs := Cites(job.base.value, 0), Cites(job.cur, 0);
    var e := Queued(m, job, s).edits[0];
    DocEditsAreMoves(m.env, s.now, job.name, olds, curs, s.tally.(edits := []), e);
    MoveEditsAt(curs, Planned(m, job, s.now), e);
  }

  /** One document of the pass: it is counted and left as it would be on the sources as they were. */
  lemma NextReads(m: Mode, job: Job, start: Sources, touched: LineSet, s: Progress)
    requires Loaded(m.env, start) && Loaded(m.env, s.now) && Agree(touched, start, s.now)
    requires Tidy(m, job, start) && Spared(m, job, start, touched) && Covers(m, job, start, touched)
    ensures Left(m, job, s.now) == Left(m, job, start)
    ensures var r, r' := Next(m, job, s), Next(m, job, s.(now := start));
            r.tally == r'.tally && r.withheld == r'.withheld
    ensures Agree(touched, start, Next(m, job, s).now)
  {
    hide DocTally, Cites, Paths, Agree, DocAvoids, Tidy, Covers, Render, Repair;
    if job.base.Some? {
      var olds, curs := Cites(job.base.value, 0), Cites(job.cur, 0);
      AgreeBack(touched, start, s.now);
      DocReads(m.env, m.env, touched, s.now, start, job.name, Paths(olds), olds, curs,
               s.tally.(edits := []), s.tally.(edits := []));
      MovesRead(m.env, touched, s.now, start, job.name, olds, curs);
      if Rewrites(m, job, Queued(m, job, s)) && job.name in s.now {
        RewrittenMoves(m, job, s);
        RewriteAgrees(m, job, start, touched, s.now);
      }
    }
  }

  lemma AgreeBack(touched: LineSet, a: Sources, b: Sources)
    requires Agree(touched, a, b)
    ensures Agree(touched, b, a)
  {
  }

  lemma AgreeSelf(touched: LineSet, a: Sources)
    ensures Agree(touched, a, a)
  {
  }

  /** Whatever the pass has rewritten so far, off the touched lines the sources read as before it. */
  lemma {:induction false} PassAgrees(m: Mode, jobs: seq<Job>, start: Sources, touched: LineSet)
    requires Loaded(m.env, start) && AllSpared(m, jobs, start, touched)
    requires AllCovered(m, jobs, start, touched)
    ensures Agree(touched, start, Passed(m, jobs, Started(start)).now)
  {
    hide Next, Tidy, Spared, Covers, Agree;
    if jobs == [] {
      AgreeSelf(touched, start);
    } else {
      var n := |jobs| - 1;
      PassAgrees(m, jobs[..n], start, touched);
      NextReads(m, jobs[n], start, touched, Passed(m, jobs[..n], Started(start)));
    }
  }

  /** The check of one document reports the drift it would report on the sources as they were. */
  lemma CheckReads(env: Env, env': Env, job: Job, start: Sources, touched: LineSet, s: Progress)
    requires SameBase(env, env') && Loaded(env, start) && Loaded(env', s.now) && Agree(touched, start, s.now)
    requires job.base.Some? ==> DocAvoids(env, touched, Cites(job.base.value, 0), Cites(job.cur, 0))
    ensures var r, r' := Next(Mode(env', false, {}), job, s), Next(Mode(env, false, {}), job, s.(now := start));
            r.now == s.now && r.tally.drifted == r'.tally.drifted && (env == env' ==> r.tally == r'.tally)
  {
    hide DocTally, Cites, Paths, Agree, DocAvoids;
    if job.base.Some? {
      var olds, curs := Cites(job.base.value, 0), Cites(job.cur, 0);
      DocReads(env, env', touched, start, s.now, job.name, Paths(olds), olds, curs,
               s.tally.(edits := []), s.tally.(edits := []));
    }
  }
}
