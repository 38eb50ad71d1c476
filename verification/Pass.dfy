/** One pass of `scripts/check-citations.py` over the scanned documents, as a function. */
module Pass {
  import opened Ascii
  import opened Wrappers
  import opened Citations
  import opened Reanchor
  import opened Fixpoint

  /** A scanned document: its text at the base revision, if it existed there, and its text now. */
  datatype Job = Job(name: string, base: Option<Document>, cur: Document)

  /** How the script runs: what it compares against, and the documents `--fix` must leave alone. */
  datatype Mode = Mode(env: Env, fix: bool, misaimed: set<string>)

  /** The cached sources, the totals, and the citations withheld so far. */
  datatype Progress = Progress(now: Sources, tally: Tally, withheld: nat)

  function Started(now: Sources): Progress { Progress(now, NOTHING, 0) }

  /** The tally once a document's citations are judged and its edits queued. */
  function Queued(m: Mode, job: Job, s: Progress): (t: Tally)
    requires Loaded(m.env, s.now) && job.base.Some?
    ensures t.fixable >= s.tally.fixable
  {
    var olds, curs := Cites(job.base.value, 0), Cites(job.cur, 0);
    DocTallyGrows(m.env, s.now, job.name, Paths(olds), olds, curs, s.tally.(edits := []));
    DocTally(m.env, s.now, job.name, Paths(olds), olds, curs, s.tally.(edits := []))
  }

  /** `--fix` leaves a document that owns a misaimed declaration alone. */
  predicate Holds(m: Mode, job: Job, t: Tally) { m.fix && t.edits != [] && job.name in m.misaimed }

  predicate Rewrites(m: Mode, job: Job, t: Tally) { m.fix && t.edits != [] && job.name !in m.misaimed }

  /** The pass may write the document: it is not new, and owns no misaimed declaration. */
  predicate Writable(m: Mode, job: Job) { job.base.Some? && m.fix && job.name !in m.misaimed }

  /** Where the document's citations move. */
  function Planned(m: Mode, job: Job, now: Sources): (r: Moves)
    requires Loaded(m.env, now) && job.base.Some?
    ensures |r| == |Tokens(job.cur)|
  {
    MovesOf(m.env, now, job.name, Cites(job.base.value, 0), Cites(job.cur, 0))
  }

  /** The document a pass leaves behind. */
  function Left(m: Mode, job: Job, now: Sources): Document
    requires Loaded(m.env, now)
  {
    if Writable(m, job) then Repair(job.cur, Planned(m, job, now)) else job.cur
  }

  /**
   * One document: a rewritten tracked source replaces its cached lines, and what a withheld document
   * added to the repairable citations is given back.
   */
  function Next(m: Mode, job: Job, s: Progress): (r: Progress)
    requires Loaded(m.env, s.now)
    ensures Loaded(m.env, r.now)
  {
    if job.base.None? then s
    else
      var t := Queued(m, job, s);
      Progress(
        if Rewrites(m, job, t) && job.name in s.now then s.now[job.name := Lines(Render(Left(m, job, s.now)))]
        else s.now,
        if Holds(m, job, t) then t.(fixable := s.tally.fixable) else t,
        s.withheld + if Holds(m, job, t) then t.fixable - s.tally.fixable else 0)
  }

  /** The documents in order. */
  function Passed(m: Mode, jobs: seq<Job>, s: Progress): (r: Progress)
    requires Loaded(m.env, s.now)
    ensures Loaded(m.env, r.now)
  {
    if jobs == [] then s else Next(m, jobs[|jobs| - 1], Passed(m, jobs[..|jobs| - 1], s))
  }

  lemma PassedNext(m: Mode, jobs: seq<Job>, i: nat, s: Progress)
    requires Loaded(m.env, s.now) && i < |jobs|
    ensures Passed(m, jobs[..i + 1], s) == Next(m, jobs[i], Passed(m, jobs[..i], s))
  {
    hide Next;
    assert jobs[..i + 1][..i] == jobs[..i];
  }

  lemma NothingPassed(m: Mode, jobs: seq<Job>, s: Progress)
    requires Loaded(m.env, s.now)
    ensures Passed(m, jobs[..0], s) == s
  {
  }

  /** Without `--fix` the cached sources stay. */
  lemma {:induction false} CheckKeepsSources(m: Mode, jobs: seq<Job>, s: Progress)
    requires Loaded(m.env, s.now) && !m.fix
    ensures Passed(m, jobs, s).now == s.now && Passed(m, jobs, s).withheld == s.withheld
  {
    if jobs != [] { CheckKeepsSources(m, jobs[..|jobs| - 1], s); }
  }
}
