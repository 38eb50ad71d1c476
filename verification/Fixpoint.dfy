/**
 * What one `--fix` pass of `scripts/check-citations.py` does to a document, and what the check
 * then finds in it.
 */
module Fixpoint {
  import opened Wrappers
  import opened Splice
  import opened Citations
  import opened Reanchor

  // ---- Which citation moves where -----------------------------------------------------------

  /** The first base citation spelled `whole` whose text is gone from its lines. */
  function FirstWrong(env: Env, now: Sources, olds: seq<Citation>, whole: string): (r: Option<Citation>)
    requires Loaded(env, now) && forall k | 0 <= k < |olds| :: olds[k].path in env.base
    ensures r.Some? ==> r.value.path in env.base
  {
    if olds == [] then None
    else
      var n := |olds| - 1;
      var r := FirstWrong(env, now, olds[..n], whole);
      if r.Some? then r
      else if olds[n].whole == whole && Wrong(env, now, olds[n]) then Some(olds[n])
      else None
  }

  /** A base citation whose own line numbers no longer hold its text. */
  predicate Wrong(env: Env, now: Sources, c: Citation)
    requires Loaded(env, now) && c.path in env.base
  {
    !AllRight(env, now, c.path, c.anchors, c.anchors)
  }

  /** Where the check by spelling moves the citations spelled `whole`. */
  function LooseMove(env: Env, now: Sources, olds: seq<Citation>, whole: string): Option<seq<Anchor>>
    requires Loaded(env, now) && forall k | 0 <= k < |olds| :: olds[k].path in env.base
  {
    match FirstWrong(env, now, olds, whole)
    case None => None
    case Some(c) => MapAnchors(env.hunks[c.path], c.anchors)
  }

  function PairMove(v: Verdict): Option<seq<Anchor>> { if v.Moved? then Some(v.to) else None }

  /** Where a document's `k`-th citation is moved, whichever branch its path takes. */
  function MoveOf(env: Env, now: Sources, doc: string, olds: seq<Citation>, curs: seq<Citation>, k: nat)
    : Option<seq<Anchor>>
    requires Loaded(env, now) && k < |curs|
  {
    var p := curs[k].path;
    var os, cs := OfPath(olds, p), OfPath(curs, p);
    if p !in env.base then None
    else if |os| == |cs| then
      OfPathAt(curs, p, k);
      PairMove(Judge(env, now, doc, os[|OfPath(curs[..k], p)|], curs[k]))
    else LooseMove(env, now, os, curs[k].whole)
  }

  function MovesOf(env: Env, now: Sources, doc: string, olds: seq<Citation>, curs: seq<Citation>): (r: Moves)
    requires Loaded(env, now)
    ensures |r| == |curs| && forall k | 0 <= k < |curs| :: r[k] == MoveOf(env, now, doc, olds, curs, k)
  {
    seq(|curs|, k requires 0 <= k < |curs| => MoveOf(env, now, doc, olds, curs, k))
  }

  // ---- Ordinals within a path ---------------------------------------------------------------

  /** A citation's ordinal within its path is the number of such citations before it. */
  lemma {:induction false} OfPathAt(cites: seq<Citation>, path: string, k: nat)
    requires k < |cites| && cites[k].path == path
    ensures var j := |OfPath(cites[..k], path)|;
            j < |OfPath(cites, path)| && OfPath(cites, path)[j] == cites[k]
  {
    var n := |cites| - 1;
    if k < n {
      OfPathAt(cites[..n], path, k);
      assert cites[..n][..k] == cites[..k];
    }
  }

  /** Every ordinal of a path is some citation's. */
  lemma {:induction false} OfPathFrom(cites: seq<Citation>, path: string, j: nat) returns (k: nat)
    requires j < |OfPath(cites, path)|
    ensures k < |cites| && cites[k].path == path
    ensures |OfPath(cites[..k], path)| == j && OfPath(cites, path)[j] == cites[k]
  {
    var n := |cites| - 1;
    if j < |OfPath(cites[..n], path)| {
      k := OfPathFrom(cites[..n], path, j);
      assert cites[..n][..k] == cites[..k];
    } else {
      k := n;
    }
  }

  lemma {:induction false} OfPathMember(cites: seq<Citation>, path: string, c: Citation)
    ensures c in OfPath(cites, path) <==> c in cites && c.path == path
  {
    if cites != [] {
      var n := |cites| - 1;
      OfPathMember(cites[..n], path, c);
      assert cites == cites[..n] + [cites[n]];
    }
  }

  lemma {:induction false} PathsMember(cites: seq<Citation>, path: string)
    ensures path in Paths(cites) <==> OfPath(cites, path) != []
  {
    if cites != [] { PathsMember(cites[..|cites| - 1], path); }
  }

  // ---- The queued edits are the moves -------------------------------------------------------

  lemma {:induction false} PairEdits(env: Env, now: Sources, doc: string, os: seq<Citation>, cs: seq<Citation>,
                                     t: Tally, e: Edit)
    requires Loaded(env, now) && |os| == |cs|
    requires forall k | 0 <= k < |os| :: os[k].path in env.base && cs[k].path == os[k].path
    ensures e in PairTally(env, now, doc, os, cs, t).edits
            <==> e in t.edits
                 || exists j :: 0 <= j < |cs| && e in MoveEdit(cs[j], PairMove(Judge(env, now, doc, os[j], cs[j])))
  {
    hide Judge, Rebuilt;
    if os != [] {
      var n := |os| - 1;
      PairEdits(env, now, doc, os[..n], cs[..n], t, e);
      if j :| 0 <= j < n && e in MoveEdit(cs[..n][j], PairMove(Judge(env, now, doc, os[..n][j], cs[..n][j]))) {
        assert os[j] == os[..n][j] && cs[j] == cs[..n][j];
      }
      if j :| 0 <= j < n && e in MoveEdit(cs[j], PairMove(Judge(env, now, doc, os[j], cs[j]))) {
        assert os[j] == os[..n][j] && cs[j] == cs[..n][j];
      }
    }
  }

  /** The spellings counted are those of the current citations that some base citation finds wrong. */
  lemma {:induction false} LooseCounted(env: Env, now: Sources, os: seq<Citation>, cs: seq<Citation>, t: Tally,
                                        w: string)
    requires Loaded(env, now) && forall k | 0 <= k < |os| :: os[k].path in env.base
    ensures w in LooseTally(env, now, os, cs, Loose(t, {})).counted
            <==> FirstWrong(env, now, os, w).Some? && Spelled(cs, w) != []
  {
    hide MapAnchors, AllRight;
    if os != [] {
      LooseCounted(env, now, os[..|os| - 1], cs, t, w);
    }
  }

  lemma {:induction false} LooseEdits(env: Env, now: Sources, path: string, os: seq<Citation>, cs: seq<Citation>,
                                      t: Tally, e: Edit)
    requires Loaded(env, now) && path in env.base
    requires forall k | 0 <= k < |os| :: os[k].path == path
    requires forall c | c in cs :: c.path == path
    ensures e in LooseTally(env, now, os, cs, Loose(t, {})).tally.edits
            <==> e in t.edits || exists c :: c in cs && e in MoveEdit(c, LooseMove(env, now, os, c.whole))
  {
    hide MapAnchors, AllRight, Rebuilt;
    if os != [] {
      var n := |os| - 1;
      LooseEdits(env, now, path, os[..n], cs, t, e);
      LooseCounted(env, now, os[..n], cs, t, os[n].whole);
      forall c | c in cs && !(c.whole == os[n].whole && Queues(env, now, os))
        ensures LooseMove(env, now, os, c.whole) == LooseMove(env, now, os[..n], c.whole) {}
      if Queues(env, now, os) { QueuedLast(env, now, path, os, cs); }
    }
  }

  /** The last base citation is the first one of its spelling to be found wrong. */
  predicate Queues(env: Env, now: Sources, os: seq<Citation>)
    requires Loaded(env, now) && forall k | 0 <= k < |os| :: os[k].path in env.base
    requires os != []
  {
    var n := |os| - 1;
    Wrong(env, now, os[n]) && FirstWrong(env, now, os[..n], os[n].whole).None?
  }

  lemma QueuedLast(env: Env, now: Sources, path: string, os: seq<Citation>, cs: seq<Citation>)
    requires Loaded(env, now) && path in env.base
    requires forall k | 0 <= k < |os| :: os[k].path == path
    requires os != [] && Queues(env, now, os)
    ensures var n := |os| - 1;
            forall c | c in cs && c.whole == os[n].whole ::
              && c in Spelled(cs, os[n].whole)
              && LooseMove(env, now, os[..n], c.whole) == None
              && LooseMove(env, now, os, c.whole) == MapAnchors(env.hunks[path], os[n].anchors)
  {
  }

  /** The edits one path queues. */
  lemma PathEdits(env: Env, now: Sources, doc: string, path: string,
                  olds: seq<Citation>, curs: seq<Citation>, t: Tally, e: Edit)
    requires Loaded(env, now)
    ensures e in PathTally(env, now, doc, path, olds, curs, t).edits
            <==> e in t.edits
                 || exists k :: 0 <= k < |curs| && curs[k].path == path
                                && e in MoveEdit(curs[k], MoveOf(env, now, doc, olds, curs, k))
  {
    hide Judge, Rebuilt, MoveEdit, LooseMove;
    var os, cs := OfPath(olds, path), OfPath(curs, path);
    if path in env.base {
      if |os| == |cs| {
        PairEdits(env, now, doc, os, cs, t, e);
        if j :| 0 <= j < |cs| && e in MoveEdit(cs[j], PairMove(Judge(env, now, doc, os[j], cs[j]))) {
          var k := OfPathFrom(curs, path, j);
          assert e in MoveEdit(curs[k], MoveOf(env, now, doc, olds, curs, k));
        }
        if k :| 0 <= k < |curs| && curs[k].path == path
                && e in MoveEdit(curs[k], MoveOf(env, now, doc, olds, curs, k)) {
          OfPathAt(curs, path, k);
          var j := |OfPath(curs[..k], path)|;
          assert e in MoveEdit(cs[j], PairMove(Judge(env, now, doc, os[j], cs[j])));
        }
      } else {
        LooseEdits(env, now, path, os, cs, t, e);
        if c :| c in cs && e in MoveEdit(c, LooseMove(env, now, os, c.whole)) {
          OfPathMember(curs, path, c);
          var k :| 0 <= k < |curs| && curs[k] == c;
          assert e in MoveEdit(curs[k], MoveOf(env, now, doc, olds, curs, k));
        }
        if k :| 0 <= k < |curs| && curs[k].path == path
                && e in MoveEdit(curs[k], MoveOf(env, now, doc, olds, curs, k)) {
          OfPathMember(curs, path, curs[k]);
          assert curs[k] in cs;
        }
      }
    } else {
      forall k | 0 <= k < |curs| && curs[k].path == path
        ensures e !in MoveEdit(curs[k], MoveOf(env, now, doc, olds, curs, k))
      {
        NoMoveNoEdit(curs[k], e);
      }
    }
  }

  lemma NoMoveNoEdit(c: Citation, e: Edit)
    ensures e !in MoveEdit(c, None)
  {
  }

  lemma {:induction false} PathsEdits(env: Env, now: Sources, doc: string, paths: seq<string>,
                                      olds: seq<Citation>, curs: seq<Citation>, t: Tally, e: Edit)
    requires Loaded(env, now) && t.edits == []
    ensures e in DocTally(env, now, doc, paths, olds, curs, t).edits
            <==> exists k :: 0 <= k < |curs| && curs[k].path in paths
                             && e in MoveEdit(curs[k], MoveOf(env, now, doc, olds, curs, k))
  {
    hide PathTally, MoveOf, MoveEdit;
    if paths != [] {
      var n := |paths| - 1;
      PathsEdits(env, now, doc, paths[..n], olds, curs, t, e);
      PathEdits(env, now, doc, paths[n], olds, curs, DocTally(env, now, doc, paths[..n], olds, curs, t), e);
      assert paths == paths[..n] + [paths[n]];
    }
  }

  /** The edits a document queues are exactly its moves. */
  lemma DocEditsAreMoves(env: Env, now: Sources, doc: string, olds: seq<Citation>, curs: seq<Citation>, t: Tally,
                         e: Edit)
    requires Loaded(env, now) && t.edits == []
    ensures e in DocTally(env, now, doc, Paths(olds), olds, curs, t).edits
            <==> e in MoveEdits(curs, MovesOf(env, now, doc, olds, curs))
  {
    hide MoveEdit;
    var moves := MovesOf(env, now, doc, olds, curs);
    PathsEdits(env, now, doc, Paths(olds), olds, curs, t, e);
    MoveEditsAt(curs, moves, e);
    forall k | 0 <= k < |curs| && curs[k].path !in Paths(olds) ensures e !in MoveEdit(curs[k], moves[k]) {
      PathsMember(olds, curs[k].path);
      OfPathAt(curs, curs[k].path, k);
      assert moves[k] == None;
      NoMoveNoEdit(curs[k], e);
    }
  }

  /** In range and in order, edits are listed once. */
  lemma InOrderDistinct(edits: seq<Edit>, n: nat)
    requires InOrder(edits) && AllInRange(edits, n)
    ensures Distinct(edits)
  {
  }

  /**
   * `apply_edits` never refuses a document's queue, on either branch, and what it writes is the
   * document with each citation moved and every other character in place.
   */
  lemma QueueRewritesDocument(env: Env, now: Sources, doc: string, olds: seq<Citation>, cur: Document, t: Tally)
    requires Loaded(env, now) && t.edits == []
    ensures var moves := MovesOf(env, now, doc, olds, Cites(cur, 0));
            var queue := DocTally(env, now, doc, Paths(olds), olds, Cites(cur, 0), t).edits;
            var order := MoveEdits(Cites(cur, 0), moves);
            AllInRange(queue, |Render(cur)|) && Order(order, queue, |Render(cur)|)
            && Substitute(Render(cur), 0, order) == Render(Repair(cur, moves))
  {
    hide DocTally, MoveOf, Cites, Render, Repair, Substitute, MoveEdits;
    var curs := Cites(cur, 0);
    var moves := MovesOf(env, now, doc, olds, curs);
    var queue := DocTally(env, now, doc, Paths(olds), olds, curs, t).edits;
    var order := MoveEdits(curs, moves);
    assert "" + Render(cur) == Render(cur);
    MoveEditsFit("", cur, moves);
    SpliceIsRepair("", cur, moves);
    InOrderDistinct(order, |Render(cur)|);
    forall e ensures e in queue <==> e in order {
      DocEditsAreMoves(env, now, doc, olds, curs, t, e);
    }
    SameEditsInRange(queue, order, |Render(cur)|);
  }

  lemma SameEditsInRange(queue: seq<Edit>, order: seq<Edit>, n: nat)
    requires AllInRange(order, n) && forall e :: e in queue <==> e in order
    ensures AllInRange(queue, n)
  {
    forall k | 0 <= k < |queue| ensures InRange(queue[k], n) {
      assert queue[k] in order;
    }
  }
}
