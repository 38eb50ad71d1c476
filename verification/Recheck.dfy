/** Checking a document again after `--fix` has rewritten it. */
module Recheck {
  import opened Ascii
  import opened Wrappers
  import opened Citations
  import opened Reanchor
  import opened Fixpoint
  import L = LineMap

  // ---- The line map moves an anchor onto its text -------------------------------------------

  /** The hunks of every source come from an edit script of its base text. */
  ghost predicate Derived(env: Env, scripts: map<string, L.Script>) {
    forall p | p in env.base ::
      && p in scripts
      && env.base[p] == L.Old(scripts[p])
      && p in env.hunks && env.hunks[p] == L.Hunks(scripts[p], 0)
  }

  /** The hunks and the current text of every source come from one edit script. */
  ghost predicate Sound(env: Env, now: Sources, scripts: map<string, L.Script>) {
    && Loaded(env, now)
    && Derived(env, scripts)
    && forall p | p in env.base :: now[p] == L.New(scripts[p])
  }

  /** What `verify_versioned_lines` has checked before the loop starts. */
  ghost predicate VersionedHold(env: Env, now: Sources) {
    forall p, n | (p, n) in env.versioned && p in now ::
      LineOf(now[p], n).Some? && Contains(env.versioned[(p, n)], LineOf(now[p], n).value)
  }

  /** A mapped endpoint is right, inside the file and outside it. */
  lemma MappedEndpointRight(env: Env, now: Sources, scripts: map<string, L.Script>, path: string, lo: nat, hi: int)
    requires Sound(env, now, scripts) && VersionedHold(env, now) && path in env.base
    requires L.Map(env.hunks[path], lo) == Some(hi)
    ensures EndpointRight(env, now, path, lo, hi)
  {
    var script := scripts[path];
    if 1 <= lo <= |L.Old(script)| {
      L.MappedSameText(script, lo, hi);
    } else {
      L.MapOutOfRange(script, lo);
    }
  }

  /** A mapped line number is one a document can write. */
  lemma MappedPositive(env: Env, scripts: map<string, L.Script>, path: string, lo: nat, hi: int)
    requires Derived(env, scripts) && path in env.base
    requires L.Map(env.hunks[path], lo) == Some(hi)
    ensures hi >= 0 && (lo > 0 ==> hi > 0)
  {
    var script := scripts[path];
    if 1 <= lo <= |L.Old(script)| {
      L.MappedSameText(script, lo, hi);
    } else {
      L.MapOutOfRange(script, lo);
    }
  }

  /** Anchors the line map moved can be printed and read back. */
  lemma MovedAnchorsPrintable(env: Env, scripts: map<string, L.Script>, path: string, xs: seq<Anchor>, ys: seq<Anchor>)
    requires Derived(env, scripts) && path in env.base
    requires forall x | x in xs :: x.a >= 0 && (x.b.Some? ==> x.b.value >= 0)
    requires MapAnchors(env.hunks[path], xs) == Some(ys)
    ensures forall y | y in ys :: Printable(y)
  {
    forall k | 0 <= k < |xs| ensures Printable(ys[k]) {
      var x, y := xs[k], ys[k];
      assert x in xs && MapAnchor(env.hunks[path], x) == Some(y);
      MappedPositive(env, scripts, path, x.a, y.a);
      if x.b.Some? { MappedPositive(env, scripts, path, x.b.value, y.b.value); }
    }
  }

  /** Anchors the line map moved pass `anchor_still_right`. */
  lemma MovedAnchorsRight(env: Env, now: Sources, scripts: map<string, L.Script>, path: string,
                          xs: seq<Anchor>, ys: seq<Anchor>)
    requires Sound(env, now, scripts) && VersionedHold(env, now) && path in env.base
    requires forall x | x in xs :: x.a >= 0 && (x.b.Some? ==> x.b.value >= 0)
    requires MapAnchors(env.hunks[path], xs) == Some(ys)
    ensures |xs| == |ys| && AllRight(env, now, path, xs, ys)
  {
    forall k | 0 <= k < |xs| ensures AnchorRight(env, now, path, xs[k], ys[k]) {
      var x, y := xs[k], ys[k];
      assert x in xs && MapAnchor(env.hunks[path], x) == Some(y);
      MappedEndpointRight(env, now, scripts, path, x.a, y.a);
      if x.b.Some? { MappedEndpointRight(env, now, scripts, path, x.b.value, y.b.value); }
    }
  }

  /** Line numbers as the documents write them. */
  predicate Written(c: Citation) {
    forall x | x in c.anchors :: x.a >= 0 && (x.b.Some? ==> x.b.value >= 0)
  }

  lemma {:induction false} ReadAnchorsWritten(s: string)
    ensures forall x | x in ReadAnchors(s) :: x.a >= 0 && (x.b.Some? ==> x.b.value >= 0)
    decreases |s|
  {
    if s != [] {
      if IsDigit(s[0]) {
        ReadAnchorsWritten(s[ReadAnchor(s).1..]);
      } else {
        ReadAnchorsWritten(s[1..]);
      }
    }
  }

  lemma CitesWritten(doc: Document, k: nat)
    requires k < |Cites(doc, 0)|
    ensures Written(Cites(doc, 0)[k])
  {
    CiteIsToken(doc, 0, k);
    ReadAnchorsWritten(Tokens(doc)[k].list);
  }

  // ---- The citations after a rewrite --------------------------------------------------------

  /** A citation after its move: the same path, and its spelling and anchors moved or as before. */
  predicate Follows(c: Citation, move: Option<seq<Anchor>>, c': Citation) {
    && c'.path == c.path
    && match move
       case None => c'.whole == c.whole && c'.anchors == c.anchors
       case Some(to) => c'.whole == Rebuilt(c.path, to) && c'.anchors == to
  }

  lemma RepairedCite(doc: Document, moves: Moves, k: nat)
    requires |moves| == |Tokens(doc)| && k < |moves|
    requires moves[k].Some? ==> forall x | x in moves[k].value :: Printable(x)
    ensures |Cites(Repair(doc, moves), 0)| == |moves|
    ensures Follows(Cites(doc, 0)[k], moves[k], Cites(Repair(doc, moves), 0)[k])
  {
    RepairedTokens(doc, moves);
    CiteIsToken(doc, 0, k);
    CiteIsToken(Repair(doc, moves), 0, k);
    if moves[k].Some? { ReadShownAnchors(moves[k].value); }
  }

  /** A moved document cites each path as often as before, in the same order. */
  lemma {:induction false} OfPathFollows(curs: seq<Citation>, curs': seq<Citation>, path: string)
    requires |curs| == |curs'| && forall k | 0 <= k < |curs| :: curs'[k].path == curs[k].path
    ensures |OfPath(curs', path)| == |OfPath(curs, path)|
  {
    if curs != [] {
      var n := |curs| - 1;
      OfPathFollows(curs[..n], curs'[..n], path);
    }
  }

  /** The moves of a document are printable, whatever the sources read by now. */
  lemma MovesPrintable(env: Env, now: Sources, scripts: map<string, L.Script>, doc: string,
                       olds: seq<Citation>, curs: seq<Citation>, k: nat)
    requires Loaded(env, now) && Derived(env, scripts) && k < |curs|
    requires forall o | o in olds :: Written(o)
    ensures MoveOf(env, now, doc, olds, curs, k).Some? ==>
              forall x | x in MoveOf(env, now, doc, olds, curs, k).value :: Printable(x)
  {
    var p := curs[k].path;
    var os := OfPath(olds, p);
    var move := MoveOf(env, now, doc, olds, curs, k);
    if move.Some? {
      if |os| == |OfPath(curs, p)| {
        OfPathAt(curs, p, k);
        var o := os[|OfPath(curs[..k], p)|];
        OfPathMember(olds, p, o);
        MovedAnchorsPrintable(env, scripts, p, o.anchors, move.value);
      } else {
        FirstWrongMember(env, now, os, curs[k].whole);
        var o := FirstWrong(env, now, os, curs[k].whole).value;
        OfPathMember(olds, p, o);
        MovedAnchorsPrintable(env, scripts, p, o.anchors, move.value);
      }
    }
  }

  lemma {:induction false} FirstWrongMember(env: Env, now: Sources, os: seq<Citation>, w: string)
    requires Loaded(env, now) && forall k | 0 <= k < |os| :: os[k].path in env.base
    ensures var r := FirstWrong(env, now, os, w);
            r.Some? ==> r.value in os && r.value.whole == w && Wrong(env, now, r.value)
    ensures FirstWrong(env, now, os, w).None? <==> forall o | o in os && o.whole == w :: !Wrong(env, now, o)
  {
    if os != [] {
      var n := |os| - 1;
      FirstWrongMember(env, now, os[..n], w);
      assert os == os[..n] + [os[n]];
    }
  }

  // ---- The paired branch reaches a fixpoint -------------------------------------------------

  /** Judging a moved citation again: a move is right, and any other verdict stands. */
  lemma JudgeAgain(env: Env, now: Sources, scripts: map<string, L.Script>, doc: string,
                   o: Citation, c: Citation, c': Citation)
    requires Sound(env, now, scripts) && VersionedHold(env, now) && o.path in env.base && Written(o)
    requires Follows(c, PairMove(Judge(env, now, doc, o, c)), c')
    ensures var v := Judge(env, now, doc, o, c);
            Judge(env, now, doc, o, c') == if v.Moved? then Right else v
  {
    var v := Judge(env, now, doc, o, c);
    if v.Moved? {
      MovedAnchorsRight(env, now, scripts, o.path, o.anchors, v.to);
    }
  }

  /** What a second check of a repaired path adds to a tally: the citations the first could not move. */
  predicate OnlyUnmappable(first: Tally, first': Tally, again: Tally, again': Tally) {
    && again'.drifted - again.drifted == first'.unmappable - first.unmappable
    && again'.unmappable - again.unmappable == first'.unmappable - first.unmappable
    && again'.total - again.total == first'.total - first.total
    && again'.fixable == again.fixable
    && again'.edits == again.edits
  }

  lemma {:induction false} PairsAgain(env: Env, now: Sources, scripts: map<string, L.Script>, doc: string,
                                      os: seq<Citation>, cs: seq<Citation>, cs': seq<Citation>, t: Tally, t': Tally)
    requires Sound(env, now, scripts) && VersionedHold(env, now)
    requires |os| == |cs| == |cs'|
    requires forall k | 0 <= k < |os| :: os[k].path in env.base && Written(os[k])
    requires forall k | 0 <= k < |os| :: Follows(cs[k], PairMove(Judge(env, now, doc, os[k], cs[k])), cs'[k])
    ensures OnlyUnmappable(t, PairTally(env, now, doc, os, cs, t), t', PairTally(env, now, doc, os, cs', t'))
  {
    hide Judge, Follows, Sound, VersionedHold, Written, PairMove;
    if os != [] {
      var n := |os| - 1;
      PairsAgain(env, now, scripts, doc, os[..n], cs[..n], cs'[..n], t, t');
      JudgeAgain(env, now, scripts, doc, os[n], cs[n], cs'[n]);
    }
  }

  /** The current document cites every tracked path as often as the base document does. */
  predicate Paired(env: Env, olds: seq<Citation>, curs: seq<Citation>) {
    forall p | p in Paths(olds) && p in env.base :: |OfPath(olds, p)| == |OfPath(curs, p)|
  }

  /** Every citation followed its move. */
  ghost predicate AllFollow(env: Env, now: Sources, doc: string, olds: seq<Citation>,
                            curs: seq<Citation>, curs': seq<Citation>)
    requires Loaded(env, now)
  {
    |curs| == |curs'| && forall k | 0 <= k < |curs| :: Follows(curs[k], MoveOf(env, now, doc, olds, curs, k), curs'[k])
  }

  lemma PathAgain(env: Env, now: Sources, scripts: map<string, L.Script>, doc: string, path: string,
                  olds: seq<Citation>, curs: seq<Citation>, curs': seq<Citation>, t: Tally, t': Tally)
    requires Sound(env, now, scripts) && VersionedHold(env, now)
    requires forall o | o in olds :: Written(o)
    requires AllFollow(env, now, doc, olds, curs, curs')
    requires path in env.base ==> |OfPath(olds, path)| == |OfPath(curs, path)|
    ensures OnlyUnmappable(t, PathTally(env, now, doc, path, olds, curs, t),
                           t', PathTally(env, now, doc, path, olds, curs', t'))
  {
    hide Judge, Written, VersionedHold;
    var os, cs, cs' := OfPath(olds, path), OfPath(curs, path), OfPath(curs', path);
    OfPathFollows(curs, curs', path);
    if path in env.base {
      forall j | 0 <= j < |os|
        ensures Written(os[j])
        ensures Follows(cs[j], PairMove(Judge(env, now, doc, os[j], cs[j])), cs'[j])
      {
        OfPathMember(olds, path, os[j]);
        var k := OfPathFrom(curs, path, j);
        OfPathFollows(curs[..k], curs'[..k], path);
        OfPathAt(curs', path, k);
        assert Follows(curs[k], MoveOf(env, now, doc, olds, curs, k), curs'[k]);
      }
      PairsAgain(env, now, scripts, doc, os, cs, cs', t, t');
    }
  }

  lemma {:induction false} PathsAgain(env: Env, now: Sources, scripts: map<string, L.Script>, doc: string,
                                      paths: seq<string>, olds: seq<Citation>, curs: seq<Citation>,
                                      curs': seq<Citation>, t: Tally, t': Tally)
    requires Sound(env, now, scripts) && VersionedHold(env, now)
    requires forall o | o in olds :: Written(o)
    requires AllFollow(env, now, doc, olds, curs, curs')
    requires forall p | p in paths && p in env.base :: |OfPath(olds, p)| == |OfPath(curs, p)|
    ensures OnlyUnmappable(t, DocTally(env, now, doc, paths, olds, curs, t),
                           t', DocTally(env, now, doc, paths, olds, curs', t'))
  {
    hide Written, VersionedHold, AllFollow, PathTally, OfPath;
    if paths != [] {
      var n := |paths| - 1;
      assert paths[n] in paths && forall p | p in paths[..n] :: p in paths;
      PathsAgain(env, now, scripts, doc, paths[..n], olds, curs, curs', t, t');
      PathAgain(env, now, scripts, doc, paths[n], olds, curs, curs',
                DocTally(env, now, doc, paths[..n], olds, curs, t),
                DocTally(env, now, doc, paths[..n], olds, curs', t'));
    }
  }

  /** Every citation of a repaired document followed its move. */
  lemma RepairFollows(env: Env, now: Sources, scripts: map<string, L.Script>, doc: string,
                      base: Document, cur: Document)
    requires Loaded(env, now) && Derived(env, scripts)
    ensures forall o | o in Cites(base, 0) :: Written(o)
    ensures var olds, curs := Cites(base, 0), Cites(cur, 0);
            AllFollow(env, now, doc, olds, curs, Cites(Repair(cur, MovesOf(env, now, doc, olds, curs)), 0))
  {
    hide MoveOf, Derived;
    var olds, curs := Cites(base, 0), Cites(cur, 0);
    var moves := MovesOf(env, now, doc, olds, curs);
    forall o | o in olds ensures Written(o) {
      var k :| 0 <= k < |olds| && olds[k] == o;
      CitesWritten(base, k);
    }
    RepairedTokens(cur, moves);
    forall k | 0 <= k < |curs|
      ensures Follows(curs[k], moves[k], Cites(Repair(cur, moves), 0)[k])
    {
      MovesPrintable(env, now, scripts, doc, olds, curs, k);
      RepairedCite(cur, moves, k);
    }
  }

  /**
   * The repair reaches a fixpoint on the paired branch: checking the rewritten document finds
   * exactly the citations the first pass declared unmappable and queues nothing, so a pass that
   * mapped everything leaves no drift at all.
   */
  lemma RepairReachesFixpoint(env: Env, now: Sources, scripts: map<string, L.Script>, doc: string,
                              base: Document, cur: Document, t: Tally, t': Tally)
    requires Sound(env, now, scripts) && VersionedHold(env, now)
    requires Paired(env, Cites(base, 0), Cites(cur, 0))
    ensures var olds, curs := Cites(base, 0), Cites(cur, 0);
            var curs' := Cites(Repair(cur, MovesOf(env, now, doc, olds, curs)), 0);
            OnlyUnmappable(t, DocTally(env, now, doc, Paths(olds), olds, curs, t),
                           t', DocTally(env, now, doc, Paths(olds), olds, curs', t'))
  {
    hide VersionedHold, DocTally, MoveOf;
    var olds, curs := Cites(base, 0), Cites(cur, 0);
    RepairFollows(env, now, scripts, doc, base, cur);
    PathsAgain(env, now, scripts, doc, Paths(olds), olds, curs,
               Cites(Repair(cur, MovesOf(env, now, doc, olds, curs)), 0), t, t');
  }
}
