/** Checking a rewritten document again when a path's citation count has changed. */
module LooseRecheck {
  import opened Citations
  import opened Reanchor
  import opened Fixpoint
  import opened Recheck
  import L = LineMap

  // ---- One path -----------------------------------------------------------------------------

  /** The citations of one path after the check by spelling moved them. */
  ghost predicate LooseFollow(env: Env, now: Sources, os: seq<Citation>, cs: seq<Citation>, cs': seq<Citation>)
    requires Loaded(env, now) && forall k | 0 <= k < |os| :: os[k].path in env.base
  {
    |cs| == |cs'| && forall k | 0 <= k < |cs| :: Follows(cs[k], LooseMove(env, now, os, cs[k].whole), cs'[k])
  }

  /**
   * A citation is rewritten into the spelling of a base citation whose text has left its lines:
   * the next check takes the one for the other.
   */
  ghost predicate Collides(env: Env, now: Sources, os: seq<Citation>, cs: seq<Citation>)
    requires Loaded(env, now) && forall k | 0 <= k < |os| :: os[k].path in env.base
  {
    exists c, o :: c in cs && o in os && Wrong(env, now, o)
                   && LooseMove(env, now, os, c.whole).Some?
                   && Rebuilt(c.path, LooseMove(env, now, os, c.whole).value) == o.whole
  }

  /** The branch reports drift exactly when it counted a spelling. */
  lemma {:induction false} LooseDriftCounted(env: Env, now: Sources, os: seq<Citation>, cs: seq<Citation>)
    requires Loaded(env, now) && forall k | 0 <= k < |os| :: os[k].path in env.base
    ensures var s := LooseTally(env, now, os, cs, Loose(NOTHING, {}));
            s.tally.drifted == 0 <==> s.counted == {}
  {
    hide MapAnchors, AllRight, SpanEdits, Spelled;
    if os != [] { LooseDriftCounted(env, now, os[..|os| - 1], cs); }
  }

  /** That is, when a wrong base citation's spelling is still there. */
  lemma LooseDrift(env: Env, now: Sources, os: seq<Citation>, cs: seq<Citation>)
    requires Loaded(env, now) && forall k | 0 <= k < |os| :: os[k].path in env.base
    ensures LooseTally(env, now, os, cs, Loose(NOTHING, {})).tally.drifted == 0
            <==> forall o | o in os && Wrong(env, now, o) :: Spelled(cs, o.whole) == []
  {
    hide LooseTally, FirstWrong, Wrong, Spelled;
    var s := LooseTally(env, now, os, cs, Loose(NOTHING, {}));
    LooseDriftCounted(env, now, os, cs);
    forall w
      ensures w in s.counted <==> Spelled(cs, w) != [] && exists o :: o in os && o.whole == w && Wrong(env, now, o)
    {
      LooseCounted(env, now, os, cs, NOTHING, w);
      FirstWrongMember(env, now, os, w);
    }
    forall o | o in os && Wrong(env, now, o) && Spelled(cs, o.whole) != [] ensures o.whole in s.counted {}
  }

  /** It calls something unmappable exactly when a counted spelling has nowhere to move. */
  lemma {:induction false} LooseUnmappable(env: Env, now: Sources, os: seq<Citation>, cs: seq<Citation>)
    requires Loaded(env, now) && forall k | 0 <= k < |os| :: os[k].path in env.base
    ensures LooseTally(env, now, os, cs, Loose(NOTHING, {})).tally.unmappable == 0
            <==> forall o | o in os && Wrong(env, now, o) && Spelled(cs, o.whole) != [] ::
                   LooseMove(env, now, os, o.whole).Some?
  {
    hide MapAnchors, AllRight, SpanEdits, Spelled;
    if os != [] {
      var n := |os| - 1;
      LooseUnmappable(env, now, os[..n], cs);
      LooseCounted(env, now, os[..n], cs, NOTHING, os[n].whole);
      assert os == os[..n] + [os[n]];
      forall o | o in os[..n] && Wrong(env, now, o)
        ensures LooseMove(env, now, os, o.whole) == LooseMove(env, now, os[..n], o.whole)
      {
        FirstWrongMember(env, now, os[..n], o.whole);
      }
      FirstWrongMember(env, now, os[..n], os[n].whole);
    }
  }

  lemma Followed(env: Env, now: Sources, os: seq<Citation>, cs: seq<Citation>, cs': seq<Citation>, c: Citation)
    returns (c': Citation)
    requires Loaded(env, now) && forall k | 0 <= k < |os| :: os[k].path in env.base
    requires LooseFollow(env, now, os, cs, cs') && c in cs
    ensures c' in cs' && Follows(c, LooseMove(env, now, os, c.whole), c')
  {
    var k :| 0 <= k < |cs| && cs[k] == c;
    c' := cs'[k];
  }

  lemma FollowedFrom(env: Env, now: Sources, os: seq<Citation>, cs: seq<Citation>, cs': seq<Citation>, c': Citation)
    returns (c: Citation)
    requires Loaded(env, now) && forall k | 0 <= k < |os| :: os[k].path in env.base
    requires LooseFollow(env, now, os, cs, cs') && c' in cs'
    ensures c in cs && Follows(c, LooseMove(env, now, os, c.whole), c')
  {
    var k :| 0 <= k < |cs'| && cs'[k] == c';
    c := cs[k];
  }

  /** A stale base citation whose spelling is written in the document, moved or as it stood. */
  ghost predicate Stale(env: Env, now: Sources, os: seq<Citation>, cs: seq<Citation>, o: Citation)
    requires Loaded(env, now) && forall k | 0 <= k < |os| :: os[k].path in env.base
  {
    o in os && Wrong(env, now, o) && exists c :: c in cs && c.whole == o.whole
  }

  lemma SpelledSome(cs: seq<Citation>, w: string)
    ensures Spelled(cs, w) != [] <==> exists c :: c in cs && c.whole == w
  {
    if Spelled(cs, w) != [] { assert Spelled(cs, w)[0] in Spelled(cs, w); }
    if c :| c in cs && c.whole == w { assert c in Spelled(cs, w); }
  }

  /** What keeps the next check from being clean does so because of the rewrite or despite it. */
  lemma StaleAfter(env: Env, now: Sources, os: seq<Citation>, cs: seq<Citation>, cs': seq<Citation>)
    requires Loaded(env, now) && forall k | 0 <= k < |os| :: os[k].path in env.base
    requires LooseFollow(env, now, os, cs, cs')
    ensures (exists o :: Stale(env, now, os, cs', o))
            <==> Collides(env, now, os, cs)
                 || exists o :: Stale(env, now, os, cs, o) && LooseMove(env, now, os, o.whole).None?
  {
    hide Rebuilt, Wrong, LooseMove, LooseFollow;
    if Collides(env, now, os, cs) {
      var c, o :| c in cs && o in os && Wrong(env, now, o)
                  && LooseMove(env, now, os, c.whole).Some?
                  && Rebuilt(c.path, LooseMove(env, now, os, c.whole).value) == o.whole;
      var c' := Followed(env, now, os, cs, cs', c);
      assert Stale(env, now, os, cs', o);
    }
    if o :| Stale(env, now, os, cs, o) && LooseMove(env, now, os, o.whole).None? {
      var c :| c in cs && c.whole == o.whole;
      var c' := Followed(env, now, os, cs, cs', c);
      assert Stale(env, now, os, cs', o);
    }
    if o :| Stale(env, now, os, cs', o) {
      var c' :| c' in cs' && c'.whole == o.whole;
      var c := FollowedFrom(env, now, os, cs, cs', c');
      if LooseMove(env, now, os, c.whole).None? {
        assert Stale(env, now, os, cs, o);
      } else {
        assert Collides(env, now, os, cs);
      }
    }
  }

  /**
   * When the number of citations of a path changed, a second check is clean exactly when the first
   * pass could move everything and rewrote no citation into the spelling of a stale base citation.
   */
  lemma LooseFixpointIff(env: Env, now: Sources, os: seq<Citation>, cs: seq<Citation>, cs': seq<Citation>)
    requires Loaded(env, now) && forall k | 0 <= k < |os| :: os[k].path in env.base
    requires LooseFollow(env, now, os, cs, cs')
    ensures LooseTally(env, now, os, cs', Loose(NOTHING, {})).tally.drifted == 0
            <==> LooseTally(env, now, os, cs, Loose(NOTHING, {})).tally.unmappable == 0
                 && !Collides(env, now, os, cs)
  {
    hide LooseTally, Wrong, LooseMove, Collides, LooseFollow, Spelled;
    LooseDrift(env, now, os, cs');
    LooseUnmappable(env, now, os, cs);
    StaleAfter(env, now, os, cs, cs');
    forall o | o in os && Wrong(env, now, o)
      ensures Spelled(cs, o.whole) != [] <==> Stale(env, now, os, cs, o)
      ensures Spelled(cs', o.whole) != [] <==> Stale(env, now, os, cs', o)
    {
      SpelledSome(cs, o.whole);
      SpelledSome(cs', o.whole);
    }
    if o :| o in os && Wrong(env, now, o) && Spelled(cs', o.whole) != [] {
      assert Stale(env, now, os, cs', o);
    }
    if o :| o in os && Wrong(env, now, o) && Spelled(cs, o.whole) != [] && LooseMove(env, now, os, o.whole).None? {
      assert Stale(env, now, os, cs, o);
    }
  }

  // ---- A whole document, both branches -------------------------------------------------------

  /** A document adds to the totals independently of what was counted before it. */
  predicate Adds(t: Tally, t': Tally, z: Tally) {
    t'.drifted == t.drifted + z.drifted && t'.fixable == t.fixable + z.fixable
    && t'.unmappable == t.unmappable + z.unmappable
  }

  /** What the check by spelling adds does not depend on what was counted before. */
  lemma {:induction false} LooseAdds(env: Env, now: Sources, os: seq<Citation>, cs: seq<Citation>,
                                     t: Tally, u: Tally, z: Tally)
    requires Loaded(env, now) && (forall k | 0 <= k < |os| :: os[k].path in env.base)
    requires Adds(t, u, z)
    ensures var a, b := LooseTally(env, now, os, cs, Loose(u, {})), LooseTally(env, now, os, cs, Loose(z, {}));
            a.counted == b.counted && Adds(t, a.tally, b.tally)
  {
    hide MapAnchors, AllRight, SpanEdits, Spelled;
    if os != [] { LooseAdds(env, now, os[..|os| - 1], cs, t, u, z); }
  }

  /** The citations of a path whose count changed follow the check by spelling. */
  lemma PathLooseFollow(env: Env, now: Sources, doc: string, path: string,
                        olds: seq<Citation>, curs: seq<Citation>, curs': seq<Citation>)
    requires Loaded(env, now) && AllFollow(env, now, doc, olds, curs, curs')
    requires path in env.base && |OfPath(olds, path)| != |OfPath(curs, path)|
    ensures LooseFollow(env, now, OfPath(olds, path), OfPath(curs, path), OfPath(curs', path))
  {
    hide LooseMove, Judge;
    var os, cs, cs' := OfPath(olds, path), OfPath(curs, path), OfPath(curs', path);
    OfPathFollows(curs, curs', path);
    forall j | 0 <= j < |cs| ensures Follows(cs[j], LooseMove(env, now, os, cs[j].whole), cs'[j]) {
      var k := OfPathFrom(curs, path, j);
      OfPathFollows(curs[..k], curs'[..k], path);
      OfPathAt(curs', path, k);
      assert Follows(curs[k], MoveOf(env, now, doc, olds, curs, k), curs'[k]);
    }
  }

  /** A path whose citation count changed and on which the rewrite collides with a stale spelling. */
  ghost predicate CollidesOn(env: Env, now: Sources, olds: seq<Citation>, curs: seq<Citation>, path: string)
    requires Loaded(env, now)
  {
    path in env.base && |OfPath(olds, path)| != |OfPath(curs, path)|
    && Collides(env, now, OfPath(olds, path), OfPath(curs, path))
  }

  lemma PathFixpointIff(env: Env, now: Sources, scripts: map<string, L.Script>, doc: string, path: string,
                        olds: seq<Citation>, curs: seq<Citation>, curs': seq<Citation>, t: Tally, t': Tally)
    requires Sound(env, now, scripts) && VersionedHold(env, now)
    requires (forall o | o in olds :: Written(o)) && AllFollow(env, now, doc, olds, curs, curs')
    ensures var first := PathTally(env, now, doc, path, olds, curs, t);
            var again := PathTally(env, now, doc, path, olds, curs', t');
            first.unmappable >= t.unmappable && again.drifted >= t'.drifted
            && (again.drifted == t'.drifted
                <==> first.unmappable == t.unmappable && !CollidesOn(env, now, olds, curs, path))
  {
    hide Written, VersionedHold, AllFollow, Sound, LooseTally, Collides;
    SoundIsLoaded(env, now, scripts);
    var os, cs, cs' := OfPath(olds, path), OfPath(curs, path), OfPath(curs', path);
    FollowedCount(env, now, doc, olds, curs, curs', path);
    if path in env.base {
      if |os| == |cs| {
        PathAgain(env, now, scripts, doc, path, olds, curs, curs', t, t');
        PairTallyGrows(env, now, doc, os, cs, t);
      } else {
        PathLooseFollow(env, now, doc, path, olds, curs, curs');
        LooseAdds(env, now, os, cs, t, t, NOTHING);
        LooseAdds(env, now, os, cs', t', t', NOTHING);
        LooseFixpointIff(env, now, os, cs, cs');
      }
    }
  }

  lemma SoundIsLoaded(env: Env, now: Sources, scripts: map<string, L.Script>)
    requires Sound(env, now, scripts)
    ensures Loaded(env, now)
  {
  }

  lemma FollowedCount(env: Env, now: Sources, doc: string, olds: seq<Citation>, curs: seq<Citation>,
                      curs': seq<Citation>, path: string)
    requires Loaded(env, now) && AllFollow(env, now, doc, olds, curs, curs')
    ensures |OfPath(curs', path)| == |OfPath(curs, path)|
  {
    OfPathFollows(curs, curs', path);
  }

  lemma {:induction false} PathsFixpointIff(env: Env, now: Sources, scripts: map<string, L.Script>, doc: string,
                                            paths: seq<string>, olds: seq<Citation>, curs: seq<Citation>,
                                            curs': seq<Citation>, t: Tally, t': Tally)
    requires Sound(env, now, scripts) && VersionedHold(env, now)
    requires (forall o | o in olds :: Written(o)) && AllFollow(env, now, doc, olds, curs, curs')
    ensures var first := DocTally(env, now, doc, paths, olds, curs, t);
            var again := DocTally(env, now, doc, paths, olds, curs', t');
            first.unmappable >= t.unmappable && again.drifted >= t'.drifted
            && (again.drifted == t'.drifted
                <==> first.unmappable == t.unmappable
                     && forall k | 0 <= k < |paths| :: !CollidesOn(env, now, olds, curs, paths[k]))
  {
    hide Written, VersionedHold, AllFollow, Sound, PathTally, CollidesOn, OfPath;
    SoundIsLoaded(env, now, scripts);
    if paths != [] {
      var n := |paths| - 1;
      PathsFixpointIff(env, now, scripts, doc, paths[..n], olds, curs, curs', t, t');
      PathFixpointIff(env, now, scripts, doc, paths[n], olds, curs, curs',
                      DocTally(env, now, doc, paths[..n], olds, curs, t),
                      DocTally(env, now, doc, paths[..n], olds, curs', t'));
    }
  }

  /**
   * The fixpoint of any document, whichever branch each of its paths takes: checking the rewritten
   * document is clean exactly when the first pass found nothing unmappable and, on no path whose
   * citation count changed, rewrote a citation into the spelling of a stale base citation.
   */
  lemma DocumentFixpointIff(env: Env, now: Sources, scripts: map<string, L.Script>, doc: string,
                            base: Document, cur: Document, t: Tally, t': Tally)
    requires Sound(env, now, scripts) && VersionedHold(env, now)
    ensures var olds, curs := Cites(base, 0), Cites(cur, 0);
            var curs' := Cites(Repair(cur, MovesOf(env, now, doc, olds, curs)), 0);
            DocTally(env, now, doc, Paths(olds), olds, curs', t').drifted == t'.drifted
            <==> DocTally(env, now, doc, Paths(olds), olds, curs, t).unmappable == t.unmappable
                 && forall k | 0 <= k < |Paths(olds)| :: !CollidesOn(env, now, olds, curs, Paths(olds)[k])
  {
    hide VersionedHold, DocTally, MoveOf, CollidesOn;
    var olds, curs := Cites(base, 0), Cites(cur, 0);
    RepairFollows(env, now, scripts, doc, base, cur);
    PathsFixpointIff(env, now, scripts, doc, Paths(olds), olds, curs,
                     Cites(Repair(cur, MovesOf(env, now, doc, olds, curs)), 0), t, t');
  }
}
