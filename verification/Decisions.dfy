/**
 * What a run of `scripts/check-citations.py` decides of each citation, in terms of the lines it names, the
 * declared transitions and the line map: which ones it reports, moves and excuses, and what it counts.
 */
module Decisions {
  import opened Ascii
  import opened Wrappers
  import opened Citations
  import opened Reanchor
  import opened Fixpoint
  import opened Pass
  import opened Corpus
  import L = LineMap

  // ---- One citation -------------------------------------------------------------------------

  /** Line `lo` of the base and line `hi` of the current text read the same, or neither file has one. */
  predicate SameLine(base: seq<string>, now: seq<string>, lo: int, hi: int) {
    if 1 <= lo <= |base| then 1 <= hi <= |now| && now[hi - 1] == base[lo - 1] else !(1 <= hi <= |now|)
  }

  /** The endpoint still names its text; a versioned line that did not move only has to hold its token. */
  predicate NamesText(env: Env, now: Sources, path: string, lo: int, hi: int)
    requires path in env.base && path in now
  {
    if lo == hi && (path, lo) in env.versioned
    then 1 <= hi <= |now[path]| && Contains(env.versioned[(path, lo)], now[path][hi - 1])
    else SameLine(env.base[path], now[path], lo, hi)
  }

  predicate AnchorNamesText(env: Env, now: Sources, path: string, x: Anchor, y: Anchor)
    requires path in env.base && path in now
  {
    match (x.b, y.b)
    case (None, None) => NamesText(env, now, path, x.a, y.a)
    case (Some(b), Some(b')) => NamesText(env, now, path, x.a, y.a) && NamesText(env, now, path, b, b')
    case _ => false
  }

  /** Every anchor of the citation still names the text its counterpart named at the base. */
  predicate StillRight(env: Env, now: Sources, path: string, xs: seq<Anchor>, ys: seq<Anchor>)
    requires path in env.base && path in now
  {
    |xs| == |ys| && forall k | 0 <= k < |xs| :: AnchorNamesText(env, now, path, xs[k], ys[k])
  }

  lemma AllRightIff(env: Env, now: Sources, path: string, xs: seq<Anchor>, ys: seq<Anchor>)
    requires Loaded(env, now) && path in env.base && |xs| == |ys|
    ensures AllRight(env, now, path, xs, ys) <==> StillRight(env, now, path, xs, ys)
  {
    hide EndpointRight, NamesText;
    forall k | 0 <= k < |xs|
      ensures AnchorRight(env, now, path, xs[k], ys[k]) <==> AnchorNamesText(env, now, path, xs[k], ys[k])
    {
      EndpointIff(env, now, path, xs[k].a, ys[k].a);
      if xs[k].b.Some? && ys[k].b.Some? { EndpointIff(env, now, path, xs[k].b.value, ys[k].b.value); }
    }
  }

  lemma EndpointIff(env: Env, now: Sources, path: string, lo: int, hi: int)
    requires Loaded(env, now) && path in env.base
    ensures EndpointRight(env, now, path, lo, hi) <==> NamesText(env, now, path, lo, hi)
  {
  }

  /** The transition from the one spelling to the other is declared for the document, in that direction. */
  predicate Declared(env: Env, doc: string, o: Citation, c: Citation) {
    o.whole != c.whole && o.whole != "" && c.whole != "" && (doc, o.whole, c.whole) in env.reaims
  }

  /** The line map takes the anchors, one by one, to these; a range that ends at 0 goes nowhere. */
  predicate MapsTo(hunks: seq<L.Hunk>, xs: seq<Anchor>, ys: seq<Anchor>) {
    |xs| == |ys| && forall k | 0 <= k < |xs| :: AnchorMapsTo(hunks, xs[k], ys[k])
  }

  predicate AnchorMapsTo(hunks: seq<L.Hunk>, x: Anchor, y: Anchor) {
    L.Map(hunks, x.a) == Some(y.a)
    && match (x.b, y.b)
       case (None, None) => true
       case (Some(b), Some(b')) => b != 0 && L.Map(hunks, b) == Some(b')
       case _ => false
  }

  lemma {:induction false} MapAnchorsIff(hunks: seq<L.Hunk>, xs: seq<Anchor>, ys: seq<Anchor>)
    ensures MapAnchors(hunks, xs) == Some(ys) <==> MapsTo(hunks, xs, ys)
  {
    hide L.Map;
    if MapsTo(hunks, xs, ys) && xs != [] {
      assert AnchorMapsTo(hunks, xs[0], ys[0]);
      forall k | 0 <= k < |xs[1..]| ensures AnchorMapsTo(hunks, xs[1..][k], ys[1..][k]) {
        assert AnchorMapsTo(hunks, xs[k + 1], ys[k + 1]);
      }
      MapAnchorsIff(hunks, xs[1..], ys[1..]);
      assert ys == [ys[0]] + ys[1..];
    }
    if MapAnchors(hunks, xs) == Some(ys) {
      forall k | 0 <= k < |xs| ensures AnchorMapsTo(hunks, xs[k], ys[k]) {
        assert MapAnchor(hunks, xs[k]) == Some(ys[k]);
      }
    }
  }

  ghost predicate Movable(hunks: seq<L.Hunk>, xs: seq<Anchor>) { exists ys :: MapsTo(hunks, xs, ys) }

  lemma MovableIff(hunks: seq<L.Hunk>, xs: seq<Anchor>)
    ensures Movable(hunks, xs) <==> MapAnchors(hunks, xs).Some?
  {
    if MapAnchors(hunks, xs).Some? { MapAnchorsIff(hunks, xs, MapAnchors(hunks, xs).value); }
    if ys :| MapsTo(hunks, xs, ys) { MapAnchorsIff(hunks, xs, ys); }
  }

  // ---- The pairs of a path ------------------------------------------------------------------

  /** A pair is reported: its anchors were recounted, or its text is gone and the change undeclared. */
  predicate Reported(env: Env, now: Sources, doc: string, o: Citation, c: Citation)
    requires Loaded(env, now) && o.path in env.base
  {
    |o.anchors| != |c.anchors|
    || (!StillRight(env, now, o.path, o.anchors, c.anchors) && !Declared(env, doc, o, c))
  }

  /** A pair is excused, and its declaration used. */
  predicate Used(env: Env, now: Sources, doc: string, o: Citation, c: Citation)
    requires Loaded(env, now) && o.path in env.base
  {
    |o.anchors| == |c.anchors| && !StillRight(env, now, o.path, o.anchors, c.anchors) && Declared(env, doc, o, c)
  }

  /** A reported pair that is moved. */
  ghost predicate Moves(env: Env, now: Sources, doc: string, o: Citation, c: Citation)
    requires Loaded(env, now) && o.path in env.base
  {
    Reported(env, now, doc, o, c) && |o.anchors| == |c.anchors| && Movable(env.hunks[o.path], o.anchors)
  }

  lemma JudgedPair(env: Env, now: Sources, doc: string, o: Citation, c: Citation)
    requires Loaded(env, now) && o.path in env.base
    ensures var v := Judge(env, now, doc, o, c);
            (Reported(env, now, doc, o, c) <==> v.Recounted? || v.Lost? || v.Moved?)
            && (Used(env, now, doc, o, c) <==> v.Excused?)
            && (Moves(env, now, doc, o, c) <==> v.Moved?)
            && (v.Moved? ==> MapsTo(env.hunks[o.path], o.anchors, v.to))
  {
    hide AllRight, StillRight, MapsTo, Movable;
    if |o.anchors| == |c.anchors| {
      AllRightIff(env, now, o.path, o.anchors, c.anchors);
      MovableIff(env.hunks[o.path], o.anchors);
      if MapAnchors(env.hunks[o.path], o.anchors).Some? {
        MapAnchorsIff(env.hunks[o.path], o.anchors, MapAnchors(env.hunks[o.path], o.anchors).value);
      }
    }
  }

  predicate AllTracked(env: Env, os: seq<Citation>) { forall k | 0 <= k < |os| :: os[k].path in env.base }

  /** The first `n` pairs that are reported, those of them that move, and those that are excused. */
  function ReportedPairs(env: Env, now: Sources, doc: string, os: seq<Citation>, cs: seq<Citation>, n: nat): set<nat>
    requires Loaded(env, now) && n <= |os| == |cs| && AllTracked(env, os)
  {
    set k: nat | k < n && Reported(env, now, doc, os[k], cs[k])
  }

  ghost function MovedPairs(env: Env, now: Sources, doc: string, os: seq<Citation>, cs: seq<Citation>, n: nat): set<nat>
    requires Loaded(env, now) && n <= |os| == |cs| && AllTracked(env, os)
  {
    set k: nat | k < n && Moves(env, now, doc, os[k], cs[k])
  }

  function UsedPairs(env: Env, now: Sources, doc: string, os: seq<Citation>, cs: seq<Citation>, n: nat)
    : set<(string, string, string)>
    requires Loaded(env, now) && n <= |os| == |cs| && AllTracked(env, os)
  {
    set k: nat | k < n && Used(env, now, doc, os[k], cs[k]) :: (doc, os[k].whole, cs[k].whole)
  }

  function AnchorCount(cites: seq<Citation>, n: nat): nat
    requires n <= |cites|
  {
    if n == 0 then 0 else AnchorCount(cites, n - 1) + |cites[n - 1].anchors|
  }

  /**
   * What the first `n` pairs of a path add to the totals: each reported pair is one drifted citation, one
   * fixable if it moves and one unmappable if not, and each excused pair uses its own declaration.
   */
  ghost predicate PairsCounted(env: Env, now: Sources, doc: string, os: seq<Citation>, cs: seq<Citation>, n: nat,
                               t: Tally, r: Tally)
    requires Loaded(env, now) && n <= |os| == |cs| && AllTracked(env, os)
  {
    var reported, moved := |ReportedPairs(env, now, doc, os, cs, n)|, |MovedPairs(env, now, doc, os, cs, n)|;
    r.total == t.total + AnchorCount(os, n) && r.unchecked == t.unchecked
    && r.drifted == t.drifted + reported && r.fixable == t.fixable + moved
    && r.unmappable == t.unmappable + (reported - moved)
    && r.used == t.used + UsedPairs(env, now, doc, os, cs, n)
  }

  lemma ReportedGrow(env: Env, now: Sources, doc: string, os: seq<Citation>, cs: seq<Citation>, n: nat)
    requires Loaded(env, now) && n < |os| == |cs| && AllTracked(env, os)
    ensures |ReportedPairs(env, now, doc, os, cs, n + 1)|
            == |ReportedPairs(env, now, doc, os, cs, n)| + if Reported(env, now, doc, os[n], cs[n]) then 1 else 0
  {
    hide Reported;
    assert ReportedPairs(env, now, doc, os, cs, n + 1)
        == ReportedPairs(env, now, doc, os, cs, n) + if Reported(env, now, doc, os[n], cs[n]) then {n} else {};
  }

  lemma MovedGrow(env: Env, now: Sources, doc: string, os: seq<Citation>, cs: seq<Citation>, n: nat)
    requires Loaded(env, now) && n < |os| == |cs| && AllTracked(env, os)
    ensures |MovedPairs(env, now, doc, os, cs, n + 1)|
            == |MovedPairs(env, now, doc, os, cs, n)| + if Moves(env, now, doc, os[n], cs[n]) then 1 else 0
  {
    hide Moves;
    assert MovedPairs(env, now, doc, os, cs, n + 1)
        == MovedPairs(env, now, doc, os, cs, n) + if Moves(env, now, doc, os[n], cs[n]) then {n} else {};
  }

  lemma UsedGrow(env: Env, now: Sources, doc: string, os: seq<Citation>, cs: seq<Citation>, n: nat)
    requires Loaded(env, now) && n < |os| == |cs| && AllTracked(env, os)
    ensures UsedPairs(env, now, doc, os, cs, n + 1)
            == UsedPairs(env, now, doc, os, cs, n)
               + if Used(env, now, doc, os[n], cs[n]) then {(doc, os[n].whole, cs[n].whole)} else {}
  {
    hide Used;
  }

  lemma {:induction false} PairsAreCounted(env: Env, now: Sources, doc: string, os: seq<Citation>, cs: seq<Citation>,
                                           n: nat, t: Tally)
    requires Loaded(env, now) && n <= |os| == |cs| && AllTracked(env, os)
    ensures PairsCounted(env, now, doc, os, cs, n, t, PairTally(env, now, doc, os[..n], cs[..n], t))
  {
    hide Judge, Reported, Moves, Used, ReportedPairs, MovedPairs, UsedPairs;
    if n == 0 {
      NothingCounted(env, now, doc, os, cs);
    } else {
      var k := n - 1;
      PairsAreCounted(env, now, doc, os, cs, k, t);
      ReportedGrow(env, now, doc, os, cs, k);
      MovedGrow(env, now, doc, os, cs, k);
      UsedGrow(env, now, doc, os, cs, k);
      JudgedPair(env, now, doc, os[k], cs[k]);
      assert os[..n][..k] == os[..k] && cs[..n][..k] == cs[..k];
    }
  }

  lemma NothingCounted(env: Env, now: Sources, doc: string, os: seq<Citation>, cs: seq<Citation>)
    requires Loaded(env, now) && |os| == |cs| && AllTracked(env, os)
    ensures ReportedPairs(env, now, doc, os, cs, 0) == {} && MovedPairs(env, now, doc, os, cs, 0) == {}
    ensures UsedPairs(env, now, doc, os, cs, 0) == {}
  {
  }

  // ---- A path whose citation count changed --------------------------------------------------

  predicate StillSpelled(cs: seq<Citation>, o: Citation) { exists j | 0 <= j < |cs| :: cs[j].whole == o.whole }

  predicate Gone(env: Env, now: Sources, o: Citation)
    requires Loaded(env, now) && o.path in env.base
  {
    !StillRight(env, now, o.path, o.anchors, o.anchors)
  }

  /** Base citation `k` is the first of its spelling whose text is gone, and is still spelled. */
  predicate Leads(env: Env, now: Sources, os: seq<Citation>, cs: seq<Citation>, k: nat)
    requires Loaded(env, now) && k < |os| && AllTracked(env, os)
  {
    StillSpelled(cs, os[k]) && Gone(env, now, os[k])
    && forall j | 0 <= j < k :: os[j].whole == os[k].whole ==> !Gone(env, now, os[j])
  }

  function Leaders(env: Env, now: Sources, os: seq<Citation>, cs: seq<Citation>, n: nat): set<nat>
    requires Loaded(env, now) && n <= |os| && AllTracked(env, os)
  {
    set k: nat | k < n && Leads(env, now, os, cs, k)
  }

  ghost function MovedLeaders(env: Env, now: Sources, os: seq<Citation>, cs: seq<Citation>, n: nat): set<nat>
    requires Loaded(env, now) && n <= |os| && AllTracked(env, os)
  {
    set k: nat | k < n && Leads(env, now, os, cs, k) && Movable(env.hunks[os[k].path], os[k].anchors)
  }

  /** The anchors of the base citations that are no longer spelled. */
  function UnspelledAnchors(os: seq<Citation>, cs: seq<Citation>, n: nat): nat
    requires n <= |os|
  {
    if n == 0 then 0
    else UnspelledAnchors(os, cs, n - 1) + if StillSpelled(cs, os[n - 1]) then 0 else |os[n - 1].anchors|
  }

  /** The spellings counted so far. */
  predicate CountedSoFar(env: Env, now: Sources, os: seq<Citation>, cs: seq<Citation>, n: nat, counted: set<string>)
    requires Loaded(env, now) && n <= |os| && AllTracked(env, os)
  {
    counted == set k: nat | k < n && StillSpelled(cs, os[k]) && Gone(env, now, os[k]) :: os[k].whole
  }

  /**
   * What the first `n` base citations of such a path add: one drifted citation for each spelling that is
   * still there and whose text is gone, and the anchors of the spellings that are not there as unchecked.
   */
  ghost predicate SpellingsCounted(env: Env, now: Sources, os: seq<Citation>, cs: seq<Citation>, n: nat,
                                   t: Tally, r: Tally)
    requires Loaded(env, now) && n <= |os| && AllTracked(env, os)
  {
    var led, moved := |Leaders(env, now, os, cs, n)|, |MovedLeaders(env, now, os, cs, n)|;
    r.total == t.total + AnchorCount(os, n) && r.unchecked == t.unchecked + UnspelledAnchors(os, cs, n)
    && r.drifted == t.drifted + led && r.fixable == t.fixable + moved && r.unmappable == t.unmappable + (led - moved)
    && r.used == t.used
  }

  lemma LeadersGrow(env: Env, now: Sources, os: seq<Citation>, cs: seq<Citation>, n: nat)
    requires Loaded(env, now) && n < |os| && AllTracked(env, os)
    ensures |Leaders(env, now, os, cs, n + 1)|
            == |Leaders(env, now, os, cs, n)| + if Leads(env, now, os, cs, n) then 1 else 0
    ensures |MovedLeaders(env, now, os, cs, n + 1)|
            == |MovedLeaders(env, now, os, cs, n)|
               + if Leads(env, now, os, cs, n) && Movable(env.hunks[os[n].path], os[n].anchors) then 1 else 0
  {
    hide Leads, Movable, Loaded, AllTracked;
    assert n !in Leaders(env, now, os, cs, n) && n !in MovedLeaders(env, now, os, cs, n);
    LeadersNext(env, now, os, cs, n);
    hide Leaders, MovedLeaders;
    var led, moved := Leaders(env, now, os, cs, n), MovedLeaders(env, now, os, cs, n);
    if Leads(env, now, os, cs, n) { assert |led + {n}| == |led| + 1 && |moved + {n}| == |moved| + 1; }
  }

  lemma LeadersNext(env: Env, now: Sources, os: seq<Citation>, cs: seq<Citation>, n: nat)
    requires Loaded(env, now) && n < |os| && AllTracked(env, os)
    ensures Leaders(env, now, os, cs, n + 1)
            == if Leads(env, now, os, cs, n) then Leaders(env, now, os, cs, n) + {n} else Leaders(env, now, os, cs, n)
    ensures MovedLeaders(env, now, os, cs, n + 1)
            == if Leads(env, now, os, cs, n) && Movable(env.hunks[os[n].path], os[n].anchors)
               then MovedLeaders(env, now, os, cs, n) + {n}
               else MovedLeaders(env, now, os, cs, n)
  {
    hide Leads, Movable;
  }

  lemma CountedGrows(env: Env, now: Sources, os: seq<Citation>, cs: seq<Citation>, n: nat, counted: set<string>)
    requires Loaded(env, now) && n < |os| && AllTracked(env, os) && CountedSoFar(env, now, os, cs, n, counted)
    ensures var more := StillSpelled(cs, os[n]) && Gone(env, now, os[n]);
            CountedSoFar(env, now, os, cs, n + 1, counted + if more then {os[n].whole} else {})
            && (Leads(env, now, os, cs, n) <==> more && os[n].whole !in counted)
  {
    hide Gone;
    forall j | 0 <= j < n && os[j].whole == os[n].whole
      ensures StillSpelled(cs, os[j]) <==> StillSpelled(cs, os[n]) {}
  }

  lemma SpelledIff(cs: seq<Citation>, o: Citation)
    ensures Spelled(cs, o.whole) != [] <==> StillSpelled(cs, o)
  {
    if Spelled(cs, o.whole) != [] { assert Spelled(cs, o.whole)[0] in Spelled(cs, o.whole); }
    if j :| 0 <= j < |cs| && cs[j].whole == o.whole { assert cs[j] in Spelled(cs, o.whole); }
  }

  lemma {:induction false} SpellingsAreCounted(env: Env, now: Sources, os: seq<Citation>, cs: seq<Citation>, n: nat,
                                               t: Tally)
    requires Loaded(env, now) && n <= |os| && AllTracked(env, os)
    ensures var r := LooseTally(env, now, os[..n], cs, Loose(t, {}));
            SpellingsCounted(env, now, os, cs, n, t, r.tally) && CountedSoFar(env, now, os, cs, n, r.counted)
  {
    hide AllRight, StillRight, Leads, Movable, StillSpelled, Leaders, MovedLeaders, CountedSoFar, SpanEdits, Rebuilt;
    hide Spelled, MapAnchors;
    if n == 0 {
      NoSpellings(env, now, os, cs);
    } else {
      var k := n - 1;
      SpellingsAreCounted(env, now, os, cs, k, t);
      LeadersGrow(env, now, os, cs, k);
      CountedGrows(env, now, os, cs, k, LooseTally(env, now, os[..k], cs, Loose(t, {})).counted);
      SpelledIff(cs, os[k]);
      AllRightIff(env, now, os[k].path, os[k].anchors, os[k].anchors);
      MovableIff(env.hunks[os[k].path], os[k].anchors);
      assert os[..n][..k] == os[..k];
      AgainCounted(LooseTally(env, now, os[..k], cs, Loose(t, {})).counted, os[k].whole);
    }
  }

  lemma AgainCounted(counted: set<string>, whole: string)
    ensures whole in counted ==> counted + {whole} == counted
    ensures counted + {} == counted
  {
  }

  lemma NoSpellings(env: Env, now: Sources, os: seq<Citation>, cs: seq<Citation>)
    requires Loaded(env, now) && AllTracked(env, os)
    ensures Leaders(env, now, os, cs, 0) == {} && MovedLeaders(env, now, os, cs, 0) == {}
    ensures CountedSoFar(env, now, os, cs, 0, {})
  {
  }

  // ---- A document ---------------------------------------------------------------------------

  /** What one path adds to the totals, whichever branch it takes. */
  ghost predicate PathCounted(env: Env, now: Sources, doc: string, path: string, olds: seq<Citation>,
                              curs: seq<Citation>, t: Tally, r: Tally)
    requires Loaded(env, now)
  {
    var os, cs := OfPath(olds, path), OfPath(curs, path);
    if path !in env.base then r == t
    else if |os| == |cs| then PairsCounted(env, now, doc, os, cs, |os|, t, r)
    else SpellingsCounted(env, now, os, cs, |os|, t, r)
  }

  lemma PathIsCounted(env: Env, now: Sources, doc: string, path: string, olds: seq<Citation>, curs: seq<Citation>,
                      t: Tally)
    requires Loaded(env, now)
    ensures PathCounted(env, now, doc, path, olds, curs, t, PathTally(env, now, doc, path, olds, curs, t))
  {
    hide PairTally, LooseTally, PairsCounted, SpellingsCounted;
    var os, cs := OfPath(olds, path), OfPath(curs, path);
    if path in env.base {
      assert os[..|os|] == os && cs[..|cs|] == cs;
      if |os| == |cs| { PairsAreCounted(env, now, doc, os, cs, |os|, t); }
      else { SpellingsAreCounted(env, now, os, cs, |os|, t); }
    }
  }

  /** The totals after each path of a document. */
  ghost predicate DocCounted(env: Env, now: Sources, doc: string, paths: seq<string>, olds: seq<Citation>,
                             curs: seq<Citation>, steps: seq<Tally>)
    requires Loaded(env, now)
  {
    |steps| == |paths| + 1
    && forall j | 0 <= j < |paths| :: PathCounted(env, now, doc, paths[j], olds, curs, steps[j], steps[j + 1])
  }

  /** Paths are taken once each: every path the base document cites. */
  lemma {:induction false} PathsOnce(cites: seq<Citation>)
    ensures forall i, j | 0 <= i < j < |Paths(cites)| :: Paths(cites)[i] != Paths(cites)[j]
    ensures forall p :: p in Paths(cites) <==> exists k :: 0 <= k < |cites| && cites[k].path == p
  {
    if cites != [] {
      var n := |cites| - 1;
      PathsOnce(cites[..n]);
      forall p ensures p in Paths(cites) <==> exists k :: 0 <= k < |cites| && cites[k].path == p {
        assert p in Paths(cites) <==> p in Paths(cites[..n]) || p == cites[n].path;
        if k :| 0 <= k < n && cites[..n][k].path == p { assert cites[k].path == p; }
        if k :| 0 <= k < n && cites[k].path == p { assert cites[..n][k].path == p; }
      }
    }
  }

  lemma {:induction false} DocIsCounted(env: Env, now: Sources, doc: string, paths: seq<string>, olds: seq<Citation>,
                                        curs: seq<Citation>, t: Tally) returns (steps: seq<Tally>)
    requires Loaded(env, now)
    ensures DocCounted(env, now, doc, paths, olds, curs, steps)
    ensures steps[0] == t && steps[|paths|] == DocTally(env, now, doc, paths, olds, curs, t)
  {
    hide PathCounted, PathTally;
    if paths == [] {
      steps := [t];
    } else {
      var n := |paths| - 1;
      var before := DocIsCounted(env, now, doc, paths[..n], olds, curs, t);
      PathIsCounted(env, now, doc, paths[n], olds, curs, before[n]);
      steps := before + [DocTally(env, now, doc, paths, olds, curs, t)];
      forall j | 0 <= j < |paths| ensures PathCounted(env, now, doc, paths[j], olds, curs, steps[j], steps[j + 1]) {
        if j < n {
          assert PathCounted(env, now, doc, paths[..n][j], olds, curs, before[j], before[j + 1]);
        }
      }
    }
  }

  // ---- Where citations move -------------------------------------------------------------------

  /** A paired citation moves to `to` exactly when its pair is reported and the line map takes it there. */
  lemma PairedMoveIff(env: Env, now: Sources, doc: string, olds: seq<Citation>, curs: seq<Citation>, k: nat,
                      to: seq<Anchor>)
    requires Loaded(env, now) && k < |curs| && curs[k].path in env.base
    requires |OfPath(olds, curs[k].path)| == |OfPath(curs, curs[k].path)|
    ensures |OfPath(curs[..k], curs[k].path)| < |OfPath(olds, curs[k].path)|
    ensures var o := OfPath(olds, curs[k].path)[|OfPath(curs[..k], curs[k].path)|];
            MoveOf(env, now, doc, olds, curs, k) == Some(to)
            <==> |o.anchors| == |curs[k].anchors| && Reported(env, now, doc, o, curs[k])
                 && MapsTo(env.hunks[o.path], o.anchors, to)
  {
    hide Judge, Reported, MapsTo;
    var p := curs[k].path;
    OfPathAt(curs, p, k);
    var o := OfPath(olds, p)[|OfPath(curs[..k], p)|];
    JudgedPair(env, now, doc, o, curs[k]);
    JudgedMove(env, now, doc, o, curs[k], to);
  }

  lemma JudgedMove(env: Env, now: Sources, doc: string, o: Citation, c: Citation, to: seq<Anchor>)
    requires Loaded(env, now) && o.path in env.base
    ensures Judge(env, now, doc, o, c) == Moved(to)
            <==> |o.anchors| == |c.anchors| && Reported(env, now, doc, o, c) && MapsTo(env.hunks[o.path], o.anchors, to)
  {
    hide AllRight, StillRight, MapsTo;
    MapAnchorsIff(env.hunks[o.path], o.anchors, to);
    if |o.anchors| == |c.anchors| { AllRightIff(env, now, o.path, o.anchors, c.anchors); }
  }

  /** A citation on a path whose count changed moves where the leader of its spelling is taken. */
  lemma LooseMoveIff(env: Env, now: Sources, os: seq<Citation>, cs: seq<Citation>, c: Citation, to: seq<Anchor>)
    requires Loaded(env, now) && AllTracked(env, os) && c in cs
    ensures LooseMove(env, now, os, c.whole) == Some(to)
            <==> exists k: nat :: k < |os| && os[k].whole == c.whole && Leads(env, now, os, cs, k)
                                  && MapsTo(env.hunks[os[k].path], os[k].anchors, to)
  {
    hide AllRight, StillRight, MapsTo, MapAnchors;
    var w := c.whole;
    var j :| 0 <= j < |cs| && cs[j] == c;
    if FirstWrong(env, now, os, w).Some? {
      var k := FirstWrongAt(env, now, os, cs, c);
      MapAnchorsIff(env.hunks[os[k].path], os[k].anchors, to);
    } else {
      NoneWrong(env, now, os, w);
    }
  }

  lemma {:induction false} FirstWrongAt(env: Env, now: Sources, os: seq<Citation>, cs: seq<Citation>, c: Citation)
    returns (k: nat)
    requires Loaded(env, now) && AllTracked(env, os) && c in cs && FirstWrong(env, now, os, c.whole).Some?
    ensures k < |os| && os[k] == FirstWrong(env, now, os, c.whole).value && os[k].whole == c.whole
    ensures Leads(env, now, os, cs, k)
    ensures forall j: nat | j < |os| && os[j].whole == c.whole && Leads(env, now, os, cs, j) :: j == k
  {
    hide AllRight, StillRight;
    var n := |os| - 1;
    AllRightIff(env, now, os[n].path, os[n].anchors, os[n].anchors);
    if FirstWrong(env, now, os[..n], c.whole).Some? {
      k := FirstWrongAt(env, now, os[..n], cs, c);
      assert forall j | 0 <= j < n :: os[..n][j] == os[j];
      forall j: nat | j < |os| && os[j].whole == c.whole && Leads(env, now, os, cs, j) ensures j == k {
        if j < n { assert Leads(env, now, os[..n], cs, j); }
      }
    } else {
      k := n;
      NoneWrong(env, now, os[..n], c.whole);
      assert forall j | 0 <= j < n :: os[..n][j] == os[j];
    }
  }

  lemma {:induction false} NoneWrong(env: Env, now: Sources, os: seq<Citation>, w: string)
    requires Loaded(env, now) && AllTracked(env, os) && FirstWrong(env, now, os, w).None?
    ensures forall k | 0 <= k < |os| && os[k].whole == w :: !Gone(env, now, os[k])
  {
    hide AllRight, StillRight;
    if os != [] {
      var n := |os| - 1;
      NoneWrong(env, now, os[..n], w);
      AllRightIff(env, now, os[n].path, os[n].anchors, os[n].anchors);
      assert forall j | 0 <= j < n :: os[..n][j] == os[j];
    }
  }

  // ---- Declared transitions -------------------------------------------------------------------

  /**
   * A declared transition is excused, whatever the line map says: nothing is counted and nothing moves;
   * the declaration counts as used when the text is gone.
   */
  lemma DeclaredIsExcused(env: Env, now: Sources, doc: string, o: Citation, c: Citation, t: Tally)
    requires Loaded(env, now) && o.path in env.base && |o.anchors| == |c.anchors|
    requires o.whole != c.whole && o.whole != "" && c.whole != "" && (doc, o.whole, c.whole) in env.reaims
    ensures var r := PairTally(env, now, doc, [o], [c], t);
            r.drifted == t.drifted && r.fixable == t.fixable && r.unmappable == t.unmappable && r.edits == t.edits
            && r.used == t.used + if StillRight(env, now, o.path, o.anchors, c.anchors) then {}
                                  else {(doc, o.whole, c.whole)}
    ensures PairMove(Judge(env, now, doc, o, c)) == None
  {
    hide StillRight;
    JudgedPair(env, now, doc, o, c);
    OnePair(env, now, doc, o, c, t);
  }

  lemma OnePair(env: Env, now: Sources, doc: string, o: Citation, c: Citation, t: Tally)
    requires Loaded(env, now) && o.path in env.base
    ensures PairTally(env, now, doc, [o], [c], t) == AddPair(t, doc, o, c, Judge(env, now, doc, o, c))
  {
    hide Judge;
    assert [o][..0] == [] && [c][..0] == [];
    assert PairTally(env, now, doc, [], [], t) == t;
  }

  /** Where the text is gone, no other declaration helps: not that of the way back, nor of another document. */
  lemma UndeclaredIsReported(env: Env, now: Sources, doc: string, o: Citation, c: Citation, t: Tally)
    requires Loaded(env, now) && o.path in env.base && (doc, o.whole, c.whole) !in env.reaims
    requires !StillRight(env, now, o.path, o.anchors, c.anchors)
    ensures var r := PairTally(env, now, doc, [o], [c], t); r.drifted == t.drifted + 1 && r.used == t.used
  {
    hide StillRight;
    JudgedPair(env, now, doc, o, c);
    OnePair(env, now, doc, o, c, t);
    if |o.anchors| != |c.anchors| { assert Reported(env, now, doc, o, c); }
  }

  /** A run uses declared transitions only. */
  lemma {:induction false} UsedAreDeclared(m: Mode, jobs: seq<Job>, s: Progress)
    requires Loaded(m.env, s.now) && s.tally.used <= m.env.reaims
    ensures Passed(m, jobs, s).tally.used <= m.env.reaims
  {
    hide Queued, Left;
    if jobs != [] {
      var n := |jobs| - 1;
      UsedAreDeclared(m, jobs[..n], s);
      var before := Passed(m, jobs[..n], s);
      if jobs[n].base.Some? { QueuedUses(m, jobs[n], before); }
    }
  }

  lemma QueuedUses(m: Mode, job: Job, s: Progress)
    requires Loaded(m.env, s.now) && job.base.Some? && s.tally.used <= m.env.reaims
    ensures Queued(m, job, s).used <= m.env.reaims
  {
    hide DocTally, Cites, Paths;
    var olds, curs := Cites(job.base.value, 0), Cites(job.cur, 0);
    DocUses(m.env, s.now, job.name, Paths(olds), olds, curs, s.tally.(edits := []));
  }

  lemma {:induction false} DocUses(env: Env, now: Sources, doc: string, paths: seq<string>, olds: seq<Citation>,
                                   curs: seq<Citation>, t: Tally)
    requires Loaded(env, now) && t.used <= env.reaims
    ensures DocTally(env, now, doc, paths, olds, curs, t).used <= env.reaims
  {
    hide PathTally, ReportedPairs, MovedPairs, Leaders, MovedLeaders, StillRight, OfPath;
    if paths != [] {
      var n := |paths| - 1;
      DocUses(env, now, doc, paths[..n], olds, curs, t);
      PathIsCounted(env, now, doc, paths[n], olds, curs, DocTally(env, now, doc, paths[..n], olds, curs, t));
    }
  }

  // ---- A document of a run --------------------------------------------------------------------

  /** The totals a document moves: those of its paths, its repairable citations given back when withheld. */
  predicate Settled(s: Progress, last: Tally, r: Progress, withheld: bool) {
    r.tally.total == last.total && r.tally.unchecked == last.unchecked && r.tally.drifted == last.drifted
    && r.tally.unmappable == last.unmappable && r.tally.used == last.used
    && r.tally.fixable == (if withheld then s.tally.fixable else last.fixable)
    && r.withheld == s.withheld + if withheld then last.fixable - s.tally.fixable else 0
  }

  /**
   * One document of a run: the totals grow path by path as stated, and its repairable citations are
   * withheld exactly under `--fix` and when it owns a misaimed declaration.
   */
  lemma DocumentIsCounted(m: Mode, job: Job, s: Progress) returns (steps: seq<Tally>)
    requires Loaded(m.env, s.now) && job.base.Some?
    ensures var olds, curs := Cites(job.base.value, 0), Cites(job.cur, 0);
            DocCounted(m.env, s.now, job.name, Paths(olds), olds, curs, steps)
            && steps[0] == s.tally.(edits := [])
            && Settled(s, steps[|Paths(olds)|], Next(m, job, s), m.fix && job.name in m.misaimed)
  {
    hide DocTally, Cites, Paths, PathCounted;
    var olds, curs := Cites(job.base.value, 0), Cites(job.cur, 0);
    steps := DocIsCounted(m.env, s.now, job.name, Paths(olds), olds, curs, s.tally.(edits := []));
    DocBacked(m.env, s.now, job.name, Paths(olds), olds, curs, s.tally.(edits := []));
    DocTallyGrows(m.env, s.now, job.name, Paths(olds), olds, curs, s.tally.(edits := []));
  }

  /** A check, a new document and one that owns a misaimed declaration leave the text as it is. */
  lemma LeftAlone(m: Mode, job: Job, now: Sources)
    requires Loaded(m.env, now) && (!m.fix || job.base.None? || job.name in m.misaimed)
    ensures Left(m, job, now) == job.cur
  {
  }
}
