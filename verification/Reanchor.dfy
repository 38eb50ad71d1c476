/**
 * What `scripts/check-citations.py` decides about the citations of one document: which still name
 * the text they named in the base revision, which drifted, and where those move.
 */
module Reanchor {
  import opened Ascii
  import opened Wrappers
  import opened Splice
  import opened Citations
  import L = LineMap

  type Sources = map<string, seq<string>>

  /**
   * What a run compares against: the base revision of the tracked sources, the hunks of each, the
   * declared versioned lines with their tokens, and the declared re-aims (document, base spelling,
   * current spelling).
   */
  datatype Env = Env(base: Sources, hunks: map<string, seq<L.Hunk>>,
                     versioned: map<(string, int), string>, reaims: set<(string, string, string)>)

  /** Every source of the base revision has its hunks and its current text. */
  predicate Loaded(env: Env, now: Sources) {
    forall p | p in env.base :: p in env.hunks && p in now
  }

  /** `line_of(lines, n)` */
  function LineOf(lines: seq<string>, n: int): Option<string> {
    if 1 <= n <= |lines| then Some(lines[n - 1]) else None
  }

  /**
   * One endpoint of `anchor_still_right`. A versioned line that did not move is held to its token
   * only. A missing versioned line cannot be reached: `verify_versioned_lines` stops the run first.
   */
  predicate EndpointRight(env: Env, now: Sources, path: string, lo: int, hi: int)
    requires Loaded(env, now) && path in env.base
  {
    if lo == hi && (path, lo) in env.versioned then
      match LineOf(now[path], hi)
      case None => false
      case Some(line) => Contains(env.versioned[(path, lo)], line)
    else LineOf(env.base[path], lo) == LineOf(now[path], hi)
  }

  /** `anchor_still_right` */
  predicate AnchorRight(env: Env, now: Sources, path: string, x: Anchor, y: Anchor)
    requires Loaded(env, now) && path in env.base
  {
    && x.b.None? == y.b.None?
    && EndpointRight(env, now, path, x.a, y.a)
    && (x.b.Some? ==> EndpointRight(env, now, path, x.b.value, y.b.value))
  }

  predicate AllRight(env: Env, now: Sources, path: string, xs: seq<Anchor>, ys: seq<Anchor>)
    requires Loaded(env, now) && path in env.base && |xs| == |ys|
  {
    forall k | 0 <= k < |xs| :: AnchorRight(env, now, path, xs[k], ys[k])
  }

  /** An anchor moved by the line map; a range ending at 0 has no counterpart. */
  function MapAnchor(hunks: seq<L.Hunk>, x: Anchor): Option<Anchor> {
    match L.Map(hunks, x.a)
    case None => None
    case Some(na) =>
      if x.b.None? then Some(Anchor(na, None))
      else if x.b.value == 0 then None
      else
        match L.Map(hunks, x.b.value)
        case None => None
        case Some(nb) => Some(Anchor(na, Some(nb)))
  }

  /** All anchors of a citation moved, or nothing when one of them has no counterpart. */
  function MapAnchors(hunks: seq<L.Hunk>, xs: seq<Anchor>): (r: Option<seq<Anchor>>)
    ensures r.Some? ==> |r.value| == |xs| && forall k | 0 <= k < |xs| :: MapAnchor(hunks, xs[k]) == Some(r.value[k])
  {
    if xs == [] then Some([])
    else
      match (MapAnchor(hunks, xs[0]), MapAnchors(hunks, xs[1..]))
      case (Some(x), Some(rest)) => Some([x] + rest)
      case _ => None
  }

  /** `is_declared_reaim` */
  predicate DeclaredReaim(env: Env, doc: string, was: string, cur: string) {
    was != cur && was != "" && cur != "" && (doc, was, cur) in env.reaims
  }

  // ---- One citation paired with its counterpart ---------------------------------------------

  datatype Verdict = Right | Excused | Recounted | Lost | Moved(to: seq<Anchor>)

  function Judge(env: Env, now: Sources, doc: string, was: Citation, cur: Citation): Verdict
    requires Loaded(env, now) && was.path in env.base
  {
    if |was.anchors| != |cur.anchors| then Recounted
    else if AllRight(env, now, was.path, was.anchors, cur.anchors) then Right
    else if DeclaredReaim(env, doc, was.whole, cur.whole) then Excused
    else
      match MapAnchors(env.hunks[was.path], was.anchors)
      case None => Lost
      case Some(to) => Moved(to)
  }

  /** The running totals of `main`, the edits queued for the document and the re-aims honoured. */
  datatype Tally = Tally(total: nat, unchecked: nat, drifted: nat, fixable: nat, unmappable: nat,
                         edits: seq<Edit>, used: set<(string, string, string)>)

  const NOTHING := Tally(0, 0, 0, 0, 0, [], {})

  function AddPair(t: Tally, doc: string, was: Citation, cur: Citation, v: Verdict): Tally {
    var t := t.(total := t.total + |was.anchors|);
    match v
    case Right => t
    case Excused => t.(used := t.used + {(doc, was.whole, cur.whole)})
    case Recounted => t.(drifted := t.drifted + 1, unmappable := t.unmappable + 1)
    case Lost => t.(drifted := t.drifted + 1, unmappable := t.unmappable + 1)
    case Moved(to) =>
      t.(drifted := t.drifted + 1, fixable := t.fixable + 1,
         edits := t.edits + [Edit(cur.start, cur.end, Rebuilt(was.path, to))])
  }

  /** The ordinal pairing of one path's citations. */
  function PairTally(env: Env, now: Sources, doc: string, olds: seq<Citation>, curs: seq<Citation>, t: Tally): Tally
    requires Loaded(env, now) && |olds| == |curs| && forall k | 0 <= k < |olds| :: olds[k].path in env.base
  {
    if olds == [] then t
    else
      var n := |olds| - 1;
      AddPair(PairTally(env, now, doc, olds[..n], curs[..n], t), doc, olds[n], curs[n],
              Judge(env, now, doc, olds[n], curs[n]))
  }

  // ---- A path whose citation count changed --------------------------------------------------

  /** `still.get(whole)`: the current citations spelled `whole`. */
  function Spelled(curs: seq<Citation>, whole: string): (r: seq<Citation>)
    ensures forall c :: c in r <==> c in curs && c.whole == whole
  {
    if curs == [] then []
    else
      var n := |curs| - 1;
      assert curs == curs[..n] + [curs[n]];
      Spelled(curs[..n], whole) + (if curs[n].whole == whole then [curs[n]] else [])
  }

  function SpanEdits(cites: seq<Citation>, text: string): (r: seq<Edit>)
    ensures forall e :: e in r <==> exists c | c in cites :: e == Edit(c.start, c.end, text)
  {
    if cites == [] then []
    else
      assert cites == [cites[0]] + cites[1..];
      [Edit(cites[0].start, cites[0].end, text)] + SpanEdits(cites[1..], text)
  }

  /** The tally with the spellings already counted. */
  datatype Loose = Loose(tally: Tally, counted: set<string>)

  function AddLoose(env: Env, now: Sources, curs: seq<Citation>, s: Loose, was: Citation): Loose
    requires Loaded(env, now) && was.path in env.base
  {
    var t := s.tally.(total := s.tally.total + |was.anchors|);
    var same := Spelled(curs, was.whole);
    if same == [] then s.(tally := t.(unchecked := t.unchecked + |was.anchors|))
    else if AllRight(env, now, was.path, was.anchors, was.anchors) || was.whole in s.counted then s.(tally := t)
    else
      var t := t.(drifted := t.drifted + 1);
      match MapAnchors(env.hunks[was.path], was.anchors)
      case None => Loose(t.(unmappable := t.unmappable + 1), s.counted + {was.whole})
      case Some(to) =>
        Loose(t.(fixable := t.fixable + 1, edits := t.edits + SpanEdits(same, Rebuilt(was.path, to))),
              s.counted + {was.whole})
  }

  /** The conservative check by spelling. */
  function LooseTally(env: Env, now: Sources, olds: seq<Citation>, curs: seq<Citation>, s: Loose): Loose
    requires Loaded(env, now) && forall k | 0 <= k < |olds| :: olds[k].path in env.base
  {
    if olds == [] then s
    else
      var n := |olds| - 1;
      AddLoose(env, now, curs, LooseTally(env, now, olds[..n], curs, s), olds[n])
  }

  // ---- A document ---------------------------------------------------------------------------

  /** One path's list of `by_path_old` or `by_path_cur`. */
  function OfPath(cites: seq<Citation>, path: string): (r: seq<Citation>)
    ensures forall k | 0 <= k < |r| :: r[k].path == path
  {
    if cites == [] then []
    else
      var n := |cites| - 1;
      OfPath(cites[..n], path) + (if cites[n].path == path then [cites[n]] else [])
  }

  /** The keys of `by_path_old`, in order of first appearance. */
  function Paths(cites: seq<Citation>): seq<string> {
    if cites == [] then []
    else
      var n := |cites| - 1;
      var rest := Paths(cites[..n]);
      if cites[n].path in rest then rest else rest + [cites[n].path]
  }

  function PathTally(env: Env, now: Sources, doc: string, path: string,
                     olds: seq<Citation>, curs: seq<Citation>, t: Tally): Tally
    requires Loaded(env, now)
  {
    var os, cs := OfPath(olds, path), OfPath(curs, path);
    if path !in env.base then t
    else if |os| == |cs| then PairTally(env, now, doc, os, cs, t)
    else LooseTally(env, now, os, cs, Loose(t, {})).tally
  }

  /** The tally over the paths of a document. */
  function DocTally(env: Env, now: Sources, doc: string, paths: seq<string>,
                    olds: seq<Citation>, curs: seq<Citation>, t: Tally): Tally
    requires Loaded(env, now)
  {
    if paths == [] then t
    else
      var n := |paths| - 1;
      PathTally(env, now, doc, paths[n], olds, curs, DocTally(env, now, doc, paths[..n], olds, curs, t))
  }

  // ---- Accounting ---------------------------------------------------------------------------

  /** How far a later tally moved from an earlier one; each citation adds its own anchors only. */
  predicate Grown(t: Tally, t': Tally) {
    && t'.drifted - t'.fixable - t'.unmappable == t.drifted - t.fixable - t.unmappable
    && t'.total - t'.unchecked >= t.total - t.unchecked
    && t'.total >= t.total && t'.fixable >= t.fixable && t'.unmappable >= t.unmappable
  }

  lemma {:induction false} PairTallyGrows(env: Env, now: Sources, doc: string,
                                          olds: seq<Citation>, curs: seq<Citation>, t: Tally)
    requires Loaded(env, now) && |olds| == |curs| && forall k | 0 <= k < |olds| :: olds[k].path in env.base
    ensures Grown(t, PairTally(env, now, doc, olds, curs, t))
  {
    if olds != [] {
      var n := |olds| - 1;
      PairTallyGrows(env, now, doc, olds[..n], curs[..n], t);
    }
  }

  lemma {:induction false} LooseTallyGrows(env: Env, now: Sources, olds: seq<Citation>, curs: seq<Citation>, s: Loose)
    requires Loaded(env, now) && forall k | 0 <= k < |olds| :: olds[k].path in env.base
    ensures Grown(s.tally, LooseTally(env, now, olds, curs, s).tally)
  {
    if olds != [] {
      LooseTallyGrows(env, now, olds[..|olds| - 1], curs, s);
    }
  }

  /** A document's tally conserves citations on both branches, however often one is spelled. */
  lemma {:induction false} DocTallyGrows(env: Env, now: Sources, doc: string, paths: seq<string>,
                                         olds: seq<Citation>, curs: seq<Citation>, t: Tally)
    requires Loaded(env, now)
    ensures Grown(t, DocTally(env, now, doc, paths, olds, curs, t))
  {
    if paths != [] {
      var n := |paths| - 1;
      var t' := DocTally(env, now, doc, paths[..n], olds, curs, t);
      DocTallyGrows(env, now, doc, paths[..n], olds, curs, t);
      var os, cs := OfPath(olds, paths[n]), OfPath(curs, paths[n]);
      if paths[n] in env.base {
        if |os| == |cs| { PairTallyGrows(env, now, doc, os, cs, t'); }
        else { LooseTallyGrows(env, now, os, cs, Loose(t', {})); }
      }
    }
  }
}
