/** `apply_edits` and `invalidated_reaims` of `scripts/check-citations.py`. */
module Splice {
  import opened Ascii
  import opened Wrappers

  /** Replace `[start, end)` by `text`. */
  datatype Edit = Edit(start: nat, end: nat, text: string)

  /** A span a match produced: not empty, and inside a document of length `n`. */
  predicate InRange(e: Edit, n: nat) { e.start < e.end <= n }

  predicate AllInRange(edits: seq<Edit>, n: nat) {
    forall k | 0 <= k < |edits| :: InRange(edits[k], n)
  }

  predicate Overlap(e: Edit, f: Edit) { e.start < f.end && f.start < e.end }

  ghost predicate Clash(edits: seq<Edit>) {
    exists e, f | e in edits && f in edits :: e != f && Overlap(e, f)
  }

  predicate Distinct(edits: seq<Edit>) {
    forall i, j | 0 <= i < j < |edits| :: edits[i] != edits[j]
  }

  /** `listing` holds exactly the edits of `edits`, each once. */
  ghost predicate Lists(listing: seq<Edit>, edits: seq<Edit>) {
    Distinct(listing) && forall e :: e in listing <==> e in edits
  }

  predicate Descending(edits: seq<Edit>) {
    forall i, j | 0 <= i < j < |edits| :: edits[i].start >= edits[j].start
  }

  /** Left to right and disjoint. */
  predicate InOrder(edits: seq<Edit>) {
    forall i, j | 0 <= i < j < |edits| :: edits[i].end <= edits[j].start
  }

  /** `order` lists the edits from left to right, each once, without overlap. */
  ghost predicate Order(order: seq<Edit>, edits: seq<Edit>, n: nat) {
    InOrder(order) && Lists(order, edits) && AllInRange(order, n)
  }

  datatype Outcome = Refused | Rewritten(text: string)

  /** Simultaneous substitution: from offset `p` on, the gaps and the replacements in order. */
  function Substitute(text: string, p: nat, edits: seq<Edit>): string
    requires p <= |text| && AllInRange(edits, |text|) && InOrder(edits)
    requires edits != [] ==> p <= edits[0].start
    decreases |edits|
  {
    if edits == [] then text[p..]
    else
      var e := edits[0];
      text[p..e.start] + e.text + Substitute(text, e.end, edits[1..])
  }

  predicate Covers(e: Edit, k: nat) { e.start <= k < e.end }

  /** Two spans overlap iff some character is in both. */
  lemma OverlapIff(e: Edit, f: Edit, n: nat)
    requires InRange(e, n) && InRange(f, n)
    ensures Overlap(e, f) <==> exists k: nat :: Covers(e, k) && Covers(f, k)
  {
    if Overlap(e, f) {
      var k := if e.start < f.start then f.start else e.start;
      assert Covers(e, k) && Covers(f, k);
    }
  }

  /** By how much the edits together change a document's length. */
  function Growth(edits: seq<Edit>): int {
    if edits == [] then 0
    else |edits[0].text| - (edits[0].end - edits[0].start) + Growth(edits[1..])
  }

  lemma {:induction false} SubstituteLength(text: string, p: nat, edits: seq<Edit>)
    requires p <= |text| && AllInRange(edits, |text|) && InOrder(edits)
    requires edits != [] ==> p <= edits[0].start
    ensures |Substitute(text, p, edits)| == |text| - p + Growth(edits)
    decreases |edits|
  {
    if edits != [] {
      SubstituteLength(text, edits[0].end, edits[1..]);
    }
  }

  /** What precedes the first edit can be split off. */
  lemma SubstituteFrom(text: string, p: nat, q: nat, edits: seq<Edit>)
    requires p <= q <= |text| && AllInRange(edits, |text|) && InOrder(edits)
    requires edits != [] ==> q <= edits[0].start
    ensures Substitute(text, p, edits) == text[p..q] + Substitute(text, q, edits)
  {
    if edits == [] {
      assert text[p..] == text[p..q] + text[q..];
    } else {
      var e := edits[0];
      var rest := Substitute(text, e.end, edits[1..]);
      var gap := text[q..e.start];
      assert text[p..e.start] == text[p..q] + gap;
      assert text[p..q] + gap + e.text + rest == text[p..q] + (gap + e.text + rest);
    }
  }

  /** Splicing the first of the edits. */
  lemma SubstituteCons(text: string, p: nat, e: Edit, later: seq<Edit>)
    requires AllInRange([e] + later, |text|) && InOrder([e] + later) && p <= e.start
    requires AllInRange(later, |text|) && InOrder(later) && (later != [] ==> e.end <= later[0].start)
    ensures e.start <= e.end <= |text|
    ensures Substitute(text, p, [e] + later) == text[p..e.start] + e.text + Substitute(text, e.end, later)
  {
    assert InRange(([e] + later)[0], |text|);
    assert ([e] + later)[1..] == later;
  }

  /**
   * One right-to-left step: once the later edits are substituted, splicing the edit before them
   * into the string gives the substitution with that edit in front.
   */
  lemma SpliceBefore(text: string, e: Edit, later: seq<Edit>)
    requires AllInRange([e] + later, |text|) && InOrder([e] + later)
    requires AllInRange(later, |text|) && InOrder(later)
    ensures var s := Substitute(text, 0, later);
            e.start < e.end <= |s| && s[..e.start] + e.text + s[e.end..] == Substitute(text, 0, [e] + later)
  {
    var all := [e] + later;
    assert e in all && all[1..] == later;
    assert later != [] ==> all[0].end <= all[1].start;
    SubstituteFrom(text, 0, e.end, later);
    var s := Substitute(text, 0, later);
    assert s[..e.start] == text[..e.start];
    assert s[e.end..] == Substitute(text, e.end, later);
  }

  /** Inserts one edit into a list sorted by falling start. */
  method InsertSorted(e: Edit, sorted: seq<Edit>) returns (r: seq<Edit>)
    requires Descending(sorted) && e !in sorted && Distinct(sorted)
    ensures Descending(r) && Lists(r, [e] + sorted)
  {
    var i := 0;
    while i < |sorted| && sorted[i].start >= e.start
      invariant 0 <= i <= |sorted|
      invariant forall k | 0 <= k < i :: sorted[k].start >= e.start
    {
      i := i + 1;
    }
    r := sorted[..i] + [e] + sorted[i..];
    InsertKeepsListing(e, sorted, i);
  }

  /** Inserting a new edit anywhere in a listing lists one edit more. */
  lemma InsertKeepsListing(e: Edit, sorted: seq<Edit>, i: nat)
    requires i <= |sorted| && e !in sorted && Distinct(sorted)
    ensures Lists(sorted[..i] + [e] + sorted[i..], [e] + sorted)
  {
    var r := sorted[..i] + [e] + sorted[i..];
    assert sorted == sorted[..i] + sorted[i..];
    forall j, k | 0 <= j < k < |r| ensures r[j] != r[k] {
      assert r[j] == if j < i then sorted[j] else if j == i then e else sorted[j - 1];
      assert r[k] == if k < i then sorted[k] else if k == i then e else sorted[k - 1];
    }
  }

  /** `sorted(set(edits), key=lambda e: -e[0])` */
  method SortedUnique(edits: seq<Edit>) returns (r: seq<Edit>)
    ensures Descending(r) && Lists(r, edits)
  {
    r := [];
    for i := 0 to |edits|
      invariant Descending(r) && Lists(r, edits[..i])
    {
      assert edits[..i + 1] == edits[..i] + [edits[i]];
      if edits[i] !in r {
        r := InsertSorted(edits[i], r);
      }
    }
    assert edits[..|edits|] == edits;
  }

  function Reverse(edits: seq<Edit>): (r: seq<Edit>)
    ensures |r| == |edits| && forall k | 0 <= k < |r| :: r[k] == edits[|edits| - 1 - k]
  {
    if edits == [] then [] else Reverse(edits[1..]) + [edits[0]]
  }

  /** The check on neighbours reaches every pair. */
  lemma {:induction false} NeighboursToPairs(u: seq<Edit>, n: nat, i: nat, j: nat)
    requires i < j < |u| && AllInRange(u, n)
    requires forall k | 0 <= k < |u| - 1 :: u[k + 1].end <= u[k].start
    ensures u[j].end <= u[i].start
  {
    if i + 1 < j {
      NeighboursToPairs(u, n, i, j - 1);
      assert InRange(u[j - 1], n) && u[(j - 1) + 1].end <= u[j - 1].start;
    }
  }

  /** The check on neighbours is the check on all pairs. */
  lemma AdjacentSuffices(u: seq<Edit>, n: nat)
    requires AllInRange(u, n)
    requires forall k | 0 <= k < |u| - 1 :: u[k + 1].end <= u[k].start
    ensures InOrder(Reverse(u)) && !Clash(u)
  {
    forall i, j | 0 <= i < j < |u| ensures u[j].end <= u[i].start {
      NeighboursToPairs(u, n, i, j);
    }
  }

  /** Two ascending listings of the same edits start with the same edit. */
  lemma OrderedListingHead(a: seq<Edit>, b: seq<Edit>, n: nat)
    requires InOrder(a) && InOrder(b) && AllInRange(a, n) && AllInRange(b, n)
    requires a != [] && forall e :: e in a <==> e in b
    ensures b != [] && a[0] == b[0]
  {
    assert a[0] in b && b[0] in a;
  }

  /** The other edits of an ascending listing are those different from its first. */
  lemma OrderedListingTail(a: seq<Edit>, n: nat)
    requires a != [] && InOrder(a) && AllInRange(a, n)
    ensures forall e :: e in a[1..] <==> e in a && e != a[0]
  {
    forall e | e in a && e != a[0] ensures e in a[1..] {
      assert a == [a[0]] + a[1..];
    }
  }

  lemma HasElement(a: seq<Edit>)
    requires a != []
    ensures exists e :: e in a
  {
    assert a[0] in a;
  }

  /** The ascending listing of a set of edits is unique, so the sort settles every tie. */
  lemma {:induction false} OrderedListingUnique(a: seq<Edit>, b: seq<Edit>, n: nat)
    requires InOrder(a) && InOrder(b) && AllInRange(a, n) && AllInRange(b, n)
    requires forall e :: e in a <==> e in b
    ensures a == b
    decreases |a|
  {
    if a == [] {
      if b != [] { HasElement(b); }
    } else {
      OrderedListingHead(a, b, n);
      OrderedListingTail(a, n);
      OrderedListingTail(b, n);
      OrderedListingUnique(a[1..], b[1..], n);
    }
  }

  /** Edits listed in order never clash. */
  lemma InOrderNoClash(a: seq<Edit>, edits: seq<Edit>, n: nat)
    requires InOrder(a) && AllInRange(a, n)
    requires forall e :: e in a <==> e in edits
    ensures !Clash(edits)
  {
    forall e, f | e in edits && f in edits && e != f ensures !Overlap(e, f) {
      var i :| 0 <= i < |a| && a[i] == e;
      var j :| 0 <= j < |a| && a[j] == f;
    }
  }

  /** The overlap check on neighbours of the sorted list. */
  method NeighboursOverlap(uniq: seq<Edit>, n: nat) returns (found: bool)
    requires Descending(uniq) && Distinct(uniq) && AllInRange(uniq, n)
    ensures found <==> Clash(uniq)
    ensures !found ==> InOrder(Reverse(uniq))
  {
    var i := 0;
    while i + 1 < |uniq|
      invariant 0 <= i
      invariant forall k | 0 <= k < i && k + 1 < |uniq| :: uniq[k + 1].end <= uniq[k].start
    {
      if uniq[i + 1].end > uniq[i].start {
        assert uniq[i] in uniq && uniq[i + 1] in uniq;
        assert Overlap(uniq[i], uniq[i + 1]);
        return true;
      }
      i := i + 1;
    }
    AdjacentSuffices(uniq, n);
    return false;
  }

  /** The splicing loop, right to left. */
  method SpliceDown(text: string, uniq: seq<Edit>) returns (out: string)
    requires AllInRange(uniq, |text|) && AllInRange(Reverse(uniq), |text|) && InOrder(Reverse(uniq))
    ensures out == Substitute(text, 0, Reverse(uniq))
  {
    ghost var all := Reverse(uniq);
    out := text;
    for i := 0 to |uniq|
      invariant AllInRange(all[|uniq| - i..], |text|) && InOrder(all[|uniq| - i..])
      invariant out == Substitute(text, 0, all[|uniq| - i..])
    {
      var e := uniq[i];
      ghost var later := all[|uniq| - i..];
      assert [e] + later == all[|uniq| - i - 1..];
      SpliceBefore(text, e, later);
      out := out[..e.start] + e.text + out[e.end..];
    }
    assert all[0..] == all;
  }

  /**
   * `apply_edits`: refuses exactly when two distinct edits overlap, and otherwise splices right to
   * left, which is the simultaneous substitution of the edits, each applied once.
   */
  method ApplyEdits(text: string, edits: seq<Edit>) returns (r: Outcome)
    requires AllInRange(edits, |text|)
    ensures r.Refused? <==> Clash(edits)
    ensures r.Rewritten? ==> exists order :: Order(order, edits, |text|)
    ensures forall order | Order(order, edits, |text|) :: r == Rewritten(Substitute(text, 0, order))
  {
    var uniq := SortedUnique(edits);
    assert AllInRange(uniq, |text|) by { assert forall k | 0 <= k < |uniq| :: uniq[k] in edits; }
    var clash := NeighboursOverlap(uniq, |text|);
    if clash {
      r := Refused;
      forall order | Order(order, edits, |text|) ensures false {
        InOrderNoClash(order, edits, |text|);
      }
    } else {
      ReverseSame(uniq);
      ghost var all := Reverse(uniq);
      var out := SpliceDown(text, uniq);
      r := Rewritten(out);
      assert Order(all, edits, |text|);
      forall order | Order(order, edits, |text|) ensures order == all {
        OrderedListingUnique(order, all, |text|);
      }
    }
  }

  lemma ReverseSame(u: seq<Edit>)
    ensures forall e :: e in Reverse(u) <==> e in u
  {
    forall e | e in u ensures e in Reverse(u) {
      var i :| 0 <= i < |u| && u[i] == e;
      assert Reverse(u)[|u| - 1 - i] == e;
    }
  }

  // ---- Declarations a rewrite kills ---------------------------------------------------------

  /** Text no edit overlaps survives the rewrite, wherever the other edits move it. */
  lemma {:induction false} UntouchedSurvives(text: string, p: nat, edits: seq<Edit>, at: nat, part: string)
    requires p <= |text| && AllInRange(edits, |text|) && InOrder(edits)
    requires edits != [] ==> p <= edits[0].start
    requires p <= at && part != [] && OccursAt(part, text, at)
    requires forall e | e in edits :: !(e.start < at + |part| && at < e.end)
    ensures Contains(part, Substitute(text, p, edits))
    decreases |edits|
  {
    var s := Substitute(text, p, edits);
    if edits == [] {
      assert s[at - p..at - p + |part|] == text[at..at + |part|];
      assert OccursAt(part, s, at - p);
    } else {
      var e := edits[0];
      assert e in edits;
      if at + |part| <= e.start {
        assert s[at - p..at - p + |part|] == text[at..at + |part|];
        assert OccursAt(part, s, at - p);
      } else {
        UntouchedSurvives(text, e.end, edits[1..], at, part);
        var rest := Substitute(text, e.end, edits[1..]);
        var front := text[p..e.start] + e.text;
        var j :| 0 <= j <= |rest| && OccursAt(part, rest, j);
        assert s == front + rest;
        assert s[|front| + j..|front| + j + |part|] == rest[j..j + |part|];
        assert OccursAt(part, s, |front| + j);
      }
    }
  }

  /** `text.find(part, from)`: the first occurrence at or after `from`. */
  method Find(part: string, text: string, from: nat) returns (at: int)
    ensures at == -1 || from <= at
    ensures at != -1 ==> OccursAt(part, text, at)
    ensures forall k | from <= k && (at == -1 || k < at) :: !OccursAt(part, text, k)
  {
    at := from;
    while at + |part| <= |text|
      invariant from <= at
      invariant forall k | from <= k < at :: !OccursAt(part, text, k)
      decreases |text| - at
    {
      if text[at..at + |part|] == part { return; }
      at := at + 1;
    }
    at := -1;
  }

  /** The first queued edit that touches `[at, end)`. */
  method FirstTouching(edits: seq<Edit>, at: nat, end: nat) returns (r: Option<Edit>)
    ensures r.Some? ==> r.value in edits && r.value.start < end && at < r.value.end
    ensures r.None? ==> forall e | e in edits :: !(e.start < end && at < e.end)
  {
    for i := 0 to |edits|
      invariant forall k | 0 <= k < i :: !(edits[k].start < end && at < edits[k].end)
    {
      if edits[i].start < end && at < edits[i].end { return Some(edits[i]); }
    }
    return None;
  }

  /** An edit that rewrites an occurrence of the declared spelling. */
  ghost predicate Remedy(e: Edit, edits: seq<Edit>, whole: string, text: string) {
    e in edits &&
    exists at | 0 <= at <= |text| :: OccursAt(whole, text, at) && e.start < at + |whole| && at < e.end
  }

  /** One warning: the declared spelling, and the edit that replaced it. */
  datatype Warning = Warning(whole: string, edit: Option<Edit>)

  /**
   * The body of `invalidated_reaims` for one declared spelling: no warning unless the rewrite
   * removed the spelling's last occurrence, and then a warning that always names an edit which
   * overlaps an occurrence.
   */
  method CheckDeclaration(whole: string, text: string, edits: seq<Edit>, rewritten: string)
    returns (w: Option<Warning>)
    requires AllInRange(edits, |text|)
    requires exists order :: Order(order, edits, |text|) && rewritten == Substitute(text, 0, order)
    ensures w.None? <==> !Contains(whole, text) || Contains(whole, rewritten)
    ensures w.Some? ==> w.value.whole == whole
    ensures w.Some? ==> w.value.edit.Some? && Remedy(w.value.edit.value, edits, whole, text)
  {
    var first := Find(whole, text, 0);
    var later := Find(whole, rewritten, 0);
    if first == -1 || later != -1 { return None; }
    assert OccursAt(whole, text, first) && Contains(whole, text);
    assert whole != [] by { assert whole == [] ==> OccursAt(whole, rewritten, 0); }
    var found: Option<Edit> := None;
    var at := first;
    while at != -1 && found.None?
      invariant at == -1 || (0 <= at && OccursAt(whole, text, at))
      invariant found.Some? ==> Remedy(found.value, edits, whole, text)
      invariant found.None? ==> forall k | 0 <= k && (at == -1 || k < at) && OccursAt(whole, text, k) ::
                  forall e | e in edits :: !(e.start < k + |whole| && k < e.end)
      decreases if at == -1 then 0 else 1 + |text| - at, found.None?
    {
      found := FirstTouching(edits, at, at + |whole|);
      var next := Find(whole, text, at + 1);
      at := next;
    }
    if found.None? {
      ghost var order :| Order(order, edits, |text|) && rewritten == Substitute(text, 0, order);
      UntouchedSurvives(text, 0, order, first, whole);
      assert false;
    }
    return Some(Warning(whole, found));
  }
}
