/**
 * The gate of `scripts/check-clang-warnings.py`: distinct warning sites counted from a compiler log,
 * compared with the baseline, and turned into an exit code.
 */
module WarningGate {
  import opened Ascii
  import opened Baseline
  import opened UncleanKeys
  import opened Wrappers

  /** One matched diagnostic; `path` is absent when the file is not first-party. */
  datatype Diagnostic = Diagnostic(path: Option<string>, line: nat, col: nat, flag: string)

  datatype Site = Site(line: nat, col: nat)

  // ---- Counting -----------------------------------------------------------------------------

  predicate Hits(d: Diagnostic, key: Key) { d.path == Some(key.path) && d.flag == key.flag }

  /** The distinct places of `key`'s warning. */
  function SitesOf(log: seq<Diagnostic>, key: Key): set<Site> {
    set k | 0 <= k < |log| && Hits(log[k], key) :: Site(log[k].line, log[k].col)
  }

  predicate Reported(log: seq<Diagnostic>, key: Key) { exists k | 0 <= k < |log| :: Hits(log[k], key) }

  function Elsewhere(log: seq<Diagnostic>): nat {
    if log == [] then 0
    else Elsewhere(log[..|log| - 1]) + if log[|log| - 1].path.None? then 1 else 0
  }

  /** A count for each reported key, of its distinct sites, which `sites` lists once each. */
  ghost predicate Tallied(log: seq<Diagnostic>, counts: Counts, sites: map<Key, seq<Site>>) {
    sites.Keys == counts.Keys && forall key: Key :: TalliedAt(log, counts, sites, key)
  }

  ghost predicate TalliedAt(log: seq<Diagnostic>, counts: Counts, sites: map<Key, seq<Site>>, key: Key) {
    (key in counts <==> Reported(log, key))
    && (key in counts ==> counts[key] == |SitesOf(log, key)|)
    && (key in counts && key in sites ==> ListsOnce(sites[key], SitesOf(log, key)))
  }

  ghost predicate ListsOnce(list: seq<Site>, s: set<Site>) {
    (forall x :: x in s <==> x in list) && forall i, j | 0 <= i < j < |list| :: list[i] != list[j]
  }

  lemma SitesNext(log: seq<Diagnostic>, i: nat, key: Key)
    requires i < |log|
    ensures var d := log[i];
            SitesOf(log[..i + 1], key) == SitesOf(log[..i], key) + (if Hits(d, key) then {Site(d.line, d.col)} else {})
            && (Reported(log[..i + 1], key) <==> (Reported(log[..i], key) || Hits(d, key)))
  {
    hide Hits;
    var before, after := log[..i], log[..i + 1];
    assert forall k | 0 <= k < i :: after[k] == before[k];
    assert after[i] == log[i];
    if Reported(before, key) {
      var k :| 0 <= k < i && Hits(before[k], key);
      assert Hits(after[k], key);
    }
  }

  lemma Unreported(log: seq<Diagnostic>, key: Key)
    ensures SitesOf(log, key) == {} <==> !Reported(log, key)
  {
    hide Hits;
    forall k | 0 <= k < |log| && Hits(log[k], key) ensures SitesOf(log, key) != {} {
      assert Site(log[k].line, log[k].col) in SitesOf(log, key);
    }
  }

  lemma ListsOneMore(list: seq<Site>, s: set<Site>, x: Site)
    requires ListsOnce(list, s) && x !in s
    ensures ListsOnce(list + [x], s + {x})
  {
  }

  /** A diagnostic whose site was seen changes no tally. */
  lemma TallySeen(log: seq<Diagnostic>, i: nat, counts: Counts, sites: map<Key, seq<Site>>, key: Key)
    requires i < |log| && TalliedAt(log[..i], counts, sites, key)
    requires Hits(log[i], key) ==> Site(log[i].line, log[i].col) in SitesOf(log[..i], key)
    ensures TalliedAt(log[..i + 1], counts, sites, key)
  {
    hide Hits, ListsOnce;
    SitesNext(log, i, key);
    Unreported(log[..i], key);
    assert SitesOf(log[..i + 1], key) == SitesOf(log[..i], key);
  }

  /** A new site adds one to its key and nothing to any other. */
  lemma TallyNew(log: seq<Diagnostic>, i: nat, counts: Counts, sites: map<Key, seq<Site>>, at: Key, key: Key)
    requires i < |log| && TalliedAt(log[..i], counts, sites, key) && counts.Keys == sites.Keys
    requires Hits(log[i], at) && Site(log[i].line, log[i].col) !in SitesOf(log[..i], at)
    ensures TalliedAt(log[..i + 1], counts[at := (if at in counts then counts[at] else 0) + 1],
                      sites[at := (if at in sites then sites[at] else []) + [Site(log[i].line, log[i].col)]], key)
  {
    SitesNext(log, i, key);
    Unreported(log[..i], key);
    var s := Site(log[i].line, log[i].col);
    if key == at {
      ListsOneMore(if at in sites then sites[at] else [], SitesOf(log[..i], at), s);
    }
  }

  /** The positions of the diagnostics in files that are not first-party. */
  function ElsewhereAt(log: seq<Diagnostic>, n: nat): set<nat>
    requires n <= |log|
  {
    set k: nat | k < n && log[k].path.None?
  }

  lemma {:induction false} ElsewhereCounts(log: seq<Diagnostic>, n: nat)
    requires n <= |log|
    ensures Elsewhere(log[..n]) == |ElsewhereAt(log, n)|
  {
    if n > 0 {
      ElsewhereCounts(log, n - 1);
      assert log[..n][..n - 1] == log[..n - 1];
      assert ElsewhereAt(log, n) == ElsewhereAt(log, n - 1) + if log[n - 1].path.None? then {n - 1} else {};
    } else {
      assert ElsewhereAt(log, 0) == {};
    }
  }

  /** `scan`, over the diagnostics the log's lines match. */
  method Scan(log: seq<Diagnostic>) returns (counts: Counts, sites: map<Key, seq<Site>>, other: nat)
    ensures Tallied(log, counts, sites) && other == Elsewhere(log)
  {
    hide TalliedAt, SitesOf, Reported;
    var seen: set<(Key, Site)> := {};
    counts, sites, other := map[], map[], 0;
    NothingTallied(log);
    for i := 0 to |log|
      invariant Tallied(log[..i], counts, sites) && other == Elsewhere(log[..i])
      invariant forall key: Key, s: Site :: (key, s) in seen <==> s in SitesOf(log[..i], key)
    {
      var d := log[i];
      assert log[..i + 1][..i] == log[..i];
      ghost var after := log[..i + 1];
      forall key: Key
        ensures SitesOf(after, key) == SitesOf(log[..i], key) + (if Hits(d, key) then {Site(d.line, d.col)} else {})
      {
        SitesNext(log, i, key);
      }
      ghost var counts0, sites0 := counts, sites;
      if d.path.None? {
        other := other + 1;
        forall key: Key ensures TalliedAt(after, counts, sites, key) { TallySeen(log, i, counts, sites, key); }
      } else {
        var at, s := Key(d.path.value, d.flag), Site(d.line, d.col);
        if (at, s) !in seen {
          seen := seen + {(at, s)};
          counts := counts[at := (if at in counts then counts[at] else 0) + 1];
          sites := sites[at := (if at in sites then sites[at] else []) + [s]];
          forall key: Key ensures TalliedAt(after, counts, sites, key) {
            TallyNew(log, i, counts0, sites0, at, key);
          }
        } else {
          forall key: Key ensures TalliedAt(after, counts, sites, key) { TallySeen(log, i, counts, sites, key); }
        }
      }
    }
    assert log[..|log|] == log;
  }

  lemma NothingTallied(log: seq<Diagnostic>)
    ensures Tallied(log[..0], map[], map[])
    ensures forall key: Key :: SitesOf(log[..0], key) == {}
  {
  }

  // ---- What the counts depend on --------------------------------------------------------------

  /** The same diagnostics, in any order and however often repeated. */
  ghost predicate SameDiagnostics(log: seq<Diagnostic>, log': seq<Diagnostic>) {
    forall d :: d in log <==> d in log'
  }

  lemma {:induction false} SitesWithin(log: seq<Diagnostic>, log': seq<Diagnostic>, key: Key)
    requires forall d :: d in log ==> d in log'
    ensures SitesOf(log, key) <= SitesOf(log', key) && (Reported(log, key) ==> Reported(log', key))
  {
    hide Hits;
    forall k | 0 <= k < |log| && Hits(log[k], key)
      ensures Site(log[k].line, log[k].col) in SitesOf(log', key) && Reported(log', key)
    {
      assert log[k] in log';
      var j :| 0 <= j < |log'| && log'[j] == log[k];
      assert Hits(log'[j], key);
    }
  }

  /** Recompiling a header in another unit, or another build order, changes no count. */
  lemma CountsIgnoreOrder(log: seq<Diagnostic>, counts: Counts, sites: map<Key, seq<Site>>,
                          log': seq<Diagnostic>, counts': Counts, sites': map<Key, seq<Site>>)
    requires Tallied(log, counts, sites) && Tallied(log', counts', sites') && SameDiagnostics(log, log')
    ensures counts == counts'
  {
    hide SitesOf, Reported, ListsOnce;
    forall key: Key
      ensures (key in counts <==> key in counts') && (key in counts && key in counts' ==> counts[key] == counts'[key])
    {
      assert TalliedAt(log, counts, sites, key) && TalliedAt(log', counts', sites', key);
      SitesWithin(log, log', key);
      SitesWithin(log', log, key);
      assert SitesOf(log, key) == SitesOf(log', key);
    }
  }

  // ---- Comparing ----------------------------------------------------------------------------

  datatype Finding = Finding(key: Key, allowed: nat, count: nat)

  function Get(counts: Counts, key: Key): nat { if key in counts then counts[key] else 0 }

  /** No key is found twice. */
  ghost predicate KeysOnce(findings: seq<Finding>) {
    forall i, j | 0 <= i < j < |findings| :: findings[i].key != findings[j].key
  }

  predicate Regressed(f: Finding, counts: Counts, baseline: Counts) {
    f == Finding(f.key, Get(baseline, f.key), Get(counts, f.key)) && f.count > f.allowed
  }

  predicate Improved(f: Finding, counts: Counts, baseline: Counts) {
    f == Finding(f.key, Get(baseline, f.key), Get(counts, f.key)) && f.count < f.allowed
  }

  /** `compare_to_baseline`; the two lists are the sorted keys of the two maps. */
  method Compare(counts: Counts, order: seq<Key>, baseline: Counts, baseOrder: seq<Key>)
    returns (regressions: seq<Finding>, improvements: seq<Finding>)
    requires Orders(order, counts) && Orders(baseOrder, baseline)
    ensures (forall f :: f in regressions <==> Regressed(f, counts, baseline)) && KeysOnce(regressions)
    ensures (forall f :: f in improvements <==> Improved(f, counts, baseline)) && KeysOnce(improvements)
  {
    regressions, improvements := [], [];
    for i := 0 to |order|
      invariant KeysOnce(regressions)
      invariant forall f :: f in regressions <==> (f.key in order[..i] && Regressed(f, counts, baseline))
    {
      var key := order[i];
      assert key in order;
      assert order[..i + 1] == order[..i] + [key];
      assert key !in order[..i];
      assert forall k | 0 <= k < |regressions| :: regressions[k] in regressions;
      var allowed := Get(baseline, key);
      if counts[key] > allowed { regressions := regressions + [Finding(key, allowed, counts[key])]; }
    }
    for i := 0 to |baseOrder|
      invariant KeysOnce(improvements)
      invariant forall f :: f in improvements <==> (f.key in baseOrder[..i] && Improved(f, counts, baseline))
    {
      var key := baseOrder[i];
      assert key in baseOrder;
      assert baseOrder[..i + 1] == baseOrder[..i] + [key];
      assert key !in baseOrder[..i];
      assert forall k | 0 <= k < |improvements| :: improvements[k] in improvements;
      var count := Get(counts, key);
      if count < baseline[key] { improvements := improvements + [Finding(key, baseline[key], count)]; }
    }
    assert order[..|order|] == order && baseOrder[..|baseOrder|] == baseOrder;
  }

  /** A key is found worse iff more is counted than is allowed it, an unlisted key being allowed nothing. */
  lemma RegressedIff(counts: Counts, baseline: Counts, key: Key)
    requires key in counts
    ensures (exists f: Finding :: f.key == key && Regressed(f, counts, baseline))
            <==> (key !in baseline && counts[key] > 0) || (key in baseline && counts[key] > baseline[key])
  {
    if Get(counts, key) > Get(baseline, key) {
      assert Regressed(Finding(key, Get(baseline, key), Get(counts, key)), counts, baseline);
    }
  }

  /** A key is found better iff it is allowed more than is counted, an unreported key being counted nowhere. */
  lemma ImprovedIff(counts: Counts, baseline: Counts, key: Key)
    requires key in baseline
    ensures (exists f: Finding :: f.key == key && Improved(f, counts, baseline))
            <==> (key !in counts && 0 < baseline[key]) || (key in counts && counts[key] < baseline[key])
  {
    if Get(counts, key) < Get(baseline, key) {
      assert Improved(Finding(key, Get(baseline, key), Get(counts, key)), counts, baseline);
    }
  }

  /** What a finding says is what was counted and what is allowed. */
  lemma FindingNumbers(f: Finding, counts: Counts, baseline: Counts)
    requires Regressed(f, counts, baseline) || Improved(f, counts, baseline)
    ensures f.count == (if f.key in counts then counts[f.key] else 0)
    ensures f.allowed == (if f.key in baseline then baseline[f.key] else 0)
  {
  }

  // ---- The gate -----------------------------------------------------------------------------

  /** The keys in some order; the source sorts them. */
  method KeysOf(counts: Counts) returns (order: seq<Key>)
    ensures Orders(order, counts)
  {
    order := [];
    var left := counts.Keys;
    while left != {}
      invariant left <= counts.Keys
      invariant forall k :: k in counts.Keys - left <==> k in order
      invariant forall i, j | 0 <= i < j < |order| :: order[i] != order[j]
      decreases |left|
    {
      var k :| k in left;
      assert k !in order;
      left := left - {k};
      order := order + [k];
    }
  }

  /** The exit code of a checking run: 2 when the check itself could not run, a log it cannot read included. */
  method Gate(log: Option<seq<Diagnostic>>, file: Option<string>, major: Option<int>) returns (code: nat)
    ensures code == if log.None? then 2 else GateCode(log.value, file, major)
  {
    hide FileMeaning, Reported, SitesOf;
    if log.None? { return 2; }
    var counts, sites, _ := Scan(log.value);
    var r := ReadBaseline(file);
    if r.None? { return 2; }
    if major.Some? && r.value.major != major { return 2; }
    var order := KeysOf(counts);
    var baseOrder := KeysOf(r.value.counts);
    var regressions, improvements := Compare(counts, order, r.value.counts, baseOrder);
    GateVerdict(log.value, counts, sites, r.value.counts, regressions);
    return if regressions != [] then 1 else 0;
  }

  /** Some warning has more distinct sites than the baseline allows it. */
  ghost predicate Worse(log: seq<Diagnostic>, baseline: Counts) {
    exists key: Key :: |SitesOf(log, key)| > Get(baseline, key)
  }

  /** What the exit code means, in terms of the log and the file alone. */
  ghost function GateCode(log: seq<Diagnostic>, file: Option<string>, major: Option<int>): nat {
    var r := FileMeaning(file);
    if r.None? || (major.Some? && r.value.major != major) then 2
    else if Worse(log, r.value.counts) then 1
    else 0
  }

  /** The count of a tallied key is the number of its sites, reported or not. */
  lemma TallyIsSites(log: seq<Diagnostic>, counts: Counts, sites: map<Key, seq<Site>>, key: Key)
    requires Tallied(log, counts, sites)
    ensures Get(counts, key) == |SitesOf(log, key)|
  {
    hide SitesOf, Reported;
    assert TalliedAt(log, counts, sites, key);
    Unreported(log, key);
  }

  lemma GateVerdict(log: seq<Diagnostic>, counts: Counts, sites: map<Key, seq<Site>>, baseline: Counts,
                    regressions: seq<Finding>)
    requires Tallied(log, counts, sites)
    requires forall f :: f in regressions <==> Regressed(f, counts, baseline)
    ensures regressions != [] <==> Worse(log, baseline)
  {
    hide SitesOf, Tallied;
    if regressions != [] {
      var f := regressions[0];
      assert f in regressions;
      TallyIsSites(log, counts, sites, f.key);
    }
    if Worse(log, baseline) {
      var key: Key :| |SitesOf(log, key)| > Get(baseline, key);
      TallyIsSites(log, counts, sites, key);
      assert Finding(key, Get(baseline, key), Get(counts, key)) in regressions;
    }
  }

  /** The code for a log checked against the baseline written from these counts, with the same compiler. */
  ghost function CodeAgainst(log: seq<Diagnostic>, header: seq<string>, counts: Counts, order: seq<Key>, major: nat)
    : nat
    requires Orders(order, counts)
  {
    GateCode(log, Some(Unlines(WrittenLines(header, counts, order, major))), Some(major))
  }

  /**
   * A baseline written from one log and a check of another with the same compiler. With a flag that
   * hides the rest of its line, as `-W#warnings` does, the check cannot run, whatever the other log
   * holds. With clean keys it runs, and passes iff no warning has more distinct sites than it had.
   */
  lemma WrittenThenGated(header: seq<string>, log: seq<Diagnostic>, counts: Counts, sites: map<Key, seq<Site>>,
                         order: seq<Key>, major: nat, log': seq<Diagnostic>)
    requires Comments(header) && Tallied(log, counts, sites) && Orders(order, counts) && AllReportable(counts)
    ensures HidingFlag(counts) ==> CodeAgainst(log', header, counts, order, major) == 2
    ensures !HidingFlag(counts) ==> CodeAgainst(log', header, counts, order, major) != 2
    ensures AllClean(counts) ==>
              CodeAgainst(log', header, counts, order, major)
              == if exists key: Key :: |SitesOf(log', key)| > |SitesOf(log, key)| then 1 else 0
  {
    hide FileMeaning, Unlines, WrittenLines, SitesOf, Comments, AllClean, Tallied, AllReportable, HidingFlag;
    WrittenReadableIff(header, counts, order, major);
    RoundTrip(header, counts, order, major);
    forall key: Key ensures Get(counts, key) == |SitesOf(log, key)| { TallyIsSites(log, counts, sites, key); }
  }

  /** A reported key that no reading can yield has sites beyond what the baseline allows. */
  lemma UncleanFails(header: seq<string>, log: seq<Diagnostic>, counts: Counts, sites: map<Key, seq<Site>>,
                     order: seq<Key>, major: nat, log': seq<Diagnostic>)
    requires Comments(header) && Tallied(log, counts, sites) && Orders(order, counts) && AllReportable(counts)
    requires !AllClean(counts) && !HidingFlag(counts) && forall d :: d in log ==> d in log'
    ensures CodeAgainst(log', header, counts, order, major) == 1
  {
    hide Unlines, WrittenLines, SitesOf, Comments, Clean, AllReportable, HidingFlag, FileMeaning, Reported;
    WrittenReadableIff(header, counts, order, major);
    var key :| key in counts && !Clean(key);
    assert TalliedAt(log, counts, sites, key);
    SitesWithin(log, log', key);
    Unreported(log', key);
    SomeSite(SitesOf(log', key));
    var read := FileMeaning(Some(Unlines(WrittenLines(header, counts, order, major)))).value.counts;
    assert key !in read && Get(read, key) == 0;
    assert |SitesOf(log', key)| > Get(read, key);
  }

  lemma SomeSite(s: set<Site>)
    ensures s != {} ==> |s| > 0
  {
  }

  /**
   * A baseline checked against the very log it was written from: 2 iff some flag hides the rest of its line, 0 iff
   * every key can be read back, and otherwise 1, for warnings it has just recorded.
   */
  lemma OwnLogCode(header: seq<string>, log: seq<Diagnostic>, counts: Counts, sites: map<Key, seq<Site>>,
                   order: seq<Key>, major: nat)
    requires Comments(header) && Tallied(log, counts, sites) && Orders(order, counts) && AllReportable(counts)
    ensures CodeAgainst(log, header, counts, order, major)
            == if HidingFlag(counts) then 2 else if AllClean(counts) then 0 else 1
  {
    hide CodeAgainst, SitesOf, Comments, Tallied, AllClean, AllReportable, HidingFlag;
    WrittenThenGated(header, log, counts, sites, order, major, log);
    if !HidingFlag(counts) && !AllClean(counts) { UncleanFails(header, log, counts, sites, order, major, log); }
  }

  lemma Subset(a: set<Site>, b: set<Site>)
    requires a <= b
    ensures |a| <= |b| && (a != b ==> |a| < |b|)
  {
    assert b == a + (b - a);
  }

  /** A log whose diagnostics all stood when the baseline was written passes, if the check can run. */
  lemma NothingNewPasses(header: seq<string>, log: seq<Diagnostic>, counts: Counts, sites: map<Key, seq<Site>>,
                         order: seq<Key>, major: nat, log': seq<Diagnostic>)
    requires Comments(header) && Tallied(log, counts, sites) && Orders(order, counts) && AllReportable(counts)
    requires forall d :: d in log' ==> d in log
    ensures HidingFlag(counts) ==> CodeAgainst(log', header, counts, order, major) == 2
    ensures AllClean(counts) ==> CodeAgainst(log', header, counts, order, major) == 0
  {
    hide CodeAgainst, SitesOf, Comments, Tallied, AllClean, AllReportable, HidingFlag;
    WrittenThenGated(header, log, counts, sites, order, major, log');
    forall key: Key ensures |SitesOf(log', key)| <= |SitesOf(log, key)| {
      SitesWithin(log', log, key);
      Subset(SitesOf(log', key), SitesOf(log, key));
    }
  }

  /** A first-party diagnostic at a new site, on top of all the old ones, never passes. */
  lemma NewSiteFails(header: seq<string>, log: seq<Diagnostic>, counts: Counts, sites: map<Key, seq<Site>>,
                     order: seq<Key>, major: nat, log': seq<Diagnostic>, key: Key, s: Site)
    requires Comments(header) && Tallied(log, counts, sites) && Orders(order, counts) && AllReportable(counts)
    requires (forall d :: d in log ==> d in log') && s in SitesOf(log', key) && s !in SitesOf(log, key)
    ensures CodeAgainst(log', header, counts, order, major) == if HidingFlag(counts) then 2 else 1
  {
    hide CodeAgainst, SitesOf, Comments, Tallied, AllClean, AllReportable, HidingFlag;
    WrittenThenGated(header, log, counts, sites, order, major, log');
    SitesWithin(log, log', key);
    Subset(SitesOf(log, key), SitesOf(log', key));
    if !HidingFlag(counts) && !AllClean(counts) { UncleanFails(header, log, counts, sites, order, major, log'); }
  }

  // ---- A warning the gate cannot record -----------------------------------------------------------

  /** What Clang says of a `#warning` directive. */
  const HASH_WARNING := Diagnostic(Some("src/gui/Panel.cpp"), 12, 2, "-W#warnings")

  const HASH_KEY := Key("src/gui/Panel.cpp", "-W#warnings")

  lemma HashFlagHides()
    ensures Hides("-W#warnings")
  {
    hide IsSpace;
    var flag := "-W#warnings";
    LettersNotSpace();
    RunLengthUnique(flag, NotHash, 2);
    assert flag[2] == '#' && Bare(flag) == "-W" && RStrip("-W") == "-W";
  }

  lemma LettersNotSpace()
    ensures !IsSpace('-') && !IsSpace('W')
  {
  }

  lemma HashKeyReportable()
    ensures Reportable(HASH_KEY)
  {
    assert "-W#warnings"[0] == '-' && "src/gui/Panel.cpp"[0] == 's';
    assert forall c | c in "-W#warnings" || c in "src/gui/Panel.cpp" :: InLine(c);
  }

  lemma HashTallied()
    ensures Tallied([HASH_WARNING], map[HASH_KEY := 1], map[HASH_KEY := [Site(12, 2)]])
  {
    hide ListsOnce;
    var log, at := [HASH_WARNING], Site(12, 2);
    assert Hits(log[0], HASH_KEY);
    forall key: Key ensures SitesOf(log, key) == if key == HASH_KEY then {at} else {} {
      assert Hits(log[0], key) <==> key == HASH_KEY;
    }
    NothingListed();
    ListsOneMore([], {}, at);
    assert [] + [at] == [at] && {} + {at} == {at};
  }

  lemma NothingListed()
    ensures ListsOnce([], {})
  {
  }

  /** A log with one `#warning`: the baseline written from it makes the gate exit 2 for this very log. */
  lemma HashWarningStopsTheGate(header: seq<string>, major: nat)
    requires Comments(header)
    ensures Tallied([HASH_WARNING], map[HASH_KEY := 1], map[HASH_KEY := [Site(12, 2)]])
    ensures Orders([HASH_KEY], map[HASH_KEY := 1])
    ensures CodeAgainst([HASH_WARNING], header, map[HASH_KEY := 1], [HASH_KEY], major) == 2
  {
    hide CodeAgainst, Tallied, Comments, Hides, Reportable;
    HashFlagHides();
    HashKeyReportable();
    HashTallied();
    assert HASH_KEY in map[HASH_KEY := 1];
    OwnLogCode(header, [HASH_WARNING], map[HASH_KEY := 1], map[HASH_KEY := [Site(12, 2)]], [HASH_KEY], major);
  }
}
