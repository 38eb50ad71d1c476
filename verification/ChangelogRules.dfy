/**
 * The heading and category rules of `scripts/check-docs.py` over a parsed changelog, and the
 * grammar they amount to.
 */
module ChangelogRules {
  import opened Versions
  import opened ChangelogParse

  datatype Complaint =
    | SecondUnreleased | UnreleasedNotFirst
    | ReconstructedTwice | ReconstructedOrder
    | NoCalendarDate | BelowReconstructed | NotNewestFirst
    | UnknownCategory | SecondCategory | CategoryOrder

  datatype Report = Report(line: nat, complaint: Complaint)

  // ---- Headings -----------------------------------------------------------------------------

  /** Entry `i` breaks no heading rule, given the entries above it. */
  predicate HeadingFine(entries: seq<Entry>, i: nat)
    requires i < |entries|
  {
    match entries[i].kind
    case Unreleased => i == 0
    case Reconstructed(rank) =>
      forall j | 0 <= j < i && entries[j].kind.Reconstructed? :: entries[j].kind.rank < rank
    case Release(v, date) =>
      && IsCalendarDate(date)
      && (forall j | 0 <= j < i :: !entries[j].kind.Reconstructed?)
      && (forall j | 0 <= j < i && entries[j].kind.Release? :: Older(v, entries[j].kind.version))
    case Malformed => true
  }

  predicate HeadingsFine(entries: seq<Entry>, n: nat)
    requires n <= |entries|
  {
    forall i | 0 <= i < n :: HeadingFine(entries, i)
  }

  /** The newest-first test looks at the previous release only; it is as good as looking at all. */
  lemma PreviousSuffices(entries: seq<Entry>, n: nat, previous: nat, v: Version)
    requires previous < n <= |entries| && HeadingsFine(entries, n)
    requires entries[previous].kind.Release?
    requires forall j | previous < j < n :: !entries[j].kind.Release?
    ensures Older(v, entries[previous].kind.version)
            <==> forall j | 0 <= j < n && entries[j].kind.Release? :: Older(v, entries[j].kind.version)
  {
    assert HeadingFine(entries, previous);
  }

  /** The loop of `check_changelog_headings` over the entries. */
  method CheckHeadings(entries: seq<Entry>) returns (findings: seq<Report>)
    ensures findings == [] <==> HeadingsFine(entries, |entries|)
  {
    findings := [];
    var previous := -1;
    var seenReconstructed := false;
    var unreleasedSeen := 0;
    var reconstructedSeen: seq<nat> := [];
    for i := 0 to |entries|
      invariant findings == [] <==> HeadingsFine(entries, i)
      invariant -1 <= previous < i
      invariant previous >= 0 ==> entries[previous].kind.Release?
      invariant forall j | previous < j < i :: !entries[j].kind.Release?
      invariant seenReconstructed <==> exists j :: 0 <= j < i && entries[j].kind.Reconstructed?
      invariant unreleasedSeen > 0 ==> i > 0
      invariant forall r :: r in reconstructedSeen <==>
                  exists j :: 0 <= j < i && entries[j].kind.Reconstructed? && entries[j].kind.rank == r
    {
      ghost var before := findings;
      var e := entries[i];
      match e.kind {
      case Unreleased =>
        unreleasedSeen := unreleasedSeen + 1;
        if unreleasedSeen > 1 {
          findings := findings + [Report(e.line, SecondUnreleased)];
        } else if i != 0 {
          findings := findings + [Report(e.line, UnreleasedNotFirst)];
        }
      case Reconstructed(rank) =>
        seenReconstructed := true;
        assert forall j | 0 <= j < i && entries[j].kind.Reconstructed? :: entries[j].kind.rank in reconstructedSeen;
        if rank in reconstructedSeen {
          findings := findings + [Report(e.line, ReconstructedTwice)];
        } else if exists r | r in reconstructedSeen :: rank < r {
          findings := findings + [Report(e.line, ReconstructedOrder)];
        }
        reconstructedSeen := reconstructedSeen + [rank];
      case Release(v, date) =>
        if !IsCalendarDate(date) {
          findings := findings + [Report(e.line, NoCalendarDate)];
        }
        if seenReconstructed {
          findings := findings + [Report(e.line, BelowReconstructed)];
        }
        if previous >= 0 && !Older(v, entries[previous].kind.version) {
          findings := findings + [Report(e.line, NotNewestFirst)];
        }
        if previous >= 0 && HeadingsFine(entries, i) { PreviousSuffices(entries, i, previous, v); }
        previous := i;
      case Malformed =>
      }
      assert findings == [] <==> before == [] && HeadingFine(entries, i);
    }
  }

  /**
   * The grammar of a changelog: at most a leading `[Unreleased]`, then releases newest first with
   * dates that exist, then reconstructed headings in their order, each once.
   */
  predicate Grammar(entries: seq<Entry>, a: nat, b: nat)
    requires a <= b <= |entries|
  {
    && a <= 1
    && (forall i | 0 <= i < a :: entries[i].kind.Unreleased?)
    && (forall i | a <= i < b :: entries[i].kind.Release? && IsCalendarDate(entries[i].kind.date))
    && (forall i, j | a <= i < j < b :: Older(entries[j].kind.version, entries[i].kind.version))
    && (forall i | b <= i < |entries| :: entries[i].kind.Reconstructed?)
    && (forall i, j | b <= i < j < |entries| :: entries[i].kind.rank < entries[j].kind.rank)
  }

  /** Where the releases of a list end. */
  function ReleasesEnd(entries: seq<Entry>, i: nat): (b: nat)
    requires i <= |entries|
    ensures i <= b <= |entries|
    ensures forall k | i <= k < b :: entries[k].kind.Release?
    ensures b < |entries| ==> !entries[b].kind.Release?
    decreases |entries| - i
  {
    if i == |entries| || !entries[i].kind.Release? then i else ReleasesEnd(entries, i + 1)
  }

  lemma FineIsGrammar(entries: seq<Entry>, a: nat, b: nat)
    requires WellFormed(entries) && HeadingsFine(entries, |entries|)
    requires a == (if entries != [] && entries[0].kind.Unreleased? then 1 else 0)
    requires b == ReleasesEnd(entries, a)
    ensures Grammar(entries, a, b)
  {
    forall i | a <= i < |entries| ensures !entries[i].kind.Unreleased? { assert HeadingFine(entries, i); }
    forall i | a <= i < b ensures IsCalendarDate(entries[i].kind.date) { assert HeadingFine(entries, i); }
    forall i, j | a <= i < j < b ensures Older(entries[j].kind.version, entries[i].kind.version) {
      assert HeadingFine(entries, j);
    }
    forall i | b <= i < |entries| ensures entries[i].kind.Reconstructed? { assert HeadingFine(entries, i); }
    forall i, j | b <= i < j < |entries| ensures entries[i].kind.rank < entries[j].kind.rank {
      assert HeadingFine(entries, j);
    }
  }

  /**
   * Without malformed entries the heading rules accept exactly the grammar, so acceptance means
   * all of it: position, order, uniqueness and dates.
   */
  lemma HeadingsAreGrammar(entries: seq<Entry>)
    requires WellFormed(entries)
    ensures HeadingsFine(entries, |entries|)
            <==> exists a, b | 0 <= a <= b <= |entries| :: Grammar(entries, a, b)
  {
    if HeadingsFine(entries, |entries|) {
      var a := if entries != [] && entries[0].kind.Unreleased? then 1 else 0;
      var b := ReleasesEnd(entries, a);
      FineIsGrammar(entries, a, b);
    }
    if a, b :| 0 <= a <= b <= |entries| && Grammar(entries, a, b) {
      forall i | 0 <= i < |entries| ensures HeadingFine(entries, i) {
        if i < a { } else if i < b { } else {
          assert forall j | 0 <= j < i && entries[j].kind.Reconstructed? :: j >= b;
        }
      }
    }
  }

  /**
   * Among releases with real dates the heading rules ask one thing: each raises the one below it, in its
   * patch, in its minor or in its major number.
   */
  lemma ReleasesRaise(entries: seq<Entry>)
    requires forall i | 0 <= i < |entries| :: entries[i].kind.Release? && IsCalendarDate(entries[i].kind.date)
    ensures HeadingsFine(entries, |entries|)
            <==> forall i | 0 < i < |entries| :: Raises(entries[i - 1].kind.version, entries[i].kind.version)
  {
    hide IsCalendarDate, Raises;
    forall i | 0 < i < |entries|
      ensures Raises(entries[i - 1].kind.version, entries[i].kind.version)
              <==> Older(entries[i].kind.version, entries[i - 1].kind.version)
    {
      OlderIsRaised(entries[i].kind.version, entries[i - 1].kind.version);
    }
    if HeadingsFine(entries, |entries|) {
      forall i | 0 < i < |entries| ensures Older(entries[i].kind.version, entries[i - 1].kind.version) {
        assert HeadingFine(entries, i);
      }
    } else {
      var i :| 0 <= i < |entries| && !HeadingFine(entries, i);
      var j :| 0 <= j < i && !Older(entries[i].kind.version, entries[j].kind.version);
      if forall k | 0 < k < |entries| :: Older(entries[k].kind.version, entries[k - 1].kind.version) {
        OlderDown(entries, j, i);
      }
    }
  }

  lemma {:induction false} OlderDown(entries: seq<Entry>, j: nat, i: nat)
    requires forall k | 0 <= k < |entries| :: entries[k].kind.Release?
    requires forall k | 0 < k < |entries| :: Older(entries[k].kind.version, entries[k - 1].kind.version)
    requires j < i < |entries|
    ensures Older(entries[i].kind.version, entries[j].kind.version)
  {
    if j + 1 < i { OlderDown(entries, j, i - 1); }
  }

  // ---- Categories ---------------------------------------------------------------------------

  /** `KAC_CATEGORIES.index(c)`, or the length for any other name. */
  function CategoryIndexFrom(c: string, i: nat): (r: nat)
    requires i <= |KAC_CATEGORIES|
    ensures i <= r <= |KAC_CATEGORIES|
    ensures r < |KAC_CATEGORIES| ==> KAC_CATEGORIES[r] == c
    ensures r == |KAC_CATEGORIES| ==> forall k | i <= k < |KAC_CATEGORIES| :: KAC_CATEGORIES[k] != c
    decreases |KAC_CATEGORIES| - i
  {
    if i == |KAC_CATEGORIES| || KAC_CATEGORIES[i] == c then i else CategoryIndexFrom(c, i + 1)
  }

  function CategoryIndex(c: string): nat { CategoryIndexFrom(c, 0) }

  predicate Known(c: string) { CategoryIndex(c) < |KAC_CATEGORIES| }

  /** The rules of one entry: the names are the six, once each, in the specification's order. */
  predicate CategoriesIncrease(cats: seq<(string, nat)>, n: nat)
    requires n <= |cats|
  {
    && (forall i | 0 <= i < n :: Known(cats[i].0))
    && (forall i, j | 0 <= i < j < n :: CategoryIndex(cats[i].0) < CategoryIndex(cats[j].0))
  }

  /** The inner loop of `check_changelog_categories`. */
  method CheckEntryCategories(cats: seq<(string, nat)>) returns (findings: seq<Report>)
    ensures findings == [] <==> CategoriesIncrease(cats, |cats|)
  {
    findings := [];
    for pos := 0 to |cats|
      invariant findings == [] <==> CategoriesIncrease(cats, pos)
    {
      hide CategoryIndex;
      var cat, line := cats[pos].0, cats[pos].1;
      if !Known(cat) {
        findings := findings + [Report(line, UnknownCategory)];
      } else if exists j | 0 <= j < pos :: cats[j].0 == cat {
        findings := findings + [Report(line, SecondCategory)];
      } else if exists j | 0 <= j < pos :: Known(cats[j].0) && CategoryIndex(cats[j].0) > CategoryIndex(cat) {
        findings := findings + [Report(line, CategoryOrder)];
      } else {
        forall j | 0 <= j < pos && Known(cats[j].0) ensures CategoryIndex(cats[j].0) != CategoryIndex(cat) {
          if CategoryIndex(cats[j].0) == CategoryIndex(cat) { SameIndex(cats[j].0, cat); }
        }
      }
    }
  }

  lemma SameIndex(c: string, d: string)
    requires Known(c) && CategoryIndex(c) == CategoryIndex(d)
    ensures c == d
  {
  }

  /** `check_changelog_categories` */
  method CheckCategories(entries: seq<Entry>) returns (findings: seq<Report>)
    ensures findings == [] <==>
            forall k | 0 <= k < |entries| :: CategoriesIncrease(entries[k].categories, |entries[k].categories|)
  {
    findings := [];
    for k := 0 to |entries|
      invariant findings == [] <==>
                forall j | 0 <= j < k :: CategoriesIncrease(entries[j].categories, |entries[j].categories|)
    {
      var more := CheckEntryCategories(entries[k].categories);
      findings := findings + more;
    }
  }

  /** The names stand in the list in this order, with others between them perhaps. */
  predicate Subsequence(names: seq<string>, list: seq<string>)
    decreases |list|
  {
    names == []
    || (list != []
        && if names[0] == list[0] then Subsequence(names[1..], list[1..]) else Subsequence(names, list[1..]))
  }

  function NamesOf(cats: seq<(string, nat)>): seq<string> { seq(|cats|, k requires 0 <= k < |cats| => cats[k].0) }

  lemma CategoryAt(c: string, i: nat)
    requires i < |KAC_CATEGORIES|
    ensures CategoryIndex(c) == i <==> c == KAC_CATEGORIES[i]
  {
    if c == KAC_CATEGORIES[i] {
      var k := CategoryIndex(c);
      assert KAC_CATEGORIES[k] == KAC_CATEGORIES[i];
      DifferentInitials();
    }
  }

  lemma DifferentInitials()
    ensures forall i, j | 0 <= i < j < |KAC_CATEGORIES| :: KAC_CATEGORIES[i] != KAC_CATEGORIES[j]
  {
    assert forall i, j | 0 <= i < j < |KAC_CATEGORIES| :: KAC_CATEGORIES[i][0] != KAC_CATEGORIES[j][0];
  }

  lemma IncreaseHead(cats: seq<(string, nat)>)
    requires cats != []
    ensures CategoriesIncrease(cats, |cats|)
            <==> Known(cats[0].0) && CategoriesIncrease(cats[1..], |cats[1..]|)
                 && forall k | 0 <= k < |cats[1..]| :: CategoryIndex(cats[0].0) < CategoryIndex(cats[1..][k].0)
  {
    hide CategoryIndex;
    var rest := cats[1..];
    assert forall k | 1 <= k < |cats| :: cats[k] == rest[k - 1];
    if CategoriesIncrease(cats, |cats|) {
      forall i | 0 <= i < |rest| ensures Known(rest[i].0) && CategoryIndex(cats[0].0) < CategoryIndex(rest[i].0) {
        assert Known(cats[i + 1].0) && rest[i] == cats[i + 1];
      }
      forall i, j | 0 <= i < j < |rest| ensures CategoryIndex(rest[i].0) < CategoryIndex(rest[j].0) {
        assert CategoryIndex(cats[i + 1].0) < CategoryIndex(cats[j + 1].0);
      }
    }
  }

  lemma {:induction false} SubsequenceFrom(cats: seq<(string, nat)>, i: nat)
    requires i <= |KAC_CATEGORIES|
    ensures Subsequence(NamesOf(cats), KAC_CATEGORIES[i..])
            <==> CategoriesIncrease(cats, |cats|) && forall k | 0 <= k < |cats| :: i <= CategoryIndex(cats[k].0)
    decreases |KAC_CATEGORIES| - i
  {
    hide CategoryIndex, CategoriesIncrease, KAC_CATEGORIES;
    if cats == [] {
      NoCategories();
    } else {
      IncreaseHead(cats);
      var names, rest := NamesOf(cats), cats[1..];
      assert forall k | 1 <= k < |cats| :: cats[k] == rest[k - 1];
      if i < |KAC_CATEGORIES| {
        CategoryAt(cats[0].0, i);
        assert KAC_CATEGORIES[i..][0] == KAC_CATEGORIES[i] && KAC_CATEGORIES[i..][1..] == KAC_CATEGORIES[i + 1..];
        assert names[1..] == NamesOf(rest);
        SubsequenceFrom(rest, i + 1);
        SubsequenceFrom(cats, i + 1);
      }
    }
  }

  lemma NoCategories()
    ensures CategoriesIncrease([], 0)
  {
  }

  /** The category rules accept exactly the subsequences of the specification's list. */
  lemma CategoriesAsListed(cats: seq<(string, nat)>)
    ensures CategoriesIncrease(cats, |cats|)
            <==> Subsequence(NamesOf(cats), ["Added", "Changed", "Deprecated", "Removed", "Fixed", "Security"])
  {
    SubsequenceFrom(cats, 0);
    assert KAC_CATEGORIES[0..] == ["Added", "Changed", "Deprecated", "Removed", "Fixed", "Security"];
  }

  // ---- From the file to the grammar ---------------------------------------------------------

  /**
   * A file the parser and the heading rules find nothing wrong with: the places where the release
   * pipeline cuts it are the headings of the grammar, one after the other.
   */
  lemma AcceptedFileFollowsGrammar(lines: seq<string>, skip: seq<bool>)
    requires |skip| == |lines|
    requires var p := ParseTo(lines, skip, |lines|);
             p.findings == [] && HeadingsFine(p.entries, |p.entries|)
    ensures var p := ParseTo(lines, skip, |lines|);
            && EntryLines(p.entries) == Boundaries(lines, skip, |lines|)
            && exists a, b | 0 <= a <= b <= |p.entries| :: Grammar(p.entries, a, b)
  {
    hide HeadingsFine, Grammar;
    var p := ParseTo(lines, skip, |lines|);
    ReadersAgree(lines, skip, |lines|);
    CategoriesInside(lines, skip, |lines|);
    HeadingsAreGrammar(p.entries);
  }
}
