/** `check_changelog_links` of `scripts/check-docs.py`, and the chain of links it accepts. */
module ReleaseLinks {
  import opened Ascii
  import opened Wrappers
  import opened Versions
  import opened Headings
  import opened ChangelogParse
  import opened ChangelogRules

  const REPO_URL := "https://github.com/skyRolly/Anamorph"

  function TagPage(v: Version): string { REPO_URL + "/releases/tag/" + Name(v) }

  function Compare(base: Version, to: string): string { REPO_URL + "/compare/" + Name(base) + "..." + to }

  /** The part of `TagState` the verdict depends on. */
  datatype TagRead = TagRead(known: bool, tags: set<string>, present: set<string>)

  // ---- Releases -----------------------------------------------------------------------------

  predicate AtLeast(v: Version, first: Version) { !Older(v, first) }

  /** The release tags of a line: the bare versions at or above its first tag. */
  predicate IsRelease(tags: set<string>, first: Version, v: Version) { Name(v) in tags && AtLeast(v, first) }

  predicate Ascending(rs: seq<Version>) { forall i, j | 0 <= i < j < |rs| :: Older(rs[i], rs[j]) }

  /** `releases`: oldest first; empty when the tags cannot be read. */
  ghost predicate ListsReleases(rs: seq<Version>, tags: TagRead, first: Version) {
    Ascending(rs) && forall v :: v in rs <==> tags.known && IsRelease(tags.tags, first, v)
  }

  method InsertRelease(rs: seq<Version>, v: Version) returns (r: seq<Version>)
    requires Ascending(rs) && v !in rs
    ensures Ascending(r) && forall w :: w in r <==> w in rs || w == v
  {
    var i := 0;
    while i < |rs| && Older(rs[i], v)
      invariant 0 <= i <= |rs| && forall k | 0 <= k < i :: Older(rs[k], v)
    {
      i := i + 1;
    }
    forall k | i <= k < |rs| ensures Older(v, rs[k]) {
      assert rs[k] in rs && rs[i] in rs && (i < k ==> Older(rs[i], rs[k]));
    }
    r := rs[..i] + [v] + rs[i..];
    InsertAscends(rs, v, i);
  }

  lemma InsertAscends(rs: seq<Version>, v: Version, i: nat)
    requires Ascending(rs) && i <= |rs|
    requires forall k | 0 <= k < i :: Older(rs[k], v)
    requires forall k | i <= k < |rs| :: Older(v, rs[k])
    ensures var r := rs[..i] + [v] + rs[i..];
            Ascending(r) && forall w :: w in r <==> w in rs || w == v
  {
    hide Older;
    var r := rs[..i] + [v] + rs[i..];
    assert rs == rs[..i] + rs[i..];
    forall j, k | 0 <= j < k < |r| ensures Older(r[j], r[k]) {
      assert r[j] == if j < i then rs[j] else if j == i then v else rs[j - 1];
      assert r[k] == if k < i then rs[k] else if k == i then v else rs[k - 1];
    }
  }

  method SortReleases(tags: TagRead, first: Version) returns (rs: seq<Version>)
    ensures ListsReleases(rs, tags, first)
  {
    rs := [];
    if !tags.known { return; }
    var left := tags.tags;
    while left != {}
      invariant left <= tags.tags && Ascending(rs)
      invariant forall v :: v in rs <==> IsRelease(tags.tags - left, first, v)
      decreases |left|
    {
      var t :| t in left;
      ghost var done := tags.tags - left;
      left := left - {t};
      assert tags.tags - left == done + {t};
      var v := ParseVersion(t);
      if v.Some? {
        NameParsed(t);
        forall w | Name(w) == t ensures w == v.value { ParseName(w); }
        if AtLeast(v.value, first) { rs := InsertRelease(rs, v.value); }
      } else {
        forall w ensures Name(w) != t { ParseName(w); }
      }
    }
    assert tags.tags - {} == tags.tags;
  }

  /** The newest release older than `v`. */
  function NewestBelow(rs: seq<Version>, v: Version): (r: Option<Version>)
    ensures r.Some? ==> r.value in rs && Older(r.value, v)
  {
    if rs == [] then None
    else
      var last := rs[|rs| - 1];
      if Older(last, v) then Some(last) else NewestBelow(rs[..|rs| - 1], v)
  }

  // ---- The entries --------------------------------------------------------------------------

  predicate HasUnreleased(entries: seq<Entry>) { exists k | 0 <= k < |entries| :: entries[k].kind.Unreleased? }

  predicate HasVersion(entries: seq<Entry>, v: Version) {
    exists k | 0 <= k < |entries| :: entries[k].kind.Release? && entries[k].kind.version == v
  }

  function FirstVersion(entries: seq<Entry>): (r: Option<Version>)
    ensures r.Some? ==> HasVersion(entries, r.value)
  {
    if entries == [] then None
    else if entries[0].kind.Release? then Some(entries[0].kind.version)
    else
      var r := FirstVersion(entries[1..]);
      assert r.Some? ==> exists k | 0 <= k < |entries[1..]| ::
          entries[1..][k] == entries[k + 1] && entries[k + 1].kind.Release? && entries[k + 1].kind.version == r.value;
      r
  }

  /** The release in preparation: the newest entry, while no `[Unreleased]` section sits above it. */
  function InPrep(entries: seq<Entry>): Option<Version> {
    if HasUnreleased(entries) then None else FirstVersion(entries)
  }

  /** Some malformed heading names the version. */
  predicate Claimed(entries: seq<Entry>, key: string) {
    exists k | 0 <= k < |entries| :: entries[k].kind.Malformed? && FindSemver(entries[k].text, 0) == Some(key)
  }

  // ---- The definitions ----------------------------------------------------------------------

  const UNRELEASED := "unreleased"

  /** The key a label defines: a dotted triple of digits, or `unreleased` in any case. */
  function Key(name: string): Option<string> {
    if TripleEnd(name) == Some(|name|) then Some(name)
    else if EqualsIgnoringCase(name, UNRELEASED) then Some(UNRELEASED)
    else None
  }

  /** `defined`: each key with the destination of its last definition. */
  function Defined(defs: seq<Definition>): map<string, string> {
    if defs == [] then map[]
    else
      var n := |defs| - 1;
      match Key(defs[n].name)
      case None => Defined(defs[..n])
      case Some(key) => Defined(defs[..n])[key := defs[n].url]
  }

  /** No key is defined twice. */
  predicate Unrepeated(defs: seq<Definition>) {
    forall i, j | 0 <= i < j < |defs| && Key(defs[i].name).Some? :: Key(defs[i].name) != Key(defs[j].name)
  }

  lemma {:induction false} DefinedKeys(defs: seq<Definition>, key: string)
    ensures key in Defined(defs) <==> exists i :: 0 <= i < |defs| && Key(defs[i].name) == Some(key)
  {
    hide Key;
    if defs != [] {
      var n := |defs| - 1;
      DefinedKeys(defs[..n], key);
      if i :| 0 <= i < n && Key(defs[..n][i].name) == Some(key) { assert Key(defs[i].name) == Some(key); }
      if i :| 0 <= i < n && Key(defs[i].name) == Some(key) { assert Key(defs[..n][i].name) == Some(key); }
    }
  }

  /** Where a definition of `v` must lead. */
  function Want(rs: seq<Version>, first: Version, v: Version): Option<string> {
    if v == first then Some(TagPage(v))
    else
      match NewestBelow(rs, v)
      case None => None
      case Some(base) => Some(Compare(base, Name(v)))
  }

  /** A version that carries a definition: tagged on the line, or in preparation. */
  predicate Linked(entries: seq<Entry>, rs: seq<Version>, v: Version) { InPrep(entries) == Some(v) || v in rs }

  /** A definition draws no finding. */
  predicate DefinitionFine(entries: seq<Entry>, rs: seq<Version>, first: Version, key: string, url: string) {
    if key == UNRELEASED then
      HasUnreleased(entries) && (rs != [] ==> url == Compare(rs[|rs| - 1], "HEAD"))
    else
      match ParseVersion(key)
      case None => Claimed(entries, key)
      case Some(v) =>
        if !HasVersion(entries, v) then Claimed(entries, key)
        else AtLeast(v, first) && Linked(entries, rs, v) && Want(rs, first, v) == Some(url)
  }

  /** A past version at or above the first tag. */
  predicate HasPast(entries: seq<Entry>, first: Version) {
    exists k | 0 <= k < |entries| ::
      entries[k].kind.Release? && InPrep(entries) != Some(entries[k].kind.version)
      && AtLeast(entries[k].kind.version, first)
  }

  /** A release-shaped tag newer than anything the file records. */
  predicate HasNewer(entries: seq<Entry>, present: set<string>, first: Version) {
    exists t | t in present ::
      ParseVersion(t).Some? && AtLeast(ParseVersion(t).value, first)
      && (InPrep(entries).Some? ==> Older(InPrep(entries).value, ParseVersion(t).value))
  }

  /** The file can be judged with the tags as they were read. */
  predicate Verifiable(entries: seq<Entry>, defined: map<string, string>, tags: TagRead, first: Version) {
    tags.known
    || !(HasUnreleased(entries) || UNRELEASED in defined || HasPast(entries, first)
         || HasNewer(entries, tags.present, first))
  }

  /** A version that must have a definition and has none. */
  predicate Unlinked(entries: seq<Entry>, rs: seq<Version>, first: Version, defined: map<string, string>, k: nat)
    requires k < |entries|
  {
    entries[k].kind.Release? &&
    var v := entries[k].kind.version;
    AtLeast(v, first) && Linked(entries, rs, v) && Name(v) !in defined
  }

  /** Every rule of the link check. */
  predicate LinksFine(entries: seq<Entry>, defs: seq<Definition>, rs: seq<Version>, tags: TagRead, first: Version) {
    var defined := Defined(defs);
    && Unrepeated(defs)
    && Verifiable(entries, defined, tags, first)
    && (forall k | 0 <= k < |rs| :: HasVersion(entries, rs[k]) || Claimed(entries, Name(rs[k])))
    && (forall key | key in defined :: DefinitionFine(entries, rs, first, key, defined[key]))
    && (forall k | 0 <= k < |entries| :: !Unlinked(entries, rs, first, defined, k))
    && (HasUnreleased(entries) ==> rs != [] && UNRELEASED in defined)
  }

  datatype Problem =
    | DefinedTwice | TagsUnread | NoEntryForTag | NoUnreleasedEntry | UnreleasedBase | NoSuchEntry | PredatesLine
    | Untagged | NoBase | WrongLink | NoDefinition | UnreleasedUntagged | UnreleasedUndefined

  datatype LinkFinding = LinkFinding(key: string, problem: Problem)

  /** The definitions, in order, with the keys defined again reported. */
  method ReadDefinitions(defs: seq<Definition>)
    returns (defined: map<string, string>, keys: seq<string>, findings: seq<LinkFinding>)
    ensures defined == Defined(defs)
    ensures forall key :: key in keys <==> key in defined
    ensures findings == [] <==> Unrepeated(defs)
  {
    defined, keys, findings := map[], [], [];
    hide Key, Unrepeated;
    UnrepeatedStart(defs);
    for i := 0 to |defs|
      invariant defined == Defined(defs[..i])
      invariant forall key :: key in keys <==> key in defined
      invariant findings == [] <==> Unrepeated(defs[..i])
    {
      assert defs[..i + 1][..i] == defs[..i];
      UnrepeatedStep(defs, i);
      var key := Key(defs[i].name);
      if key.Some? {
        if key.value in defined {
          findings := findings + [LinkFinding(key.value, DefinedTwice)];
        } else {
          keys := keys + [key.value];
        }
        defined := defined[key.value := defs[i].url];
      }
    }
    assert defs[..|defs|] == defs;
  }

  lemma UnrepeatedStart(defs: seq<Definition>)
    ensures Unrepeated(defs[..0])
  {
  }

  /** One more definition repeats a key exactly when the key is defined already. */
  lemma UnrepeatedStep(defs: seq<Definition>, n: nat)
    requires n < |defs|
    ensures var key := Key(defs[n].name);
            Unrepeated(defs[..n + 1]) <==> Unrepeated(defs[..n]) && (key.Some? ==> key.value !in Defined(defs[..n]))
  {
    hide Key;
    var key, front, more := Key(defs[n].name), defs[..n], defs[..n + 1];
    assert forall i | 0 <= i < n :: front[i] == more[i] == defs[i];
    if key.Some? {
      DefinedKeys(front, key.value);
      if i :| 0 <= i < |front| && Key(front[i].name) == key { assert Key(more[i].name) == Key(more[n].name); }
    }
    if Unrepeated(more) {
      forall i, j | 0 <= i < j < |front| && Key(front[i].name).Some?
        ensures Key(front[i].name) != Key(front[j].name)
      {
        assert Key(more[i].name) != Key(more[j].name);
      }
    }
  }

  /** The body of the loop over the definitions. */
  method CheckDefinition(entries: seq<Entry>, rs: seq<Version>, first: Version, verifiable: bool, key: string,
                         url: string)
    returns (findings: seq<LinkFinding>)
    ensures verifiable ==> (findings == [] <==> DefinitionFine(entries, rs, first, key, url))
  {
    hide Name, ParseVersion, Claimed, HasVersion, HasUnreleased, InPrep, TagPage, Compare, NewestBelow;
    if key == UNRELEASED {
      if !HasUnreleased(entries) { return [LinkFinding(key, NoUnreleasedEntry)]; }
      if verifiable && rs != [] && url != Compare(rs[|rs| - 1], "HEAD") { return [LinkFinding(key, UnreleasedBase)]; }
      return [];
    }
    var v := ParseVersion(key);
    if v.None? || !HasVersion(entries, v.value) {
      return if Claimed(entries, key) then [] else [LinkFinding(key, NoSuchEntry)];
    }
    NameParsed(key);
    if Older(v.value, first) { return [LinkFinding(key, PredatesLine)]; }
    if !verifiable { return []; }
    if InPrep(entries) != Some(v.value) && v.value !in rs { return [LinkFinding(key, Untagged)]; }
    if v.value == first {
      return if url == TagPage(v.value) then [] else [LinkFinding(key, WrongLink)];
    }
    var base := NewestBelow(rs, v.value);
    if base.None? { return [LinkFinding(key, NoBase)]; }
    return if url == Compare(base.value, key) then [] else [LinkFinding(key, WrongLink)];
  }

  /** The check once the releases are sorted. */
  method CheckAgainst(entries: seq<Entry>, defs: seq<Definition>, tags: TagRead, first: Version, rs: seq<Version>)
    returns (findings: seq<LinkFinding>)
    requires ListsReleases(rs, tags, first)
    ensures findings == [] <==> LinksFine(entries, defs, rs, tags, first)
  {
    hide Key, DefinitionFine, Unlinked, ListsReleases, Unrepeated, HasUnreleased, HasVersion, Claimed, Verifiable;
    var defined, keys, repeated := ReadDefinitions(defs);
    findings := repeated;
    var verifiable := Verifiable(entries, defined, tags, first);
    if !verifiable { findings := findings + [LinkFinding("", TagsUnread)]; }
    var i := |rs|;
    while i > 0
      invariant 0 <= i <= |rs|
      invariant findings == [] <==>
                (Unrepeated(defs) && verifiable
                 && forall k | i <= k < |rs| :: HasVersion(entries, rs[k]) || Claimed(entries, Name(rs[k])))
    {
      i := i - 1;
      if !HasVersion(entries, rs[i]) && !Claimed(entries, Name(rs[i])) {
        findings := findings + [LinkFinding(Name(rs[i]), NoEntryForTag)];
      }
    }
    ghost var tagsRecorded := forall k | 0 <= k < |rs| :: HasVersion(entries, rs[k]) || Claimed(entries, Name(rs[k]));
    for j := 0 to |keys|
      invariant findings == [] <==>
                (Unrepeated(defs) && verifiable && tagsRecorded
                 && forall k | 0 <= k < j :: DefinitionFine(entries, rs, first, keys[k], defined[keys[k]]))
    {
      var more := CheckDefinition(entries, rs, first, verifiable, keys[j], defined[keys[j]]);
      findings := findings + more;
    }
    assert (forall k | 0 <= k < |keys| :: DefinitionFine(entries, rs, first, keys[k], defined[keys[k]]))
      <==> forall key | key in defined :: DefinitionFine(entries, rs, first, key, defined[key]);
    if !verifiable { return; }
    ghost var definitionsFine := forall key | key in defined :: DefinitionFine(entries, rs, first, key, defined[key]);
    for j := 0 to |entries|
      invariant findings == [] <==>
                (Unrepeated(defs) && tagsRecorded && definitionsFine
                 && forall k | 0 <= k < j :: !Unlinked(entries, rs, first, defined, k))
    {
      if Unlinked(entries, rs, first, defined, j) {
        findings := findings + [LinkFinding("", NoDefinition)];
      }
    }
    if HasUnreleased(entries) {
      if rs == [] {
        findings := findings + [LinkFinding(UNRELEASED, UnreleasedUntagged)];
      } else if UNRELEASED !in defined {
        findings := findings + [LinkFinding(UNRELEASED, UnreleasedUndefined)];
      }
    }
  }

  /** Ascending lists of the same versions start with the same one. */
  lemma AscendingHead(a: seq<Version>, b: seq<Version>)
    requires Ascending(a) && Ascending(b) && a != [] && forall v :: v in a <==> v in b
    ensures b != [] && a[0] == b[0]
  {
    assert a[0] in a && a[0] in b;
    assert b[0] in b && b[0] in a;
  }

  lemma AscendingTail(a: seq<Version>)
    requires Ascending(a) && a != []
    ensures Ascending(a[1..]) && forall v :: v in a[1..] <==> v in a && v != a[0]
  {
    assert a == [a[0]] + a[1..];
    assert forall k | 1 <= k < |a| :: Older(a[0], a[k]);
  }

  lemma SomeVersion(a: seq<Version>)
    requires a != []
    ensures exists v :: v in a
  {
    assert a[0] in a;
  }

  /** The releases have one ascending list. */
  lemma {:induction false} AscendingUnique(a: seq<Version>, b: seq<Version>)
    requires Ascending(a) && Ascending(b) && forall v :: v in a <==> v in b
    ensures a == b
  {
    hide Ascending;
    if a == [] {
      if b != [] { SomeVersion(b); }
    } else {
      AscendingHead(a, b);
      AscendingTail(a);
      AscendingTail(b);
      AscendingUnique(a[1..], b[1..]);
      assert a == [a[0]] + a[1..] && b == [b[0]] + b[1..];
    }
  }

  /** `check_changelog_links` */
  method CheckLinks(entries: seq<Entry>, defs: seq<Definition>, tags: TagRead, first: Version)
    returns (findings: seq<LinkFinding>)
    ensures exists rs :: ListsReleases(rs, tags, first)
    ensures forall rs | ListsReleases(rs, tags, first) :: findings == [] <==> LinksFine(entries, defs, rs, tags, first)
  {
    var rs := SortReleases(tags, first);
    findings := CheckAgainst(entries, defs, tags, first, rs);
    forall rs' | ListsReleases(rs', tags, first) ensures rs' == rs { AscendingUnique(rs', rs); }
  }

  // ---- The chain of releases ----------------------------------------------------------------

  /** Each release links to its comparison with the one before it, and the first to its tag page. */
  predicate Chained(entries: seq<Entry>, defined: map<string, string>, rs: seq<Version>, first: Version) {
    && (rs != [] ==> rs[0] == first)
    && forall i | 0 <= i < |rs| :: ChainedAt(entries, defined, rs, first, i)
  }

  /** The `i`-th release has its entry, and its link. */
  predicate ChainedAt(entries: seq<Entry>, defined: map<string, string>, rs: seq<Version>, first: Version, i: nat)
    requires i < |rs|
  {
    && HasVersion(entries, rs[i])
    && Name(rs[i]) in defined
    && defined[Name(rs[i])] == if i == 0 then TagPage(first) else Compare(rs[i - 1], Name(rs[i]))
  }

  /** `[Unreleased]` stands only on a release, and compares the newest one with HEAD. */
  predicate UnreleasedChained(entries: seq<Entry>, defined: map<string, string>, rs: seq<Version>) {
    && (UNRELEASED in defined ==> HasUnreleased(entries))
    && (HasUnreleased(entries) ==>
          rs != [] && UNRELEASED in defined && defined[UNRELEASED] == Compare(rs[|rs| - 1], "HEAD"))
  }

  /** The release in preparation extends the chain, and below the first tag it has no link. */
  predicate PrepChained(entries: seq<Entry>, defined: map<string, string>, rs: seq<Version>, first: Version) {
    InPrep(entries).Some? && InPrep(entries).value !in rs && AtLeast(InPrep(entries).value, first) ==>
      var v := InPrep(entries).value;
      && Name(v) in defined
      && (rs == [] ==> v == first)
      && defined[Name(v)] == if rs == [] then TagPage(v) else Compare(rs[|rs| - 1], Name(v))
  }

  /** Nothing else is defined: every version key names a release or the release in preparation. */
  predicate NothingElseDefined(entries: seq<Entry>, defined: map<string, string>, rs: seq<Version>, first: Version) {
    forall key | key in defined && key != UNRELEASED ::
      ParseVersion(key).Some? &&
      var v := ParseVersion(key).value;
      HasVersion(entries, v) && AtLeast(v, first) && Linked(entries, rs, v)
  }

  /** The exact release chain, stated without the check. */
  predicate ReleaseChain(entries: seq<Entry>, defs: seq<Definition>, rs: seq<Version>, first: Version) {
    var defined := Defined(defs);
    && Unrepeated(defs)
    && Chained(entries, defined, rs, first)
    && UnreleasedChained(entries, defined, rs)
    && PrepChained(entries, defined, rs, first)
    && NothingElseDefined(entries, defined, rs, first)
  }

  /** The release before the `i`-th is the one before it in the list. */
  lemma {:induction false} NewestBelowRelease(rs: seq<Version>, i: nat)
    requires Ascending(rs) && i < |rs|
    ensures NewestBelow(rs, rs[i]) == if i == 0 then None else Some(rs[i - 1])
  {
    var n := |rs| - 1;
    if i < n {
      assert Older(rs[i], rs[n]);
      NewestBelowRelease(rs[..n], i);
    } else if n > 0 {
      assert Older(rs[n - 1], rs[n]);
      var front := rs[..n];
      assert front[n - 1] == rs[n - 1] && NewestBelow(front, rs[n]) == Some(rs[n - 1]);
    } else {
      assert rs[..0] == [];
    }
  }

  /** In an accepted file the release in preparation is newer than every other entry. */
  lemma PrepIsNewest(entries: seq<Entry>, v: Version)
    requires HeadingsFine(entries, |entries|) && InPrep(entries).Some? && HasVersion(entries, v)
    ensures v == InPrep(entries).value || Older(v, InPrep(entries).value)
  {
    var k :| 0 <= k < |entries| && entries[k].kind.Release? && entries[k].kind.version == v;
    var j := FirstVersionAt(entries);
    assert HeadingFine(entries, k);
  }

  lemma {:induction false} FirstVersionAt(entries: seq<Entry>) returns (j: nat)
    requires FirstVersion(entries).Some?
    ensures j < |entries| && entries[j].kind.Release? && entries[j].kind.version == FirstVersion(entries).value
    ensures forall k | 0 <= k < j :: !entries[k].kind.Release?
  {
    if entries[0].kind.Release? {
      j := 0;
    } else {
      var i := FirstVersionAt(entries[1..]);
      j := i + 1;
    }
  }

  /** What a definition of the `i`-th release must say. */
  lemma WantRelease(rs: seq<Version>, first: Version, i: nat)
    requires Ascending(rs) && i < |rs| && forall k | 0 <= k < |rs| :: AtLeast(rs[k], first)
    ensures rs[0] == first ==>
              Want(rs, first, rs[i]) == Some(if i == 0 then TagPage(first) else Compare(rs[i - 1], Name(rs[i])))
    ensures rs[0] != first ==> Want(rs, first, rs[0]) == None
  {
    NewestBelowRelease(rs, i);
    NewestBelowRelease(rs, 0);
    if i > 0 { assert Older(rs[0], rs[i]); }
  }

  /** What the definition of a release in preparation newer than every release must say. */
  lemma WantPrep(rs: seq<Version>, first: Version, v: Version)
    requires Ascending(rs) && AtLeast(v, first) && forall k | 0 <= k < |rs| :: AtLeast(rs[k], first) && Older(rs[k], v)
    ensures rs == [] ==> Want(rs, first, v) == if v == first then Some(TagPage(v)) else None
    ensures rs != [] ==> v != first && Want(rs, first, v) == Some(Compare(rs[|rs| - 1], Name(v)))
  {
    if rs != [] { assert Older(rs[|rs| - 1], v) && AtLeast(rs[|rs| - 1], first); }
  }

  lemma NameIsKey(v: Version)
    ensures Name(v) != UNRELEASED && ParseVersion(Name(v)) == Some(v)
  {
    ParseName(v);
    assert IsDigit(Name(v)[0]) && UNRELEASED[0] == 'u';
  }

  /** An accepted file defines every version that must be, as it must be. */
  lemma AcceptedVersion(entries: seq<Entry>, defs: seq<Definition>, rs: seq<Version>, tags: TagRead, first: Version,
                        v: Version)
    requires LinksFine(entries, defs, rs, tags, first)
    requires HasVersion(entries, v) && AtLeast(v, first) && Linked(entries, rs, v)
    ensures var defined := Defined(defs);
            Name(v) in defined && Want(rs, first, v) == Some(defined[Name(v)])
  {
    hide Name, ParseVersion, FindSemver, Want, AtLeast, Linked;
    NameIsKey(v);
    var j :| 0 <= j < |entries| && entries[j].kind.Release? && entries[j].kind.version == v;
    assert !Unlinked(entries, rs, first, Defined(defs), j);
    assert DefinitionFine(entries, rs, first, Name(v), Defined(defs)[Name(v)]);
  }

  /** One direction: with no finding, the links form the chain. */
  lemma AcceptedLinksAreChain(entries: seq<Entry>, defs: seq<Definition>, rs: seq<Version>, tags: TagRead,
                              first: Version)
    requires tags.known && ListsReleases(rs, tags, first)
    requires WellFormed(entries) && HeadingsFine(entries, |entries|)
    requires LinksFine(entries, defs, rs, tags, first)
    ensures ReleaseChain(entries, defs, rs, first)
  {
    hide Name, Key, ParseVersion, FindSemver, TagPage, Compare, HeadingsFine, Want, AtLeast, Unlinked, InPrep;
    var defined := Defined(defs);
    forall k | 0 <= k < |rs|
      ensures AtLeast(rs[k], first) && HasVersion(entries, rs[k]) && Name(rs[k]) in defined
      ensures Want(rs, first, rs[k]) == Some(defined[Name(rs[k])])
    {
      assert rs[k] in rs;
      AcceptedVersion(entries, defs, rs, tags, first, rs[k]);
    }
    if rs != [] { WantRelease(rs, first, 0); }
    forall i | 0 <= i < |rs|
      ensures ChainedAt(entries, defined, rs, first, i)
    {
      WantRelease(rs, first, i);
    }
    if InPrep(entries).Some? && InPrep(entries).value !in rs && AtLeast(InPrep(entries).value, first) {
      var v := InPrep(entries).value;
      PrepHasVersion(entries);
      PrepAboveReleases(entries, rs, v);
      WantPrep(rs, first, v);
      AcceptedVersion(entries, defs, rs, tags, first, v);
    }
    forall key | key in defined ensures DefinitionFine(entries, rs, first, key, defined[key]) {}
  }

  lemma PrepHasVersion(entries: seq<Entry>)
    ensures InPrep(entries).Some? ==> HasVersion(entries, InPrep(entries).value)
  {
  }

  lemma PrepAboveReleases(entries: seq<Entry>, rs: seq<Version>, v: Version)
    requires HeadingsFine(entries, |entries|) && InPrep(entries) == Some(v) && v !in rs
    requires forall k | 0 <= k < |rs| :: HasVersion(entries, rs[k])
    ensures forall k | 0 <= k < |rs| :: Older(rs[k], v)
  {
    forall k | 0 <= k < |rs| ensures Older(rs[k], v) {
      PrepIsNewest(entries, rs[k]);
      assert rs[k] in rs;
    }
  }

  /** In the chain every defined version has the destination wanted. */
  lemma ChainWanted(entries: seq<Entry>, defined: map<string, string>, rs: seq<Version>, first: Version, key: string)
    requires Ascending(rs) && forall k | 0 <= k < |rs| :: AtLeast(rs[k], first)
    requires HeadingsFine(entries, |entries|)
    requires Chained(entries, defined, rs, first) && PrepChained(entries, defined, rs, first)
    requires NothingElseDefined(entries, defined, rs, first)
    requires key in defined && key != UNRELEASED
    ensures ParseVersion(key).Some? && Want(rs, first, ParseVersion(key).value) == Some(defined[key])
  {
    hide Name, ParseVersion, TagPage, Compare, HeadingsFine, Want, AtLeast, InPrep, HasVersion;
    var v := ParseVersion(key).value;
    NameParsed(key);
    if v in rs {
      var i :| 0 <= i < |rs| && rs[i] == v;
      WantRelease(rs, first, i);
      assert ChainedAt(entries, defined, rs, first, i);
    } else {
      forall k | 0 <= k < |rs| ensures HasVersion(entries, rs[k]) {
        assert ChainedAt(entries, defined, rs, first, k);
      }
      PrepAboveReleases(entries, rs, v);
      WantPrep(rs, first, v);
    }
  }

  /** The other: links that form the chain draw no finding. */
  lemma ChainIsAccepted(entries: seq<Entry>, defs: seq<Definition>, rs: seq<Version>, tags: TagRead, first: Version)
    requires tags.known && ListsReleases(rs, tags, first)
    requires WellFormed(entries) && HeadingsFine(entries, |entries|)
    requires ReleaseChain(entries, defs, rs, first)
    ensures LinksFine(entries, defs, rs, tags, first)
  {
    hide Name, Key, ParseVersion, FindSemver, TagPage, Compare, HeadingsFine, Want, AtLeast, InPrep, HasVersion;
    var defined := Defined(defs);
    forall k | 0 <= k < |rs| ensures AtLeast(rs[k], first) && HasVersion(entries, rs[k]) {
      ReleaseAtLeast(rs, tags, first, k);
      assert ChainedAt(entries, defined, rs, first, k);
    }
    forall key | key in defined ensures DefinitionFine(entries, rs, first, key, defined[key]) {
      if key != UNRELEASED { ChainWanted(entries, defined, rs, first, key); }
    }
    forall k | 0 <= k < |entries| ensures !Unlinked(entries, rs, first, defined, k) {
      if entries[k].kind.Release? && entries[k].kind.version in rs {
        var i :| 0 <= i < |rs| && rs[i] == entries[k].kind.version;
        assert ChainedAt(entries, defined, rs, first, i);
      }
    }
  }

  lemma ReleaseAtLeast(rs: seq<Version>, tags: TagRead, first: Version, k: nat)
    requires ListsReleases(rs, tags, first) && k < |rs|
    ensures AtLeast(rs[k], first)
  {
    assert rs[k] in rs;
  }

  /**
   * With the tags known and the headings accepted, the link check accepts exactly the release
   * chain: first tag first, each release compared with the one before it, `[Unreleased]` with the
   * newest, the release in preparation on top, and no other version defined.
   */
  lemma LinksAreChain(entries: seq<Entry>, defs: seq<Definition>, rs: seq<Version>, tags: TagRead, first: Version)
    requires tags.known && ListsReleases(rs, tags, first)
    requires WellFormed(entries) && HeadingsFine(entries, |entries|)
    ensures LinksFine(entries, defs, rs, tags, first) <==> ReleaseChain(entries, defs, rs, first)
  {
    hide LinksFine, ReleaseChain;
    if LinksFine(entries, defs, rs, tags, first) { AcceptedLinksAreChain(entries, defs, rs, tags, first); }
    if ReleaseChain(entries, defs, rs, first) { ChainIsAccepted(entries, defs, rs, tags, first); }
  }
}
