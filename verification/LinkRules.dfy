/** What the rules of `check_changelog_links` say in terms of tags, entries and the texts of the links. */
module LinkRules {
  import opened Ascii
  import opened Wrappers
  import opened Versions
  import opened Headings
  import opened ChangelogParse
  import opened ReleaseLinks
  import opened ReferenceTexts
  import D = Decimal

  // ---- The list of releases ------------------------------------------------------------------

  /** A version is at or above the first tag when it is that one or raises it. */
  lemma AtLeastIsRaised(v: Version, first: Version)
    ensures AtLeast(v, first) <==> v == first || Raises(v, first)
  {
    hide Raises;
    OlderIsRaised(first, v);
  }

  /** Of the releases in the list each raises the one before it. */
  lemma ReleasesRise(rs: seq<Version>, tags: TagRead, first: Version)
    requires ListsReleases(rs, tags, first)
    ensures forall i | 0 < i < |rs| :: Raises(rs[i], rs[i - 1])
    ensures forall i | 0 <= i < |rs| :: Name(rs[i]) in tags.tags && (rs[i] == first || Raises(rs[i], first))
  {
    hide Raises;
    forall i | 0 < i < |rs| ensures Raises(rs[i], rs[i - 1]) {
      OlderIsRaised(rs[i - 1], rs[i]);
      assert Older(rs[i - 1], rs[i]);
    }
    forall i | 0 <= i < |rs| ensures Name(rs[i]) in tags.tags && (rs[i] == first || Raises(rs[i], first)) {
      assert rs[i] in rs;
      AtLeastIsRaised(rs[i], first);
    }
  }

  /** Two tags at or above the first: the one that raises the other is listed last. */
  lemma RaisedIsLast(rs: seq<Version>, v: Version, w: Version, first: Version)
    requires ListsReleases(rs, TagRead(true, {Name(v), Name(w)}, {}), first)
    requires Raises(w, v) && (v == first || Raises(v, first))
    ensures rs == [v, w]
  {
    hide Raises, Name, ParseVersion;
    OlderIsRaised(v, w);
    OlderIsRaised(first, v);
    var tags := {Name(v), Name(w)};
    forall u ensures u in rs <==> u == v || u == w {
      NamesDiffer(u, v);
      NamesDiffer(u, w);
      assert Name(u) in tags <==> Name(u) == Name(v) || Name(u) == Name(w);
    }
    assert Ascending([v, w]) && forall u :: u in [v, w] <==> u == v || u == w;
    AscendingUnique(rs, [v, w]);
  }

  lemma NamesDiffer(u: Version, v: Version)
    ensures Name(u) == Name(v) <==> u == v
  {
    hide Name, ParseVersion;
    ParseName(u);
    ParseName(v);
  }

  // ---- The texts of the links ----------------------------------------------------------------

  /** The links of an accepted chain as they stand in the file. */
  predicate LinkTexts(defined: map<string, string>, rs: seq<Version>) {
    (forall i | 0 < i < |rs| :: LinkTextAt(defined, rs, i))
    && (rs != [] ==>
          Name(rs[0]) in defined
          && defined[Name(rs[0])] == "https://github.com/skyRolly/Anamorph/releases/tag/" + Name(rs[0]))
    && ("unreleased" in defined ==>
          rs != []
          && defined["unreleased"]
             == "https://github.com/skyRolly/Anamorph/compare/" + (Name(rs[|rs| - 1]) + "...HEAD"))
  }

  /** A release is compared with the one before it: the older name comes first. */
  predicate LinkTextAt(defined: map<string, string>, rs: seq<Version>, i: nat)
    requires 0 < i < |rs|
  {
    Name(rs[i]) in defined
    && defined[Name(rs[i])]
       == "https://github.com/skyRolly/Anamorph/compare/" + (Name(rs[i - 1]) + ("..." + Name(rs[i])))
  }

  lemma CompareText(base: Version, to: string)
    ensures Compare(base, to) == "https://github.com/skyRolly/Anamorph/compare/" + (Name(base) + ("..." + to))
    ensures TagPage(base) == "https://github.com/skyRolly/Anamorph/releases/tag/" + Name(base)
  {
    hide Name;
  }

  /** The chain in the file's own text. */
  lemma ChainTexts(entries: seq<Entry>, defs: seq<Definition>, rs: seq<Version>, first: Version)
    requires ReleaseChain(entries, defs, rs, first)
    ensures LinkTexts(Defined(defs), rs)
  {
    hide Name, Compare, TagPage, HasVersion, NothingElseDefined, PrepChained, Unrepeated;
    var defined := Defined(defs);
    forall i | 0 < i < |rs| ensures LinkTextAt(defined, rs, i) {
      assert ChainedAt(entries, defined, rs, first, i);
      CompareText(rs[i - 1], Name(rs[i]));
    }
    if rs != [] {
      assert ChainedAt(entries, defined, rs, first, 0);
      CompareText(rs[0], "");
      CompareText(rs[|rs| - 1], "HEAD");
    }
  }

  lemma NameText()
    ensures Name(Version(1, 2, 30)) == "1.2.30"
  {
    assert D.Show(1) == "1" && D.Show(2) == "2" && D.Show(30) == D.Show(3) + "0" && D.Show(3) == "3";
  }

  // ---- The release in preparation -----------------------------------------------------------

  /** The newest entry with a version, in a file without `[Unreleased]`. */
  lemma InPrepIff(entries: seq<Entry>, v: Version)
    ensures InPrep(entries) == Some(v)
            <==> (forall k | 0 <= k < |entries| :: !entries[k].kind.Unreleased?)
                 && exists j | 0 <= j < |entries| :: FirstRelease(entries, j) && entries[j].kind.version == v
  {
    if FirstVersion(entries).Some? {
      var j := FirstVersionAt(entries);
      assert FirstRelease(entries, j);
    } else {
      NoVersion(entries);
    }
  }

  predicate FirstRelease(entries: seq<Entry>, j: nat)
    requires j < |entries|
  {
    entries[j].kind.Release? && forall k | 0 <= k < j :: !entries[k].kind.Release?
  }

  lemma {:induction false} NoVersion(entries: seq<Entry>)
    requires FirstVersion(entries).None?
    ensures forall k | 0 <= k < |entries| :: !entries[k].kind.Release?
  {
    if entries != [] {
      NoVersion(entries[1..]);
      assert forall k | 1 <= k < |entries| :: entries[k] == entries[1..][k - 1];
    }
  }

  // ---- Tags that cannot be read ---------------------------------------------------------------

  /**
   * Without the tags a file is judged only if nothing in it depends on them: it has no `[Unreleased]`,
   * no entry at or above the first tag beside the release in preparation, and the checkout holds no
   * version above all of that.
   */
  ghost predicate NeedsNoTags(entries: seq<Entry>, defined: map<string, string>, present: set<string>, first: Version) {
    (forall k | 0 <= k < |entries| :: !entries[k].kind.Unreleased?)
    && "unreleased" !in defined
    && (forall j, k | 0 <= j < k < |entries| && entries[j].kind.Release? && entries[k].kind.Release? ::
          PastBelow(entries, j, k, first))
    && forall w: Version | Name(w) in present && (w == first || Raises(w, first)) :: Covered(entries, w)
  }

  /** Some entry covers the tag. */
  ghost predicate Covered(entries: seq<Entry>, w: Version) {
    exists k | 0 <= k < |entries| :: CoversTag(entries, k, w)
  }

  /** An entry below another one is that version again, or below the first tag. */
  ghost predicate PastBelow(entries: seq<Entry>, j: nat, k: nat, first: Version)
    requires j < |entries| && k < |entries| && entries[j].kind.Release? && entries[k].kind.Release?
  {
    FirstRelease(entries, j) ==>
      entries[k].kind.version == entries[j].kind.version || Raises(first, entries[k].kind.version)
  }

  /** The first version of the file is the tag's, or raises it. */
  ghost predicate CoversTag(entries: seq<Entry>, k: nat, w: Version)
    requires k < |entries|
  {
    FirstRelease(entries, k) && (entries[k].kind.version == w || Raises(entries[k].kind.version, w))
  }

  lemma VerifiableIff(entries: seq<Entry>, defined: map<string, string>, tags: TagRead, first: Version)
    requires !tags.known
    ensures Verifiable(entries, defined, tags, first) <==> NeedsNoTags(entries, defined, tags.present, first)
  {
    hide Name, Raises, ParseVersion;
    if !HasUnreleased(entries) && UNRELEASED !in defined {
      PastIff(entries, first);
      if !HasPast(entries, first) { NewerIff(entries, tags.present, first); }
    }
  }

  lemma PastIff(entries: seq<Entry>, first: Version)
    requires !HasUnreleased(entries)
    ensures HasPast(entries, first)
            <==> !forall j, k | 0 <= j < k < |entries| && entries[j].kind.Release? && entries[k].kind.Release? ::
                   PastBelow(entries, j, k, first)
  {
    hide Raises;
    forall v: Version ensures Older(v, first) <==> Raises(first, v) { OlderIsRaised(v, first); }
    if FirstVersion(entries).None? {
      NoVersion(entries);
    } else {
      var j := FirstVersionAt(entries);
      if HasPast(entries, first) {
        var k :| 0 <= k < |entries| && entries[k].kind.Release? && InPrep(entries) != Some(entries[k].kind.version)
                 && AtLeast(entries[k].kind.version, first);
        assert !PastBelow(entries, j, k, first);
      }
    }
  }

  lemma NewerIff(entries: seq<Entry>, present: set<string>, first: Version)
    requires !HasUnreleased(entries)
    ensures HasNewer(entries, present, first)
            <==> !forall w: Version | Name(w) in present && (w == first || Raises(w, first)) :: Covered(entries, w)
  {
    hide Name, Raises, ParseVersion, Covered, AtLeast;
    if HasNewer(entries, present, first) {
      var t :| t in present && ParseVersion(t).Some? && AtLeast(ParseVersion(t).value, first)
               && (InPrep(entries).Some? ==> Older(InPrep(entries).value, ParseVersion(t).value));
      NameParsed(t);
      AtLeastIsRaised(ParseVersion(t).value, first);
      CoversIff(entries, ParseVersion(t).value);
    }
    if w: Version :| Name(w) in present && (w == first || Raises(w, first)) && !Covered(entries, w) {
      ParseName(w);
      AtLeastIsRaised(w, first);
      CoversIff(entries, w);
      assert Name(w) in present && ParseVersion(Name(w)) == Some(w) && AtLeast(w, first);
    }
  }

  lemma CoversIff(entries: seq<Entry>, w: Version)
    requires !HasUnreleased(entries)
    ensures Covered(entries, w) <==> InPrep(entries).Some? && !Older(InPrep(entries).value, w)
  {
    hide Raises;
    if FirstVersion(entries).None? {
      NoVersion(entries);
    } else {
      var j := FirstVersionAt(entries);
      var v := entries[j].kind.version;
      OlderIsRaised(w, v);
      OlderIsRaised(v, w);
      assert FirstRelease(entries, j);
      if !Older(v, w) { assert CoversTag(entries, j, w); }
    }
  }

  // ---- Keys -----------------------------------------------------------------------------------

  /** A label defines a dotted triple under its own spelling, or `unreleased` under any case. */
  lemma KeyIff(name: string, key: string)
    ensures Key(name) == Some(key)
            <==> (key == name && exists a, b, c :: Dotted(name, a, b, c))
                 || (key == "unreleased" && EqualsIgnoringCase(name, "unreleased"))
  {
    hide TripleEnd, EqualsIgnoringCase;
    if a, b, c :| Dotted(name, a, b, c) {
      DottedEnd(a, b, c, "");
      assert c + "" == c;
      NotUnreleased(name, a);
    }
    if TripleEnd(name) == Some(|name|) {
      DottedOf(name);
      var a, b, c :| Dotted(name, a, b, c);
    }
  }

  lemma NotUnreleased(name: string, a: string)
    requires a != "" && AllIn(a, IsDigit) && a <= name
    ensures !EqualsIgnoringCase(name, "unreleased")
  {
    assert IsDigit(name[0]) && "unreleased"[0] == 'u';
  }

  // ---- Keys no entry has ----------------------------------------------------------------------

  /** The first version that stands in the text is `key`. */
  predicate FirstNamed(text: string, key: string) {
    exists at: nat :: at < |text| && StartsVersion(text, at) && SemverAt(text[at..]) == Some(key)
                      && forall j | 0 <= j < at :: !StartsVersion(text, j)
  }

  lemma ClaimedIff(entries: seq<Entry>, key: string)
    ensures Claimed(entries, key)
            <==> exists k | 0 <= k < |entries| :: entries[k].kind.Malformed? && FirstNamed(entries[k].text, key)
  {
    hide StartsVersion, SemverAt;
    forall k | 0 <= k < |entries|
      ensures FindSemver(entries[k].text, 0) == Some(key) <==> FirstNamed(entries[k].text, key)
    {
      FindSemverIff(entries[k].text, 0, key);
    }
  }

  /**
   * A definition of a version no entry has draws no finding iff a malformed heading names that version first;
   * and so does a release tag without an entry.
   */
  lemma StrayIff(entries: seq<Entry>, rs: seq<Version>, first: Version, key: string, url: string)
    requires key != "unreleased"
    requires forall k | 0 <= k < |entries| && entries[k].kind.Release? :: Name(entries[k].kind.version) != key
    ensures DefinitionFine(entries, rs, first, key, url)
            <==> exists k | 0 <= k < |entries| :: entries[k].kind.Malformed? && FirstNamed(entries[k].text, key)
  {
    hide Name, ParseVersion, Claimed, FirstNamed, Linked, Want, AtLeast;
    ClaimedIff(entries, key);
    if ParseVersion(key).Some? { NameParsed(key); }
  }

  lemma StrayTagIff(entries: seq<Entry>, v: Version)
    requires forall k | 0 <= k < |entries| && entries[k].kind.Release? :: Name(entries[k].kind.version) != Name(v)
    ensures HasVersion(entries, v) || Claimed(entries, Name(v))
            <==> exists k | 0 <= k < |entries| :: entries[k].kind.Malformed? && FirstNamed(entries[k].text, Name(v))
  {
    hide Name, Claimed, FirstNamed;
    ClaimedIff(entries, Name(v));
  }
}
