/**
 * The names of the release tool's archive as strings, as `scripts/acquire-pluginval.py` compares them: what a
 * path stands for, which parts are safe, and which archives of the bare executable are admitted.
 */
module ToolNames {
  import opened Ascii
  import opened Wrappers
  import opened MemberNames
  import opened ToolTree

  // ---- Letters of either case -----------------------------------------------------------------

  /** The same character, or the same letter in the other case. */
  predicate SameLetter(a: char, b: char) {
    a == b || ('A' <= a <= 'Z' && b as int == a as int + 32) || ('A' <= b <= 'Z' && a as int == b as int + 32)
  }

  /** Two paths collide iff they have the same parts but for the case of letters. */
  lemma FoldIff(p: Path, q: Path)
    ensures Fold(p) == Fold(q)
            <==> (|p| == |q| && forall i | 0 <= i < |p| :: FoldPart(p[i]) == FoldPart(q[i]))
  {
    if Fold(p) == Fold(q) {
      assert |Fold(p)| == |p| && |Fold(q)| == |q|;
      forall i | 0 <= i < |p| ensures FoldPart(p[i]) == FoldPart(q[i]) {
        assert Fold(p)[i] == Fold(q)[i];
      }
    }
  }

  lemma FoldPartIff(s: string, t: string)
    ensures FoldPart(s) == FoldPart(t) <==> (|s| == |t| && forall i | 0 <= i < |s| :: SameLetter(s[i], t[i]))
  {
    if FoldPart(s) == FoldPart(t) {
      assert |FoldPart(s)| == |s| && |FoldPart(t)| == |t|;
      forall i | 0 <= i < |s| ensures SameLetter(s[i], t[i]) {
        assert FoldPart(s)[i] == FoldPart(t)[i];
      }
    }
  }

  // ---- Unsafe parts ---------------------------------------------------------------------------

  /** CON, PRN, AUX, NUL, COM0 to COM9 and LPT0 to LPT9, in any case. */
  predicate DeviceName(s: string) {
    (|s| == 3 && ((s[0] in "cC" && s[1] in "oO" && s[2] in "nN") || (s[0] in "pP" && s[1] in "rR" && s[2] in "nN")
                  || (s[0] in "aA" && s[1] in "uU" && s[2] in "xX") || (s[0] in "nN" && s[1] in "uU" && s[2] in "lL")))
    || (|s| == 4 && s[3] in "0123456789"
        && ((s[0] in "cC" && s[1] in "oO" && s[2] in "mM") || (s[0] in "lL" && s[1] in "pP" && s[2] in "tT")))
  }

  lemma {:induction false} StemIs(part: string, n: nat)
    requires n <= |part| && '.' !in part[..n] && (n < |part| ==> part[n] == '.')
    ensures Stem(part) == part[..n]
  {
    if n > 0 {
      assert part[..n][0] == part[0];
      assert part[..n] == [part[0]] + part[1..][..n - 1];
      StemIs(part[1..], n - 1);
    }
  }

  lemma {:induction false} StemEnds(part: string)
    ensures Stem(part) <= part && '.' !in Stem(part) && (|Stem(part)| < |part| ==> part[|Stem(part)|] == '.')
  {
    if part != "" && part[0] != '.' {
      StemEnds(part[1..]);
      assert part == [part[0]] + part[1..];
    }
  }

  lemma LowersTo(s: string, a: char, b: char, c: char)
    requires |s| >= 3
    ensures FoldPart(s)[..3] == [a, b, c] <==> (Lower(s[0]) == a && Lower(s[1]) == b && Lower(s[2]) == c)
  {
    var low := FoldPart(s);
    assert low[..3] == [low[0], low[1], low[2]];
  }

  lemma ThreeLetters(s: string)
    requires |s| >= 3
    ensures var low := FoldPart(s);
            |low| == |s|
            && (low[..3] == "con" <==> (s[0] in "cC" && s[1] in "oO" && s[2] in "nN"))
            && (low[..3] == "prn" <==> (s[0] in "pP" && s[1] in "rR" && s[2] in "nN"))
            && (low[..3] == "aux" <==> (s[0] in "aA" && s[1] in "uU" && s[2] in "xX"))
            && (low[..3] == "nul" <==> (s[0] in "nN" && s[1] in "uU" && s[2] in "lL"))
            && (low[..3] == "com" <==> (s[0] in "cC" && s[1] in "oO" && s[2] in "mM"))
            && (low[..3] == "lpt" <==> (s[0] in "lL" && s[1] in "pP" && s[2] in "tT"))
  {
    LowersTo(s, 'c', 'o', 'n');
    LowersTo(s, 'p', 'r', 'n');
    LowersTo(s, 'a', 'u', 'x');
    LowersTo(s, 'n', 'u', 'l');
    LowersTo(s, 'c', 'o', 'm');
    LowersTo(s, 'l', 'p', 't');
    hide FoldPart;
  }

  /** The stem, in lower case, is a device's iff the stem spells it in some case. */
  lemma StemDevice(stem: string)
    ensures var low := FoldPart(stem);
            DeviceName(stem) <==> (low in ["con", "prn", "aux", "nul"]
                                   || (|low| == 4 && low[..3] in ["com", "lpt"] && IsDigit(low[3])))
  {
    var low := FoldPart(stem);
    assert |low| == |stem|;
    if |stem| >= 3 { ThreeLetters(stem); }
    if |stem| == 3 {
      hide FoldPart;
      assert low == low[..3];
    } else if |stem| == 4 {
      assert low[3] == Lower(stem[3]);
      assert IsDigit(low[3]) <==> stem[3] in "0123456789";
      hide FoldPart, Lower, IsDigit;
    }
  }

  /** A part names a device iff it is a device's name with nothing, or a dot and anything, after it. */
  lemma DeviceIff(part: string)
    ensures Device(part)
            <==> exists n | 0 <= n <= |part| :: DeviceName(part[..n]) && (n == |part| || part[n] == '.')
  {
    hide FoldPart, DeviceName;
    StemEnds(part);
    StemDevice(Stem(part));
    if Device(part) {
      assert part[..|Stem(part)|] == Stem(part);
    }
    if exists n | 0 <= n <= |part| :: DeviceName(part[..n]) && (n == |part| || part[n] == '.') {
      var n :| 0 <= n <= |part| && DeviceName(part[..n]) && (n == |part| || part[n] == '.');
      NoDotInDevice(part[..n]);
      StemIs(part, n);
    }
  }

  lemma NoDotInDevice(s: string)
    requires DeviceName(s)
    ensures '.' !in s
  {
  }

  /** The printable ASCII characters other than `"`, `*`, `:`, `<`, `>`, `?` and `|`. */
  predicate PlainCode(c: char) { 32 <= c as int <= 126 && c as int !in [34, 42, 58, 60, 62, 63, 124] }

  /**
   * A part is safe iff it is not empty, ends neither with a dot nor with a space, holds only plain characters,
   * and is no device's name, bare or with an extension.
   */
  lemma SafePartIff(part: string)
    ensures SafePart(part)
            <==> (part != "" && part[|part| - 1] !in ". " && (forall k | 0 <= k < |part| :: PlainCode(part[k]))
                  && !exists n | 0 <= n <= |part| :: DeviceName(part[..n]) && (n == |part| || part[n] == '.'))
  {
    hide Device, DeviceName;
    DeviceIff(part);
    assert forall k | 0 <= k < |part| :: !Unprintable(part[k]) <==> PlainCode(part[k]);
  }

  // ---- Paths as strings -----------------------------------------------------------------------

  lemma {:induction false} JoinMore(p: Path, q: Path)
    requires p != [] && q != []
    ensures JoinPath(p + q) == JoinPath(p) + "/" + JoinPath(q)
  {
    if |p| == 1 {
      assert p + q == [p[0]] + q && (p + q)[1..] == q;
    } else {
      assert (p + q)[1..] == p[1..] + q;
      JoinMore(p[1..], q);
    }
  }

  lemma {:induction false} SplitMore(s: string, t: string)
    ensures SplitPath(s + "/" + t) == SplitPath(s) + SplitPath(t)
  {
    var whole := s + "/" + t;
    if s == "" {
      assert whole[1..] == t;
    } else {
      assert whole[1..] == s[1..] + "/" + t;
      SplitMore(s[1..], t);
    }
  }

  /** A path of parts without separators is read back from its string. */
  predicate Separate(p: Path) { p != [] && forall k | 0 <= k < |p| :: NoSeparator(p[k]) }

  lemma {:induction false} SplitJoined(p: Path)
    requires Separate(p)
    ensures SplitPath(JoinPath(p)) == p
  {
    if |p| == 1 {
      SplitPart(p[0]);
      assert p == [p[0]];
    } else {
      SplitJoined(p[1..]);
      SplitCons(p[0], JoinPath(p[1..]));
      assert p == [p[0]] + p[1..];
    }
  }

  /** A path is below a directory iff its string goes on after the directory's and a slash. */
  lemma BelowIff(p: Path, d: Path)
    requires Separate(p) && Separate(d)
    ensures d < p <==> JoinPath(d) + "/" <= JoinPath(p)
  {
    hide NoSeparator, SplitPath, JoinPath;
    if d < p {
      assert p == d + p[|d|..];
      JoinMore(d, p[|d|..]);
    }
    var s, t := JoinPath(d) + "/", JoinPath(p);
    if s <= t {
      assert t == s + t[|s|..];
      SplitMore(JoinPath(d), t[|s|..]);
      SplitJoined(d);
      SplitJoined(p);
    }
  }

  lemma SameIff(p: Path, q: Path)
    requires Separate(p) && Separate(q)
    ensures p == q <==> JoinPath(p) == JoinPath(q)
  {
    hide NoSeparator, SplitPath, JoinPath;
    SplitJoined(p);
    SplitJoined(q);
  }

  /** The parents of a path are what stands before each of its slashes. */
  lemma ParentsIff(p: Path, d: Path)
    requires Separate(p) && Separate(d)
    ensures d in Parents(p) <==> JoinPath(d) + "/" <= JoinPath(p)
  {
    hide JoinPath, NoSeparator;
    BelowIff(p, d);
    if d < p { assert d == p[..|d|]; }
  }

  // ---- Which members belong -------------------------------------------------------------------

  lemma AppName()
    ensures Separate(APP) && JoinPath(APP) == "pluginval.app"
  {
  }

  /** On macOS a member belongs iff it is the bundle or its name begins with the bundle's and a slash. */
  lemma OnMacIff(p: Path, dir: bool, asset: Asset)
    requires Separate(p)
    ensures OnPlatform(p, dir, asset, true)
            <==> (JoinPath(p) == "pluginval.app" || "pluginval.app/" <= JoinPath(p))
  {
    hide JoinPath, Separate;
    AppName();
    BelowIff(p, APP);
    SameIff(p, APP);
    assert "pluginval.app" + "/" == "pluginval.app/";
  }

  lemma BundleNames()
    ensures Separate(PLIST) && JoinPath(PLIST) == "pluginval.app/Contents/Info.plist"
    ensures Separate(PKG_INFO) && JoinPath(PKG_INFO) == "pluginval.app/Contents/PkgInfo"
    ensures Separate(RESOURCES) && JoinPath(RESOURCES) + "/" == "pluginval.app/Contents/Resources/"
  {
    InContents("Info.plist");
    InContents("PkgInfo");
    InContents("Resources");
    assert "pluginval.app/Contents/" + "Info.plist" == "pluginval.app/Contents/Info.plist";
    assert "pluginval.app/Contents/" + "PkgInfo" == "pluginval.app/Contents/PkgInfo";
    assert "pluginval.app/Contents/" + "Resources" + "/" == "pluginval.app/Contents/Resources/";
  }

  lemma InContents(name: string)
    requires NoSeparator(name)
    ensures Separate(["pluginval.app", "Contents", name])
    ensures JoinPath(["pluginval.app", "Contents", name]) == "pluginval.app/Contents/" + name
  {
    var p := ["pluginval.app", "Contents", name];
    assert p[1..] == ["Contents", name] && ["Contents", name][1..] == [name];
    assert JoinPath([name]) == name && JoinPath(["Contents", name]) == "Contents/" + name;
  }

  predicate Listed(files: map<Path, Stored>, name: string) {
    exists p :: p in files && p != [] && JoinPath(p) == name
  }

  /** A bundle is complete iff the two files are listed by name, and some file's name begins as a resource's. */
  lemma BundleCompleteIff(files: map<Path, Stored>)
    requires forall p | p in files :: Separate(p)
    ensures BundleComplete(files)
            <==> (Listed(files, "pluginval.app/Contents/Info.plist")
                  && Listed(files, "pluginval.app/Contents/PkgInfo")
                  && exists p :: p in files && p != [] && "pluginval.app/Contents/Resources/" <= JoinPath(p))
  {
    hide JoinPath, NoSeparator;
    BundleNames();
    forall p | p in files ensures p == PLIST <==> JoinPath(p) == "pluginval.app/Contents/Info.plist" {
      SameIff(p, PLIST);
    }
    forall p | p in files ensures p == PKG_INFO <==> JoinPath(p) == "pluginval.app/Contents/PkgInfo" {
      SameIff(p, PKG_INFO);
    }
    forall p | p in files ensures RESOURCES < p <==> "pluginval.app/Contents/Resources/" <= JoinPath(p) {
      BelowIff(p, RESOURCES);
    }
  }

  // ---- Which archives are admitted ------------------------------------------------------------

  /** A regular member that can be read, whose name is the executable's. */
  predicate IsExecutable(e: Entry, asset: Asset, name: string) {
    e.name == name && e.original == name && (e.kind.Unset? || e.kind.RegularKind?) && !e.encrypted && e.supported
    && e.content.Some?
  }

  lemma ExecutableEntry(e: Entry, asset: Asset)
    requires Canonical(asset.executable)
    ensures EntryOk(e, asset, false) <==> IsExecutable(e, asset, JoinPath(asset.executable))
    ensures EntryOk(e, asset, false) ==> !IsDir(e) && NameOf(e) == asset.executable && e.content.Some?
  {
    assert asset.executable != [];
    hide SafeName, Canonical, JoinPath, EndsWith;
    SafeNameIff(e.name, asset.executable);
    JoinShape(asset.executable);
    EndsSlash(JoinPath(asset.executable));
  }

  lemma EndsSlash(s: string)
    ensures EndsWith(s + "/", '/')
  {
  }

  /**
   * Off macOS an archive is admitted iff it holds one member only, the executable with its locked digest and
   * no more than 128 MiB by its own declaration.
   */
  lemma SoleMember(entries: seq<Entry>, asset: Asset, sha: Digest)
    requires Canonical(asset.executable) && |asset.executable| == 1
    ensures Acceptable(entries, asset, false, sha)
            <==> (|entries| == 1 && IsExecutable(entries[0], asset, asset.executable[0])
                  && sha(entries[0].content.value) == asset.executableSha && entries[0].size <= 134217728)
  {
    hide EntryOk, Canonical, Fold, IsExecutable, NameOf;
    forall k | 0 <= k < |entries|
      ensures EntryOk(entries[k], asset, false) <==> IsExecutable(entries[k], asset, asset.executable[0])
      ensures EntryOk(entries[k], asset, false)
              ==> !IsDir(entries[k]) && NameOf(entries[k]) == asset.executable && entries[k].content.Some?
    {
      ExecutableEntry(entries[k], asset);
    }
    if |entries| == 1 {
      OneMember(entries[0], asset, sha);
      assert entries == [entries[0]];
    } else if |entries| > 1 {
      assert EntriesOk(entries, asset, false) ==> NameOf(entries[0]) == NameOf(entries[1]);
    }
  }

  lemma OneMember(e: Entry, asset: Asset, sha: Digest)
    requires |asset.executable| == 1
    requires EntryOk(e, asset, false) ==> !IsDir(e) && NameOf(e) == asset.executable && e.content.Some?
    ensures Acceptable([e], asset, false, sha)
            <==> (EntryOk(e, asset, false) && sha(e.content.value) == asset.executableSha && e.size <= 134217728)
  {
    hide EntryOk, Fold, NameOf, IsDir;
    assert [e][..0] == [] && TotalSize([]) == 0;
    assert TotalSize([e]) == e.size;
    assert FilesOf([], sha) == map[] && DirsOf([]) == {};
    assert EntriesOk([e], asset, false) <==> EntryOk(e, asset, false);
    if EntryOk(e, asset, false) {
      var m := ManifestOf([e], sha);
      assert Parents(asset.executable) == {};
      assert m.files == map[asset.executable := Stored(sha(e.content.value), e.size)];
      assert m.directories == {};
    }
  }

  /**
   * A member of the macOS archive: a directory spelled with a slash at its end and nothing in it, or a file that
   * can be read; the bundle itself or below it.
   */
  predicate MacMember(e: Entry, p: Path) {
    Separate(p) && SafeParts(p) && (JoinPath(p) == "pluginval.app" || "pluginval.app/" <= JoinPath(p))
    && e.original == e.name && !e.encrypted && e.supported
    && if e.name == JoinPath(p) + "/" then (e.kind.Unset? || e.kind.DirectoryKind?) && e.size == 0
       else e.name == JoinPath(p) && (e.kind.Unset? || e.kind.RegularKind?) && e.content.Some?
  }

  /** The two spellings of a path, and which of them is a directory's. */
  lemma SpelledEntry(e: Entry, p: Path)
    requires Canonical(p)
    ensures p != [] && (SafeName(e.name) == Some(p) <==> (e.name == JoinPath(p) || e.name == JoinPath(p) + "/"))
    ensures e.name == JoinPath(p) ==> !IsDir(e)
    ensures e.name == JoinPath(p) + "/" ==> IsDir(e)
    ensures SafeName(e.name) == Some(p) ==> NameOf(e) == p
    ensures SafeName(e.name).Some? && NameOf(e) == p ==> SafeName(e.name) == Some(p)
  {
    assert p != [];
    hide SafeName, Canonical, JoinPath, EndsWith;
    SafeNameIff(e.name, p);
    JoinShape(p);
    EndsSlash(JoinPath(p));
  }

  lemma MacEntry(e: Entry, asset: Asset, p: Path)
    requires Canonical(p)
    ensures EntryOk(e, asset, true) && NameOf(e) == p <==> MacMember(e, p)
  {
    assert Separate(p);
    hide SafeName, Canonical, JoinPath, EndsWith, SafeParts, Separate, OnPlatform, NameOf, IsDir;
    SpelledEntry(e, p);
    OnMacIff(p, IsDir(e), asset);
    CanonicalParts(p);
    if SafeName(e.name) == Some(p) {
      assert OnPlatform(SafeName(e.name).value, IsDir(e), asset, true)
          <==> (JoinPath(p) == "pluginval.app" || "pluginval.app/" <= JoinPath(p));
      assert IsDir(e) <==> e.name == JoinPath(p) + "/";
    } else {
      assert !MacMember(e, p);
    }
  }

  lemma CanonicalParts(p: Path)
    requires Canonical(p)
    ensures SafeParts(p) && p != []
  {
  }

  lemma MacEntryIff(e: Entry, asset: Asset)
    ensures EntryOk(e, asset, true) <==> exists p :: MacMember(e, p)
  {
    hide EntryOk, MacMember, SafePart;
    if EntryOk(e, asset, true) {
      EntryCanonical(e, asset, true);
      MacEntry(e, asset, NameOf(e));
    }
    if p :| MacMember(e, p) {
      MacCanonical(e, p);
      MacEntry(e, asset, p);
    }
  }

  lemma EntryCanonical(e: Entry, asset: Asset, mac: bool)
    requires EntryOk(e, asset, mac)
    ensures Canonical(NameOf(e))
  {
    hide SafeName, Canonical;
    SafeNameIff(e.name, NameOf(e));
  }

  lemma MacCanonical(e: Entry, p: Path)
    requires MacMember(e, p)
    ensures Canonical(p)
  {
    hide SafePart;
  }

  /** A file the manifest lists is a readable member that is no directory, under its own name. */
  lemma {:induction false} ListedMember(entries: seq<Entry>, sha: Digest, p: Path)
    requires p in FilesOf(entries, sha)
    ensures exists k | 0 <= k < |entries| :: !IsDir(entries[k]) && entries[k].content.Some? && NameOf(entries[k]) == p
  {
    hide NameOf, IsDir;
    var n := |entries| - 1;
    if IsDir(entries[n]) || entries[n].content.None? || NameOf(entries[n]) != p {
      ListedMember(entries[..n], sha, p);
      var k :| 0 <= k < n && !IsDir(entries[..n][k]) && entries[..n][k].content.Some? && NameOf(entries[..n][k]) == p;
      assert entries[k] == entries[..n][k];
    }
  }

  /** Some member is a file of this name. */
  predicate Holds(entries: seq<Entry>, name: string) { exists k | 0 <= k < |entries| :: entries[k].name == name }

  lemma HoldsListed(entries: seq<Entry>, asset: Asset, sha: Digest, p: Path)
    requires EntriesOk(entries, asset, true) && p in FilesOf(entries, sha)
    ensures p != [] && Holds(entries, JoinPath(p)) && Separate(p)
  {
    hide NameOf, EntryOk, JoinPath, IsDir;
    ListedMember(entries, sha, p);
    var k :| 0 <= k < |entries| && !IsDir(entries[k]) && entries[k].content.Some? && NameOf(entries[k]) == p;
    assert EntryOk(entries[k], asset, true);
    FileName(entries[k], asset);
  }

  lemma FileName(e: Entry, asset: Asset)
    requires EntryOk(e, asset, true) && !IsDir(e)
    ensures NameOf(e) != [] && e.name == JoinPath(NameOf(e)) && Separate(NameOf(e))
  {
    hide SafeName, JoinPath, SafePart;
    var p := NameOf(e);
    SafeNameIff(e.name, p);
    EndsSlash(JoinPath(p));
  }

  /** An archive admitted on macOS holds the executable, the two files of the bundle and a resource, by name. */
  lemma MacBundle(entries: seq<Entry>, asset: Asset, sha: Digest)
    requires Acceptable(entries, asset, true, sha)
    ensures asset.executable != [] && Holds(entries, JoinPath(asset.executable))
    ensures Holds(entries, "pluginval.app/Contents/Info.plist") && Holds(entries, "pluginval.app/Contents/PkgInfo")
    ensures exists k | 0 <= k < |entries| :: "pluginval.app/Contents/Resources/" <= entries[k].name
  {
    hide Holds, JoinPath, EntriesOk, DistinctNames, FilesOf, DirsOf, FoldApart, Separate;
    var files := FilesOf(entries, sha);
    BundleNames();
    HoldsListed(entries, asset, sha, asset.executable);
    HoldsListed(entries, asset, sha, PLIST);
    HoldsListed(entries, asset, sha, PKG_INFO);
    var p :| p in files && RESOURCES < p;
    HoldsListed(entries, asset, sha, p);
    BelowIff(p, RESOURCES);
    ResourceNamed(entries, p);
  }

  lemma ResourceNamed(entries: seq<Entry>, p: Path)
    requires p != [] && Holds(entries, JoinPath(p)) && Separate(p) && RESOURCES < p
    requires JoinPath(RESOURCES) + "/" == "pluginval.app/Contents/Resources/" <= JoinPath(p)
    ensures exists k | 0 <= k < |entries| :: "pluginval.app/Contents/Resources/" <= entries[k].name
  {
    hide JoinPath, Separate;
    var k :| 0 <= k < |entries| && entries[k].name == JoinPath(p);
    assert "pluginval.app/Contents/Resources/" <= entries[k].name;
  }

  /** The limits: 4096 members, and 128 MiB by their own declaration. */
  lemma LimitsIff(entries: seq<Entry>, asset: Asset, mac: bool, sha: Digest)
    requires EntriesOk(entries, asset, mac) && DistinctNames(entries)
    requires entries != [] && ManifestOk(ManifestOf(entries, sha), asset, mac)
    ensures Acceptable(entries, asset, mac, sha) <==> |entries| <= 4096 && TotalSize(entries) <= 134217728
  {
    hide EntriesOk, DistinctNames, FoldApart;
  }

  // ---- Building the tree ----------------------------------------------------------------------

  /**
   * Whatever is created is created once, under one spelling where case does not count, and below a directory
   * that is there.
   */
  lemma CreateExclusive(t: Tree, p: Path, node: Node, anyCase: bool, r: Path, other: Node)
    requires p != [] && r != [] && Create(t, p, node, anyCase).Some? && (r == p || (anyCase && Fold(r) == Fold(p)))
    ensures p !in t && Create(t, p, node, anyCase).value == t[p := node]
    ensures Create(Create(t, p, node, anyCase).value, r, other, anyCase).None?
    ensures |p| > 1 && !anyCase ==> p[..|p| - 1] in t && t[p[..|p| - 1]] == Directory
    ensures |p| > 1 ==> Create(map[], p, node, anyCase).None?
  {
    hide Fold;
    assert p in t ==> Same(p, p, anyCase);
    var u := Create(t, p, node, anyCase).value;
    assert p in u && Same(p, r, anyCase);
  }

  // ---- Which trees pass -----------------------------------------------------------------------

  /** The same directories, and the same files up to bytes of one digest and size. */
  ghost predicate Alike(t: Tree, u: Tree, sha: Digest) {
    t.Keys == u.Keys
    && forall p | p in t ::
         (t[p].Directory? && u[p].Directory?)
         || (t[p].File? && u[p].File? && sha(t[p].bytes) == sha(u[p].bytes) && |t[p].bytes| == |u[p].bytes|)
  }

  /** Beside a tree that passes, another passes iff it is alike and, on POSIX, its executable may be run. */
  lemma PassesIffAlike(t: Tree, u: Tree, m: Manifest, executable: Path, posix: bool, sha: Digest)
    requires m.files.Keys !! m.directories && TreeOk(Some(t), m, executable, posix, sha)
    requires executable in m.files
    ensures TreeOk(Some(u), m, executable, posix, sha)
            <==> (Alike(t, u, sha)
                  && (posix ==> executable in u && u[executable].File? && u[executable].executable))
  {
    if Alike(t, u, sha) {
      forall p | p in u ensures NodeMatches(u[p], p, m, sha) {
        assert NodeMatches(t[p], p, m, sha);
      }
    }
    if TreeMatches(u, m, sha) {
      forall p | p in t
        ensures (t[p].Directory? && u[p].Directory?)
                || (t[p].File? && u[p].File? && sha(t[p].bytes) == sha(u[p].bytes) && |t[p].bytes| == |u[p].bytes|)
      {
        assert NodeMatches(t[p], p, m, sha) && NodeMatches(u[p], p, m, sha);
      }
      assert executable in u && NodeMatches(u[executable], executable, m, sha);
    }
  }
}
