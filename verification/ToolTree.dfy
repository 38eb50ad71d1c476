/**
 * The tool tree of `scripts/acquire-pluginval.py`: which archives are admitted, the tree built from
 * one, and the check that a tree on disk is exactly what its archive promises.
 */
module ToolTree {
  import opened MemberNames
  import opened Wrappers

  newtype Byte = x: int | 0 <= x < 256
  type Bytes = seq<Byte>

  /** The SHA-256 digest, left uninterpreted. */
  type Digest = Bytes -> string

  // ---- Archives -----------------------------------------------------------------------------

  /** The file type in a member's external attributes. */
  datatype Kind = Unset | DirectoryKind | RegularKind | SpecialKind

  /** One `ZipInfo`; `content` is absent when reading the member fails. */
  datatype Entry = Entry(name: string, original: string, kind: Kind, encrypted: bool, supported: bool,
                         size: nat, content: Option<Bytes>)

  datatype Asset = Asset(sha256: string, bytes: nat, executable: Path, executableSha: string)

  datatype Stored = Stored(digest: string, size: nat)

  datatype Manifest = Manifest(files: map<Path, Stored>, directories: set<Path>)

  const MAX_ENTRIES: nat := 4096
  const MAX_BYTES: nat := 128 * 1024 * 1024

  function TotalSize(entries: seq<Entry>): nat {
    if entries == [] then 0 else TotalSize(entries[..|entries| - 1]) + entries[|entries| - 1].size
  }

  predicate IsDir(e: Entry) { EndsWith(e.name, '/') }

  /** The proper ancestors of a path, the root excluded. */
  function Parents(p: Path): set<Path> { set i | 1 <= i < |p| :: p[..i] }

  const APP := ["pluginval.app"]

  predicate OnPlatform(p: Path, dir: bool, asset: Asset, mac: bool) {
    if mac then APP <= p else p == asset.executable && !dir
  }

  /** What `inventory` demands of one member before it looks at the others. */
  predicate EntryOk(e: Entry, asset: Asset, mac: bool) {
    e.original == e.name && SafeName(e.name).Some?
    && (e.kind == Unset || e.kind == if IsDir(e) then DirectoryKind else RegularKind)
    && !e.encrypted && e.supported
    && OnPlatform(SafeName(e.name).value, IsDir(e), asset, mac)
    && (if IsDir(e) then e.size == 0 else e.content.Some?)
  }

  predicate EntriesOk(entries: seq<Entry>, asset: Asset, mac: bool) {
    forall k | 0 <= k < |entries| :: EntryOk(entries[k], asset, mac)
  }

  function NameOf(e: Entry): Path { if SafeName(e.name).Some? then SafeName(e.name).value else [] }

  /** No two members are the same path up to case. */
  predicate DistinctNames(entries: seq<Entry>) {
    forall i, j | 0 <= i < j < |entries| :: Fold(NameOf(entries[i])) != Fold(NameOf(entries[j]))
  }

  function FilesOf(entries: seq<Entry>, sha: Digest): map<Path, Stored> {
    if entries == [] then map[]
    else
      var e := entries[|entries| - 1];
      var rest := FilesOf(entries[..|entries| - 1], sha);
      if IsDir(e) || e.content.None? then rest else rest[NameOf(e) := Stored(sha(e.content.value), e.size)]
  }

  function DirsOf(entries: seq<Entry>): set<Path> {
    if entries == [] then {}
    else
      var e := entries[|entries| - 1];
      DirsOf(entries[..|entries| - 1]) + (if IsDir(e) then {NameOf(e)} else {}) + Parents(NameOf(e))
  }

  /** Different paths of `s` stay different when case is ignored. */
  predicate FoldApart(s: set<Path>) { forall p, q | p in s && q in s && Fold(p) == Fold(q) :: p == q }

  const PLIST := ["pluginval.app", "Contents", "Info.plist"]
  const PKG_INFO := ["pluginval.app", "Contents", "PkgInfo"]
  const RESOURCES := ["pluginval.app", "Contents", "Resources"]

  predicate BundleComplete(files: map<Path, Stored>) {
    PLIST in files && PKG_INFO in files && exists p :: p in files && RESOURCES < p
  }

  predicate ManifestOk(m: Manifest, asset: Asset, mac: bool) {
    m.files.Keys !! m.directories && FoldApart(m.files.Keys + m.directories)
    && asset.executable in m.files && m.files[asset.executable].digest == asset.executableSha
    && (mac ==> BundleComplete(m.files))
  }

  function ManifestOf(entries: seq<Entry>, sha: Digest): Manifest { Manifest(FilesOf(entries, sha), DirsOf(entries)) }

  /** The archives `inventory` admits. */
  predicate Acceptable(entries: seq<Entry>, asset: Asset, mac: bool, sha: Digest) {
    0 < |entries| <= MAX_ENTRIES && TotalSize(entries) <= MAX_BYTES
    && EntriesOk(entries, asset, mac) && DistinctNames(entries)
    && ManifestOk(ManifestOf(entries, sha), asset, mac)
  }

  // ---- The scan -----------------------------------------------------------------------------

  ghost function FoldImage(s: set<Path>): set<Path> { set p | p in s :: Fold(p) }

  /** Counting folded names detects a case collision, as the source does. */
  lemma {:induction false} FoldCount(s: set<Path>)
    ensures |FoldImage(s)| <= |s| && (|FoldImage(s)| == |s| <==> FoldApart(s))
  {
    if s == {} {
      assert FoldImage(s) == {};
    } else {
      var x :| x in s;
      var rest := s - {x};
      FoldCount(rest);
      if Fold(x) in FoldImage(rest) {
        assert FoldImage(s) == FoldImage(rest);
        var y :| y in rest && Fold(y) == Fold(x);
        assert !FoldApart(s);
      } else {
        assert FoldImage(s) == FoldImage(rest) + {Fold(x)};
        assert forall p | p in rest :: Fold(p) in FoldImage(rest);
      }
    }
  }

  /** The running total of the declared sizes. */
  method SumSizes(entries: seq<Entry>) returns (total: nat)
    ensures total == TotalSize(entries)
  {
    total := 0;
    for i := 0 to |entries|
      invariant total == TotalSize(entries[..i])
    {
      assert entries[..i + 1][..i] == entries[..i];
      total := total + entries[i].size;
    }
    assert entries[..|entries|] == entries;
  }

  /** `names` holds the folded names of the first `n` members. */
  ghost predicate NamesSeen(entries: seq<Entry>, n: nat, names: set<Path>)
    requires n <= |entries|
  {
    forall p :: p in names <==> exists k | 0 <= k < n :: p == Fold(NameOf(entries[k]))
  }

  /** What the first `n` members of an admitted archive satisfy. */
  ghost predicate Admitted(entries: seq<Entry>, n: nat, asset: Asset, mac: bool)
    requires n <= |entries|
  {
    EntriesOk(entries[..n], asset, mac) && DistinctNames(entries[..n])
  }

  lemma AdmittedStep(entries: seq<Entry>, n: nat, asset: Asset, mac: bool, names: set<Path>)
    requires n < |entries| && NamesSeen(entries, n, names)
    ensures var fold := Fold(NameOf(entries[n]));
            NamesSeen(entries, n + 1, names + {fold})
            && (Admitted(entries, n + 1, asset, mac)
                <==> (Admitted(entries, n, asset, mac) && EntryOk(entries[n], asset, mac) && fold !in names))
  {
    hide Fold, EntryOk, NameOf;
    var before, after := entries[..n], entries[..n + 1];
    assert after == before + [entries[n]];
    assert forall k | 0 <= k < n :: after[k] == before[k] == entries[k];
    assert after[n] == entries[n];
  }

  lemma NothingAdmitted(entries: seq<Entry>, asset: Asset, mac: bool)
    ensures Admitted(entries, 0, asset, mac) && NamesSeen(entries, 0, {})
  {
  }

  /** A refused member refuses the archive. */
  lemma RefusedMember(entries: seq<Entry>, n: nat, asset: Asset, mac: bool)
    requires n <= |entries| && !Admitted(entries, n, asset, mac)
    ensures !Admitted(entries, |entries|, asset, mac)
  {
    hide EntryOk, NameOf, Fold;
    assert entries[..|entries|] == entries;
    assert forall k | 0 <= k < n :: entries[..n][k] == entries[k];
  }

  /** What one admitted member adds. */
  lemma CollectStep(entries: seq<Entry>, n: nat, asset: Asset, mac: bool, sha: Digest)
    requires n < |entries| && EntryOk(entries[n], asset, mac)
    ensures var e := entries[n];
            (IsDir(e) || e.content.Some?)
            && FilesOf(entries[..n + 1], sha) == (if IsDir(e) then FilesOf(entries[..n], sha)
                else FilesOf(entries[..n], sha)[NameOf(e) := Stored(sha(e.content.value), e.size)])
            && DirsOf(entries[..n + 1])
               == DirsOf(entries[..n]) + (if IsDir(e) then {NameOf(e)} else {}) + Parents(NameOf(e))
  {
    hide SafeName, Parents;
    assert entries[..n + 1][..n] == entries[..n];
  }

  /** The tests the loop makes on one member. */
  method CheckEntry(e: Entry, asset: Asset, mac: bool, names: set<Path>) returns (r: Option<Path>)
    ensures r.Some? <==> (EntryOk(e, asset, mac) && Fold(NameOf(e)) !in names)
    ensures r.Some? ==> r.value == NameOf(e)
  {
    hide Fold, SafeName, OnPlatform;
    if e.original != e.name { return None; }
    var safe := SafeName(e.name);
    if safe.None? { return None; }
    var name := safe.value;
    if Fold(name) in names { return None; }
    if e.kind != Unset && e.kind != (if IsDir(e) then DirectoryKind else RegularKind) { return None; }
    if e.encrypted || !e.supported { return None; }
    if !OnPlatform(name, IsDir(e), asset, mac) { return None; }
    if IsDir(e) && e.size != 0 { return None; }
    if !IsDir(e) && e.content.None? { return None; }
    return Some(name);
  }

  lemma DisjointIff(a: set<Path>, b: set<Path>)
    ensures a * b == {} <==> a !! b
  {
    if a * b == {} {
      forall p | p in a ensures p !in b { assert p !in a * b; }
    }
  }

  /** The tests on the finished inventory. */
  method CheckManifest(m: Manifest, asset: Asset, mac: bool) returns (ok: bool)
    ensures ok <==> ManifestOk(m, asset, mac)
  {
    hide Fold, FoldApart, BundleComplete;
    DisjointIff(m.files.Keys, m.directories);
    if m.files.Keys * m.directories != {} { return false; }
    var all := m.files.Keys + m.directories;
    FoldCount(all);
    var folded := set p | p in all :: Fold(p);
    assert folded == FoldImage(all);
    if |folded| != |all| { return false; }
    if asset.executable !in m.files || m.files[asset.executable].digest != asset.executableSha { return false; }
    return !mac || BundleComplete(m.files);
  }

  /** `inventory`: the manifest of an admitted archive; every refusal is `None`. */
  method Inventory(entries: seq<Entry>, asset: Asset, mac: bool, sha: Digest) returns (r: Option<Manifest>)
    ensures r.Some? <==> Acceptable(entries, asset, mac, sha)
    ensures r.Some? ==> r.value == ManifestOf(entries, sha)
  {
    hide Fold, EntryOk, EntriesOk, DistinctNames, NamesSeen, ManifestOk;
    var total := SumSizes(entries);
    if |entries| == 0 || |entries| > MAX_ENTRIES || total > MAX_BYTES { return None; }
    var files: map<Path, Stored>, directories: set<Path>, names: set<Path> := map[], {}, {};
    NothingAdmitted(entries, asset, mac);
    for i := 0 to |entries|
      invariant Admitted(entries, i, asset, mac) && NamesSeen(entries, i, names)
      invariant files == FilesOf(entries[..i], sha) && directories == DirsOf(entries[..i])
    {
      var e := entries[i];
      AdmittedStep(entries, i, asset, mac, names);
      var name := CheckEntry(e, asset, mac, names);
      if name.None? {
        RefusedMember(entries, i + 1, asset, mac);
        assert entries[..|entries|] == entries;
        return None;
      }
      names := names + {Fold(name.value)};
      CollectStep(entries, i, asset, mac, sha);
      if IsDir(e) {
        directories := directories + {name.value};
      } else {
        files := files[name.value := Stored(sha(e.content.value), e.size)];
      }
      directories := directories + Parents(name.value);
    }
    assert entries[..|entries|] == entries;
    var m := Manifest(files, directories);
    var ok := CheckManifest(m, asset, mac);
    return if ok then Some(m) else None;
  }

  // ---- What an admitted manifest is ----------------------------------------------------------

  /** Every ancestor of a file or directory is a directory of the manifest. */
  ghost predicate ClosedUpward(m: Manifest) {
    forall p | p in m.files.Keys + m.directories :: Parents(p) <= m.directories
  }

  ghost predicate AllNamed(m: Manifest) { [] !in m.files && [] !in m.directories }

  lemma ParentsNested(p: Path, q: Path)
    requires q in Parents(p)
    ensures Parents(q) <= Parents(p) && q != []
  {
    forall d | d in Parents(q) ensures d in Parents(p) {
      assert d == p[..|d|];
    }
  }

  lemma {:induction false} ManifestClosed(entries: seq<Entry>, sha: Digest)
    ensures ClosedUpward(ManifestOf(entries, sha))
  {
    hide Parents;
    if entries != [] {
      var front, e := entries[..|entries| - 1], entries[|entries| - 1];
      ManifestClosed(front, sha);
      forall d | d in Parents(NameOf(e)) ensures Parents(d) <= Parents(NameOf(e)) {
        ParentsNested(NameOf(e), d);
      }
      assert ClosedUpward(ManifestOf(front, sha));
    }
  }

  lemma {:induction false} ManifestNamed(entries: seq<Entry>, asset: Asset, mac: bool, sha: Digest)
    requires EntriesOk(entries, asset, mac)
    ensures AllNamed(ManifestOf(entries, sha))
  {
    hide OnPlatform;
    if entries != [] {
      var front, e := entries[..|entries| - 1], entries[|entries| - 1];
      assert EntryOk(e, asset, mac);
      SafeNameIff(e.name, NameOf(e));
      ManifestNamed(front, asset, mac, sha);
    }
  }

  /** The bytes of each file of the archive. */
  function ContentsOf(entries: seq<Entry>): map<Path, Bytes> {
    if entries == [] then map[]
    else
      var e := entries[|entries| - 1];
      var rest := ContentsOf(entries[..|entries| - 1]);
      if IsDir(e) || e.content.None? then rest else rest[NameOf(e) := e.content.value]
  }

  /** What a file of the manifest promises about the bytes of that name. */
  ghost predicate Promises(m: Manifest, contents: map<Path, Bytes>, p: Path, sha: Digest) {
    p in m.files && p in contents && m.files[p].digest == sha(contents[p])
  }

  lemma {:induction false} ManifestPromises(entries: seq<Entry>, sha: Digest)
    ensures FilesOf(entries, sha).Keys == ContentsOf(entries).Keys
    ensures forall p | p in FilesOf(entries, sha) :: Promises(ManifestOf(entries, sha), ContentsOf(entries), p, sha)
  {
    hide NameOf;
    if entries != [] { ManifestPromises(entries[..|entries| - 1], sha); }
  }

  /**
   * Each path is listed once, under one spelling of case, as a file with contents or a directory,
   * and every ancestor of what is listed is listed as a directory.
   */
  ghost predicate Buildable(m: Manifest, contents: map<Path, Bytes>) {
    ClosedUpward(m) && AllNamed(m) && m.files.Keys !! m.directories && FoldApart(m.files.Keys + m.directories)
    && contents.Keys == m.files.Keys
  }

  /**
   * Each file's digest is that of the bytes the archive holds under that name, the executable's
   * being the locked one.
   */
  ghost predicate SoundManifest(m: Manifest, contents: map<Path, Bytes>, asset: Asset, sha: Digest) {
    Buildable(m, contents) && (forall p | p in m.files :: Promises(m, contents, p, sha))
    && asset.executable in contents && sha(contents[asset.executable]) == asset.executableSha
  }

  lemma AcceptedIsSound(entries: seq<Entry>, asset: Asset, mac: bool, sha: Digest)
    requires Acceptable(entries, asset, mac, sha)
    ensures SoundManifest(ManifestOf(entries, sha), ContentsOf(entries), asset, sha)
  {
    hide Parents, FoldApart, ClosedUpward, AllNamed, EntriesOk, DistinctNames, FilesOf, ContentsOf;
    ManifestClosed(entries, sha);
    ManifestNamed(entries, asset, mac, sha);
    ManifestPromises(entries, sha);
    assert Promises(ManifestOf(entries, sha), ContentsOf(entries), asset.executable, sha);
  }

  // ---- The tree on disk ----------------------------------------------------------------------

  datatype Node = Directory | File(bytes: Bytes, executable: bool) | Special

  type Tree = map<Path, Node>

  /** Whether the file system takes two names for one; `anyCase` ignores case. */
  predicate Same(p: Path, q: Path, anyCase: bool) { p == q || (anyCase && Fold(p) == Fold(q)) }

  predicate Taken(t: Tree, p: Path, anyCase: bool) { exists q :: q in t && Same(q, p, anyCase) }

  /** The directory a path is created in exists; the root always does. */
  predicate HasParent(t: Tree, p: Path, anyCase: bool)
    requires p != []
  {
    |p| == 1 || exists q :: q in t && Same(q, p[..|p| - 1], anyCase) && t[q] == Directory
  }

  /** `mkdir` and exclusive creation: refused without a parent or on an existing name. */
  function Create(t: Tree, p: Path, node: Node, anyCase: bool): Option<Tree>
    requires p != []
  {
    if Taken(t, p, anyCase) || !HasParent(t, p, anyCase) then None else Some(t[p := node])
  }

  /** The tree the archive describes. */
  function TreeOf(m: Manifest, contents: map<Path, Bytes>, executable: Path): Tree
    requires m.files.Keys <= contents.Keys
  {
    map p | p in m.files.Keys + m.directories ::
      if p in m.directories then Directory else File(contents[p], p == executable)
  }

  /** Directories by depth, as `sorted(..., key=(count of "/", name))` lists them. */
  ghost predicate ByDepth(order: seq<Path>) { forall i, j | 0 <= i < j < |order| :: |order[i]| <= |order[j]| }

  ghost predicate Lists(order: seq<Path>, s: set<Path>) {
    (forall p :: p in s <==> p in order) && forall i, j | 0 <= i < j < |order| :: order[i] != order[j]
  }

  function Take(t: Tree, s: set<Path>): Tree { map p | p in t && p in s :: t[p] }

  ghost function Firsts(order: seq<Path>, n: nat): set<Path>
    requires n <= |order|
  {
    set k | 0 <= k < n :: order[k]
  }

  /** A path whose parent is already there, and whose name no other spelling uses, can be created. */
  lemma CreateSucceeds(whole: Tree, done: set<Path>, p: Path, anyCase: bool)
    requires FoldApart(whole.Keys) && p in whole && p !in done && p != []
    requires |p| == 1 || (p[..|p| - 1] in whole && p[..|p| - 1] in done && whole[p[..|p| - 1]] == Directory)
    ensures Create(Take(whole, done), p, whole[p], anyCase) == Some(Take(whole, done + {p}))
  {
    hide Fold;
    var t := Take(whole, done);
    assert forall q | q in t && Same(q, p, anyCase) :: q == p;
    assert !Taken(t, p, anyCase);
    assert HasParent(t, p, anyCase) by {
      if |p| > 1 {
        var parent := p[..|p| - 1];
        assert parent in t && Same(parent, parent, anyCase) && t[parent] == Directory;
      }
    }
    assert t[p := whole[p]] == Take(whole, done + {p});
  }

  /** In depth order the parent of a directory comes before it. */
  lemma ParentEarlier(m: Manifest, order: seq<Path>, i: nat)
    requires ClosedUpward(m) && ByDepth(order) && Lists(order, m.directories) && i < |order| && |order[i]| > 1
    ensures order[i][..|order[i]| - 1] in Firsts(order, i)
  {
    var p := order[i];
    var parent := p[..|p| - 1];
    assert parent in Parents(p);
    var j :| 0 <= j < |order| && order[j] == parent;
    assert j < i;
  }

  lemma DirectoryStep(m: Manifest, contents: map<Path, Bytes>, executable: Path, order: seq<Path>, i: nat,
                      anyCase: bool)
    requires Buildable(m, contents) && ByDepth(order) && Lists(order, m.directories) && i < |order|
    ensures order[i] != []
    ensures var whole := TreeOf(m, contents, executable);
            Create(Take(whole, Firsts(order, i)), order[i], Directory, anyCase)
            == Some(Take(whole, Firsts(order, i + 1)))
  {
    hide FoldApart, ByDepth, Create, Same, Fold, Take;
    var p := order[i];
    if |p| > 1 {
      ParentEarlier(m, order, i);
      assert p[..|p| - 1] in Parents(p);
    }
    var whole := TreeOf(m, contents, executable);
    assert whole.Keys == m.files.Keys + m.directories;
    CreateSucceeds(whole, Firsts(order, i), p, anyCase);
    assert Firsts(order, i) + {p} == Firsts(order, i + 1);
  }

  lemma FileStep(m: Manifest, contents: map<Path, Bytes>, executable: Path, order: seq<Path>, i: nat, anyCase: bool)
    requires Buildable(m, contents) && Lists(order, m.files.Keys) && i < |order|
    ensures order[i] != [] && order[i] in contents
    ensures var whole := TreeOf(m, contents, executable);
            Create(Take(whole, m.directories + Firsts(order, i)), order[i],
                   File(contents[order[i]], order[i] == executable), anyCase)
            == Some(Take(whole, m.directories + Firsts(order, i + 1)))
  {
    hide FoldApart, Create, Same, Fold, Take;
    var p := order[i];
    if |p| > 1 { assert p[..|p| - 1] in Parents(p); }
    var whole := TreeOf(m, contents, executable);
    assert whole.Keys == m.files.Keys + m.directories;
    CreateSucceeds(whole, m.directories + Firsts(order, i), p, anyCase);
    assert m.directories + Firsts(order, i) + {p} == m.directories + Firsts(order, i + 1);
  }

  /** The extraction of `prepare`: directories by depth, then files, each created exclusively. */
  method BuildTree(m: Manifest, contents: map<Path, Bytes>, executable: Path, order: seq<Path>, fileOrder: seq<Path>,
                   anyCase: bool) returns (r: Option<Tree>)
    requires Buildable(m, contents)
    requires ByDepth(order) && Lists(order, m.directories) && Lists(fileOrder, m.files.Keys)
    ensures r == Some(TreeOf(m, contents, executable))
  {
    hide FoldApart, ClosedUpward, ByDepth, Create, Same, Fold;
    ghost var whole := TreeOf(m, contents, executable);
    var t: Tree := map[];
    assert t == Take(whole, Firsts(order, 0));
    for i := 0 to |order|
      invariant t == Take(whole, Firsts(order, i))
    {
      var p := order[i];
      DirectoryStep(m, contents, executable, order, i, anyCase);
      var next := Create(t, p, Directory, anyCase);
      if next.None? { return None; }
      t := next.value;
    }
    assert Firsts(order, |order|) == m.directories;
    assert Take(whole, m.directories) == Take(whole, m.directories + Firsts(fileOrder, 0));
    for i := 0 to |fileOrder|
      invariant t == Take(whole, m.directories + Firsts(fileOrder, i))
    {
      var p := fileOrder[i];
      FileStep(m, contents, executable, fileOrder, i, anyCase);
      var next := Create(t, p, File(contents[p], p == executable), anyCase);
      if next.None? { return None; }
      t := next.value;
    }
    assert m.directories + Firsts(fileOrder, |fileOrder|) == whole.Keys;
    assert Take(whole, whole.Keys) == whole;
    return Some(t);
  }

  // ---- Checking a tree -----------------------------------------------------------------------

  /** The tree holds exactly the manifest's paths, each of its kind, with its digest and its size. */
  ghost predicate TreeMatches(t: Tree, m: Manifest, sha: Digest) {
    t.Keys == m.files.Keys + m.directories && forall p | p in t :: NodeMatches(t[p], p, m, sha)
  }

  predicate NodeMatches(n: Node, p: Path, m: Manifest, sha: Digest) {
    match n
    case Directory => p in m.directories
    case File(bytes, _) => p in m.files && m.files[p] == Stored(sha(bytes), |bytes|)
    case Special => false
  }

  predicate Runnable(t: Tree, executable: Path) {
    executable in t && (t[executable] == Directory || (t[executable].File? && t[executable].executable))
  }

  /** What `verify_tree` demands; `posix` systems also demand the executable bit. */
  ghost predicate TreeOk(t: Option<Tree>, m: Manifest, executable: Path, posix: bool, sha: Digest) {
    t.Some? && TreeMatches(t.value, m, sha) && (posix ==> Runnable(t.value, executable))
  }

  /**
   * `verify_tree`: one pass over the walk, in whatever order the file system lists the tree; an
   * absent `t` is a missing or linked root.
   */
  method VerifyTree(t: Option<Tree>, walk: seq<Path>, m: Manifest, executable: Path, posix: bool, sha: Digest)
    returns (ok: bool)
    requires t.Some? ==> forall p :: p in t.value <==> p in walk
    requires m.files.Keys !! m.directories
    ensures ok <==> TreeOk(t, m, executable, posix, sha)
  {
    if t.None? { return false; }
    var tree := t.value;
    var seenFiles: set<Path>, seenDirs: set<Path> := {}, {};
    for i := 0 to |walk|
      invariant seenFiles + seenDirs == Firsts(walk, i) && seenFiles <= m.files.Keys && seenDirs <= m.directories
      invariant forall k | 0 <= k < i :: NodeMatches(tree[walk[k]], walk[k], m, sha)
    {
      var p := walk[i];
      assert p in walk;
      match tree[p] {
        case Directory =>
          if p !in m.directories { return false; }
          seenDirs := seenDirs + {p};
        case File(bytes, _) =>
          if p !in m.files || m.files[p] != Stored(sha(bytes), |bytes|) { return false; }
          seenFiles := seenFiles + {p};
        case Special =>
          return false;
      }
    }
    assert Firsts(walk, |walk|) == tree.Keys;
    if seenFiles != m.files.Keys || seenDirs != m.directories { return false; }
    return !posix || Runnable(tree, executable);
  }

  /** The archive's declared sizes are the sizes of its files. */
  ghost predicate SizesRight(m: Manifest, contents: map<Path, Bytes>) {
    forall p | p in m.files && p in contents :: m.files[p].size == |contents[p]|
  }

  /** What was built from a sound archive passes the check iff the archive declared its true sizes. */
  lemma BuiltTreeVerifies(m: Manifest, contents: map<Path, Bytes>, asset: Asset, posix: bool, sha: Digest)
    requires SoundManifest(m, contents, asset, sha)
    ensures TreeOk(Some(TreeOf(m, contents, asset.executable)), m, asset.executable, posix, sha)
            <==> SizesRight(m, contents)
  {
    hide ClosedUpward, AllNamed, FoldApart;
    var t := TreeOf(m, contents, asset.executable);
    assert t.Keys == m.files.Keys + m.directories;
    if SizesRight(m, contents) {
      forall p | p in t ensures NodeMatches(t[p], p, m, sha) {
        if p in m.files { assert Promises(m, contents, p, sha); }
      }
    }
    if TreeMatches(t, m, sha) {
      forall p | p in m.files && p in contents ensures m.files[p].size == |contents[p]| {
        assert NodeMatches(t[p], p, m, sha);
      }
    }
  }
}
