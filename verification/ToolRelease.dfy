/** The checks `scripts/acquire-pluginval.py` publishes a locked tool by. */
module ToolRelease {
  import opened ToolTree
  import opened Publication
  import opened Wrappers

  /** The locked asset, and the digest and archive formats. */
  datatype Lock = Lock(asset: Asset, mac: bool, posix: bool, sha: Digest, unzip: Bytes -> Option<seq<Entry>>)

  /** `verify_archive` */
  predicate LockedArchive(lock: Lock, bytes: Bytes) {
    lock.sha(bytes) == lock.asset.sha256 && |bytes| == lock.asset.bytes
  }

  /** `inventory` of an archive that opens. */
  function LockedInventory(lock: Lock, bytes: Bytes): Option<Manifest> {
    var entries := lock.unzip(bytes);
    if entries.Some? && Acceptable(entries.value, lock.asset, lock.mac, lock.sha)
    then Some(ManifestOf(entries.value, lock.sha))
    else None
  }

  ghost function ChecksOf(lock: Lock): Checks {
    Checks(bytes => LockedArchive(lock, bytes), bytes => LockedInventory(lock, bytes),
           (t, m) => TreeOk(t, m, lock.asset.executable, lock.posix, lock.sha))
  }

  /** The archive's digest and its size are the locked ones. */
  predicate LockedBytes(lock: Lock, archive: Option<Bytes>) {
    archive.Some? && lock.sha(archive.value) == lock.asset.sha256 && |archive.value| == lock.asset.bytes
  }

  /**
   * Of a verified tool the archive has the locked digest and size, and the path `prepare` returns is a file of
   * the locked bytes.
   */
  lemma VerifiedExecutable(lock: Lock, pack: Pack)
    requires Verified(ChecksOf(lock), pack)
    ensures LockedBytes(lock, pack.archive)
    ensures pack.tree.Some? && lock.asset.executable in pack.tree.value
    ensures LockedFile(lock, pack.tree.value[lock.asset.executable])
  {
    hide EntriesOk, DistinctNames, FilesOf, DirsOf, FoldApart;
    var m := ManifestIn(ChecksOf(lock), pack);
    assert NodeMatches(pack.tree.value[lock.asset.executable], lock.asset.executable, m, lock.sha);
  }

  predicate LockedFile(lock: Lock, node: Node) {
    node.File? && lock.sha(node.bytes) == lock.asset.executableSha && (lock.posix ==> node.executable)
  }

  /**
   * Whoever returned a path, under any interleaving and from any beginning, finds at that path, at
   * any later time, an executable with the locked digest, beside an archive of the locked digest and size.
   */
  lemma ReturnedToolIsLocked(lock: Lock, w: World, run: Run, p: nat)
    requires Initial(w)
    requires p in After(ChecksOf(lock), w, run).phases && After(ChecksOf(lock), w, run).phases[p].Returned?
    ensures var now := After(ChecksOf(lock), w, run);
            now.target.Some? && LockedBytes(lock, now.target.value.archive) && now.target.value.tree.Some?
            && lock.asset.executable in now.target.value.tree.value
            && LockedFile(lock, now.target.value.tree.value[lock.asset.executable])
  {
    hide Verified, Apply, ChecksOf, LockedFile, LockedBytes;
    PublicationIsSafe(ChecksOf(lock), w, run, p);
    VerifiedExecutable(lock, After(ChecksOf(lock), w, run).target.value);
  }

  /**
   * An archive just fetched passes iff it has the locked digest and the locked size; any other ends the
   * invocation, which publishes nothing and leaves no stage.
   */
  lemma FetchedArchiveIff(lock: Lock, w: World, p: nat)
    requires p in w.phases && w.phases[p].Fetching? && p in w.stages
    ensures var now := Apply(ChecksOf(lock), w, p, CheckArchive);
            now.target == w.target
            && (if LockedBytes(lock, w.stages[p].archive)
                then now.phases == w.phases[p := Opened] && now.stages == w.stages
                else now.phases == w.phases[p := Raised] && now.stages == w.stages - {p})
  {
  }

  /**
   * What stands at the final path already is looked into iff its archive has the locked digest and the locked
   * size; any other ends the invocation, and stays.
   */
  lemma CachedArchiveIff(lock: Lock, w: World, p: nat)
    requires p in w.phases && w.phases[p].Rechecking? && w.target.Some?
    ensures var now := Apply(ChecksOf(lock), w, p, Recheck);
            now.target == w.target
            && now.phases[p] == if LockedBytes(lock, w.target.value.archive) then Reopened else Raised
  {
  }

  /** The archive is the locked one, is admitted, and declares its true sizes. */
  ghost predicate Genuine(lock: Lock, bytes: Bytes) {
    LockedArchive(lock, bytes) && LockedInventory(lock, bytes).Some?
    && SizesRight(LockedInventory(lock, bytes).value, ContentsOf(lock.unzip(bytes).value))
  }

  /** The tree `BuildTree` extracts. */
  ghost function Extracted(lock: Lock, bytes: Bytes): Tree
    requires Genuine(lock, bytes)
  {
    var entries := lock.unzip(bytes).value;
    ManifestPromises(entries, lock.sha);
    TreeOf(ManifestOf(entries, lock.sha), ContentsOf(entries), lock.asset.executable)
  }

  lemma ExtractedVerifies(lock: Lock, bytes: Bytes)
    requires Genuine(lock, bytes)
    ensures Verified(ChecksOf(lock), Pack(Some(bytes), Some(Extracted(lock, bytes))))
  {
    hide Acceptable, TreeOk, TreeOf, SoundManifest, SizesRight, ManifestOf, ContentsOf;
    var entries := lock.unzip(bytes).value;
    AcceptedIsSound(entries, lock.asset, lock.mac, lock.sha);
    BuiltTreeVerifies(ManifestOf(entries, lock.sha), ContentsOf(entries), lock.asset, lock.posix, lock.sha);
  }

  /** An undisturbed invocation that fetches the genuine archive publishes exactly its tree. */
  lemma GenuinePublishes(lock: Lock, w: World, p: nat, bytes: Bytes)
    requires w.target.None? && p !in w.phases && Genuine(lock, bytes)
    ensures var tree := Some(Extracted(lock, bytes));
            After(ChecksOf(lock), w, Solo(p, [Start, Look, MakeStage, Fetch(bytes), CheckArchive, List, Write(tree),
                                              CheckTree, Rename(false)]))
            == World(Some(Pack(Some(bytes), tree)), w.stages - {p}, w.phases[p := Returned])
  {
    hide Genuine, Extracted, ChecksOf, After, Verified, Solo;
    ExtractedVerifies(lock, bytes);
    UndisturbedPublishes(ChecksOf(lock), w, p, bytes, Some(Extracted(lock, bytes)));
  }
}
