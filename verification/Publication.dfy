/** How `prepare` of `scripts/acquire-pluginval.py` publishes a tool. */
module Publication {
  import opened ToolTree
  import opened Wrappers

  // ---- What is published --------------------------------------------------------------------

  /** A stage or the final directory: the archive and the extracted tree, as far as written. */
  datatype Pack = Pack(archive: Option<Bytes>, tree: Option<Tree>)

  /**
   * What an invocation checks: `verify_archive` on the archive's bytes, the inventory of an archive
   * that opens and is admitted, and `verify_tree` on a tree.
   */
  datatype Checks = Checks(archiveOk: Bytes -> bool, inventory: Bytes -> Option<Manifest>,
                           treeOk: (Option<Tree>, Manifest) -> bool)

  predicate ArchiveOk(checks: Checks, pack: Pack) { pack.archive.Some? && checks.archiveOk(pack.archive.value) }

  predicate InventoryOk(checks: Checks, pack: Pack) {
    pack.archive.Some? && checks.inventory(pack.archive.value).Some?
  }

  function ManifestIn(checks: Checks, pack: Pack): Manifest
    requires InventoryOk(checks, pack)
  {
    checks.inventory(pack.archive.value).value
  }

  predicate TreeVerified(checks: Checks, pack: Pack, m: Manifest) { checks.treeOk(pack.tree, m) }

  /** A complete tool: an archive that passes, and a tree that passes against its inventory. */
  predicate Verified(checks: Checks, pack: Pack) {
    ArchiveOk(checks, pack) && InventoryOk(checks, pack) && TreeVerified(checks, pack, ManifestIn(checks, pack))
  }

  // ---- The world and its steps ----------------------------------------------------------------

  // Any number of invocations, each staging privately, checking, and renaming into one
  // content-addressed path; their steps are interleaved in any order, and each may die at any point.

  /** Where one invocation stands. A phase from `Fetching` to `Lost` owns a stage. */
  datatype Phase =
    | Starting
    | Absent
    | Fetching
    | Opened
    | Extracting(manifest: Manifest)
    | Ready
    | Lost
    | Rechecking
    | Reopened
    | Returned
    | Raised
    | Killed

  datatype World = World(target: Option<Pack>, stages: map<nat, Pack>, phases: map<nat, Phase>)

  /** One atomic step of an invocation; the environment chooses what is fetched, written or fails. */
  datatype Action =
    | Start
    | Look
    | MakeStage
    | Fetch(bytes: Bytes)
    | CheckArchive
    | List
    | Write(tree: Option<Tree>)
    | CheckTree
    | Rename(fault: bool)
    | LookAgain
    | Recheck
    | RecheckTree
    | Fault
    | Kill

  const EMPTY: Pack := Pack(None, None)

  /** `rename` of a directory onto `target`: POSIX lets it replace an empty directory, nothing else. */
  predicate RenameAllowed(target: Option<Pack>) { target.None? || target.value == EMPTY }

  /** The invocation goes on in another phase. */
  function Goto(w: World, p: nat, phase: Phase): World { w.(phases := w.phases[p := phase]) }

  /** The invocation ends; its `finally` removes the stage. */
  function Finish(w: World, p: nat, phase: Phase): World {
    w.(stages := w.stages - {p}, phases := w.phases[p := phase])
  }

  predicate Ended(phase: Phase) { phase.Returned? || phase.Raised? || phase.Killed? }

  /** What an action does; an action that is not enabled does nothing. */
  ghost function Apply(checks: Checks, w: World, p: nat, a: Action): World {
    if a.Start? then
      if p in w.phases then w else Goto(w, p, Starting)
    else if p !in w.phases || Ended(w.phases[p]) then w
    else if a.Kill? then Goto(w, p, Killed)
    else if a.Fault? then Finish(w, p, Raised)
    else
      match w.phases[p]
      case Starting =>
        if a.Look? then Goto(w, p, if w.target.Some? then Rechecking else Absent) else w
      case Absent =>
        if a.MakeStage? then Goto(w.(stages := w.stages[p := EMPTY]), p, Fetching) else w
      case Rechecking =>
        if !a.Recheck? then w
        else if w.target.Some? && ArchiveOk(checks, w.target.value) then Goto(w, p, Reopened)
        else Finish(w, p, Raised)
      case Reopened =>
        if !a.RecheckTree? then w else Finish(w, p, Outcome(checks, w.target))
      case phase =>
        if p in w.stages then Stage(checks, w, p, phase, a, w.stages[p]) else w
  }

  /** What `cached_tool` concludes from the target once its archive has passed. */
  ghost function Outcome(checks: Checks, target: Option<Pack>): Phase {
    if target.Some? && InventoryOk(checks, target.value)
       && TreeVerified(checks, target.value, ManifestIn(checks, target.value))
    then Returned
    else Raised
  }

  /** The steps an invocation takes on its own stage, up to the rename. */
  ghost function Stage(checks: Checks, w: World, p: nat, phase: Phase, a: Action, own: Pack): World {
    match (phase, a)
    case (Fetching, Fetch(bytes)) => w.(stages := w.stages[p := own.(archive := Some(bytes))])
    case (Fetching, CheckArchive) =>
      if ArchiveOk(checks, own) then Goto(w, p, Opened) else Finish(w, p, Raised)
    case (Opened, List) =>
      if InventoryOk(checks, own) then Goto(w, p, Extracting(ManifestIn(checks, own))) else Finish(w, p, Raised)
    case (Extracting(_), Write(tree)) => w.(stages := w.stages[p := own.(tree := tree)])
    case (Extracting(m), CheckTree) =>
      if TreeVerified(checks, own, m) then Goto(w, p, Ready) else Finish(w, p, Raised)
    case (Ready, Rename(fault)) =>
      if !fault && RenameAllowed(w.target) then Finish(w.(target := Some(own)), p, Returned)
      else Goto(w, p, Lost)
    case (Lost, LookAgain) => if w.target.Some? then Goto(w, p, Rechecking) else Finish(w, p, Raised)
    case _ => w
  }

  /** A run: which invocation takes which step, in order. */
  type Run = seq<(nat, Action)>

  ghost function After(checks: Checks, w: World, run: Run): World {
    if run == [] then w
    else
      var last := run[|run| - 1];
      Apply(checks, After(checks, w, run[..|run| - 1]), last.0, last.1)
  }

  /** Nothing has started; the final path holds whatever an earlier run, or a fault, left there. */
  ghost predicate Initial(w: World) { w.stages == map[] && w.phases == map[] }

  // ---- The invariant ------------------------------------------------------------------------

  predicate Staging(phase: Phase) {
    phase.Fetching? || phase.Opened? || phase.Extracting? || phase.Ready? || phase.Lost?
  }

  /** What a stage must have passed for its owner to be where it is. */
  ghost predicate StageOk(checks: Checks, phase: Phase, own: Pack) {
    match phase
    case Opened => ArchiveOk(checks, own)
    case Extracting(m) => ArchiveOk(checks, own) && InventoryOk(checks, own) && m == ManifestIn(checks, own)
    case Ready => Verified(checks, own)
    case _ => true
  }

  /**
   * One invocation, seen beside the target: it owns a stage when its phase says so, and a phase
   * that has seen the target, checked its archive or returned says the same of the target.
   */
  ghost predicate Fits(checks: Checks, w: World, p: nat, phase: Phase) {
    (Staging(phase) ==> p in w.stages && StageOk(checks, phase, w.stages[p]))
    && (phase.Rechecking? ==> w.target.Some?)
    && (phase.Reopened? ==> w.target.Some? && ArchiveOk(checks, w.target.value))
    && (phase.Returned? ==> w.target.Some? && Verified(checks, w.target.value))
  }

  /** Every stage left belongs to an invocation still at work or killed. */
  ghost predicate StagesOwned(w: World) {
    forall p | p in w.stages :: p in w.phases && !w.phases[p].Returned? && !w.phases[p].Raised?
  }

  ghost predicate AllFit(checks: Checks, w: World) { forall p | p in w.phases :: Fits(checks, w, p, w.phases[p]) }

  /** Whoever found a target never stages beside it. */
  ghost predicate NobodyStages(w: World) {
    forall p | p in w.phases :: !w.phases[p].Absent? && !Staging(w.phases[p])
  }

  ghost predicate TargetOk(checks: Checks, start: Option<Pack>, target: Option<Pack>) {
    target == start || (start.None? && target.Some? && Verified(checks, target.value))
  }

  /** `start` is what the final path held at the beginning. */
  ghost predicate Safe(checks: Checks, start: Option<Pack>, w: World) {
    TargetOk(checks, start, w.target) && AllFit(checks, w) && StagesOwned(w) && (start.Some? ==> NobodyStages(w))
  }

  // ---- Every step keeps it --------------------------------------------------------------------

  /** A step moves `p` to `phase`, changes no other invocation and no other stage. */
  ghost predicate Moves(w: World, w': World, p: nat, phase: Phase) {
    w'.phases == w.phases[p := phase] && w'.stages - {p} == w.stages - {p}
  }

  /** A verified pack is not empty, so a rename cannot replace it. */
  lemma VerifiedBlocksRename(checks: Checks, pack: Pack)
    requires Verified(checks, pack)
    ensures !RenameAllowed(Some(pack))
  {
    hide InventoryOk, TreeVerified;
  }

  /** What the others rely on survives a step that leaves a present target alone. */
  lemma OthersFit(checks: Checks, w: World, w': World, p: nat, phase: Phase)
    requires AllFit(checks, w) && Moves(w, w', p, phase) && (w.target.Some? ==> w'.target == w.target)
    requires Fits(checks, w', p, phase)
    ensures AllFit(checks, w')
  {
    hide Verified, ArchiveOk, StageOk;
    forall q | q in w'.phases ensures Fits(checks, w', q, w'.phases[q]) {
      if q != p {
        assert Fits(checks, w, q, w.phases[q]);
        assert q in w.stages ==> q in w.stages - {p};
        assert q in w'.stages ==> (w'.stages - {p})[q] == w'.stages[q];
        assert q in w.stages ==> (w.stages - {p})[q] == w.stages[q];
      }
    }
  }

  /** What one step owes the invariant, the invocation taking it excepted nothing else. */
  ghost predicate GoodMove(checks: Checks, start: Option<Pack>, w: World, w': World, p: nat) {
    p in w'.phases && Moves(w, w', p, w'.phases[p]) && Fits(checks, w', p, w'.phases[p])
    && TargetOk(checks, start, w'.target) && (w.target.Some? ==> w'.target == w.target)
    && (p in w'.stages ==> !w'.phases[p].Returned? && !w'.phases[p].Raised?)
    && (start.Some? ==> !w'.phases[p].Absent? && !Staging(w'.phases[p]))
  }

  lemma StageStep(checks: Checks, w: World, p: nat, a: Action)
    requires Safe(checks, None, w) && p in w.phases && Staging(w.phases[p])
    ensures p in w.stages && GoodMove(checks, None, w, Stage(checks, w, p, w.phases[p], a, w.stages[p]), p)
  {
    hide ArchiveOk, InventoryOk, TreeVerified, ManifestIn, RenameAllowed;
    assert Fits(checks, w, p, w.phases[p]);
    if w.target.Some? { VerifiedBlocksRename(checks, w.target.value); }
    AbsentAllowsRename();
    if a.Write? { WriteKeepsArchive(checks, w.stages[p], a.tree); }
  }

  /** Extracting changes nothing of what the archive said. */
  lemma WriteKeepsArchive(checks: Checks, own: Pack, tree: Option<Tree>)
    ensures var pack := own.(tree := tree);
            ArchiveOk(checks, pack) == ArchiveOk(checks, own) && InventoryOk(checks, pack) == InventoryOk(checks, own)
            && (InventoryOk(checks, own) ==> ManifestIn(checks, pack) == ManifestIn(checks, own))
  {
  }

  lemma AbsentAllowsRename()
    ensures RenameAllowed(None)
  {
  }

  lemma ApplyMove(checks: Checks, start: Option<Pack>, w: World, p: nat, a: Action)
    requires Safe(checks, start, w)
    ensures Apply(checks, w, p, a) == w || GoodMove(checks, start, w, Apply(checks, w, p, a), p)
  {
    hide ArchiveOk, InventoryOk, TreeVerified, ManifestIn, Stage;
    if p in w.phases {
      assert Fits(checks, w, p, w.phases[p]);
      if Staging(w.phases[p]) { StageStep(checks, w, p, a); }
    }
  }

  lemma GoodMoveSafe(checks: Checks, start: Option<Pack>, w: World, w': World, p: nat)
    requires Safe(checks, start, w) && GoodMove(checks, start, w, w', p)
    ensures Safe(checks, start, w')
  {
    hide Fits, TargetOk, Staging;
    OthersFit(checks, w, w', p, w'.phases[p]);
    forall q | q in w'.stages ensures q in w'.phases && !w'.phases[q].Returned? && !w'.phases[q].Raised? {
      if q != p { assert q in w'.stages - {p} && q in w.stages; }
    }
  }

  /** The invariant survives every step, and a present target survives it unchanged. */
  lemma ApplySafe(checks: Checks, start: Option<Pack>, w: World, p: nat, a: Action)
    requires Safe(checks, start, w)
    ensures Safe(checks, start, Apply(checks, w, p, a))
    ensures w.target.Some? ==> Apply(checks, w, p, a).target == w.target
  {
    hide Apply, Safe;
    ApplyMove(checks, start, w, p, a);
    if Apply(checks, w, p, a) != w { GoodMoveSafe(checks, start, w, Apply(checks, w, p, a), p); }
  }

  // ---- Over every run -------------------------------------------------------------------------

  /** From any beginning, under any interleaving, every reachable world is safe. */
  lemma {:induction false} RunSafe(checks: Checks, w: World, run: Run)
    requires Initial(w)
    ensures Safe(checks, w.target, After(checks, w, run))
  {
    hide Apply, Fits;
    if run != [] {
      var last := run[|run| - 1];
      RunSafe(checks, w, run[..|run| - 1]);
      ApplySafe(checks, w.target, After(checks, w, run[..|run| - 1]), last.0, last.1);
    }
  }

  /** What is at the final path stays there, whatever happens next. */
  lemma {:induction false} NeverReplaced(checks: Checks, w: World, run: Run, n: nat)
    requires Initial(w) && n <= |run| && After(checks, w, run[..n]).target.Some?
    ensures After(checks, w, run).target == After(checks, w, run[..n]).target
    decreases |run|
  {
    hide Apply, Safe;
    if n == |run| {
      assert run[..n] == run;
    } else {
      var front, last := run[..|run| - 1], run[|run| - 1];
      assert front[..n] == run[..n];
      NeverReplaced(checks, w, front, n);
      RunSafe(checks, w, front);
      ApplySafe(checks, w.target, After(checks, w, front), last.0, last.1);
    }
  }

  /**
   * Publication is safe: where nothing was published before, the final path is absent or holds a
   * complete verified tool, and whoever returned, at any time and after whatever followed, returned
   * a path to one.
   */
  lemma PublicationIsSafe(checks: Checks, w: World, run: Run, p: nat)
    requires Initial(w)
    ensures var now := After(checks, w, run);
            (w.target.None? && now.target.Some? ==> Verified(checks, now.target.value))
            && (p in now.phases && now.phases[p].Returned? ==> now.target.Some? && Verified(checks, now.target.value))
  {
    hide Verified, Apply;
    RunSafe(checks, w, run);
    var now := After(checks, w, run);
    assert p in now.phases ==> Fits(checks, now, p, now.phases[p]);
  }

  /**
   * Who loses the race is not refused: where nothing was published before, the recheck of whatever
   * won never fails of itself.
   */
  lemma LoserIsAnswered(checks: Checks, w: World, run: Run, p: nat)
    requires Initial(w) && w.target.None? && p in After(checks, w, run).phases
    ensures var now := After(checks, w, run);
            (now.phases[p].Rechecking? ==> Apply(checks, now, p, Recheck).phases == now.phases[p := Reopened])
            && (now.phases[p].Reopened? ==> Apply(checks, now, p, RecheckTree).phases == now.phases[p := Returned])
  {
    hide ArchiveOk, InventoryOk, TreeVerified, ManifestIn, After;
    RunSafe(checks, w, run);
    var now := After(checks, w, run);
    assert Fits(checks, now, p, now.phases[p]);
  }

  /** A stage outlives its invocation only when the invocation was killed. */
  lemma NoStageLeaks(checks: Checks, w: World, run: Run)
    requires Initial(w)
    requires var now := After(checks, w, run);
             forall p | p in now.phases :: now.phases[p].Returned? || now.phases[p].Raised?
    ensures After(checks, w, run).stages == map[]
  {
    hide Apply, Fits;
    RunSafe(checks, w, run);
  }

  /** What was there before, damaged or not, is never overwritten. */
  lemma CacheIsKept(checks: Checks, w: World, run: Run)
    requires Initial(w) && w.target.Some?
    ensures After(checks, w, run).target == w.target
  {
    hide Apply;
    assert run[..0] == [];
    NeverReplaced(checks, w, run, 0);
  }

  // ---- One invocation alone -------------------------------------------------------------------

  lemma AfterNext(checks: Checks, w: World, run: Run, p: nat, a: Action)
    ensures After(checks, w, run + [(p, a)]) == Apply(checks, After(checks, w, run), p, a)
  {
    hide Apply;
    assert (run + [(p, a)])[..|run|] == run;
  }

  /** The actions of one invocation in order. */
  ghost function Solo(p: nat, actions: seq<Action>): Run {
    seq(|actions|, k requires 0 <= k < |actions| => (p, actions[k]))
  }

  /** One more step of a lone invocation. */
  lemma SoloNext(checks: Checks, w: World, p: nat, before: seq<Action>, a: Action, all: seq<Action>, now: World)
    requires all == before + [a] && Apply(checks, After(checks, w, Solo(p, before)), p, a) == now
    ensures After(checks, w, Solo(p, all)) == now
  {
    hide Apply;
    assert Solo(p, all) == Solo(p, before) + [(p, a)];
    AfterNext(checks, w, Solo(p, before), p, a);
  }

  lemma Starts(checks: Checks, w: World, p: nat)
    requires p !in w.phases
    ensures After(checks, w, Solo(p, [Start, Look]))
            == Goto(w, p, if w.target.Some? then Rechecking else Absent)
  {
    assert Solo(p, []) == [];
    SoloNext(checks, w, p, [], Start, [Start], Goto(w, p, Starting));
    var next := if w.target.Some? then Rechecking else Absent;
    assert w.phases[p := Starting][p := next] == w.phases[p := next];
    SoloNext(checks, w, p, [Start], Look, [Start, Look], Goto(w, p, next));
  }

  lemma RecheckApplies(checks: Checks, w: World, p: nat)
    requires w.target.Some? && p !in w.phases
    ensures var now := Apply(checks, Goto(w, p, Rechecking), p, Recheck);
            now.target == w.target && p in now.phases
            && now.phases[p] == if ArchiveOk(checks, w.target.value) then Reopened else Raised
  {
    hide ArchiveOk;
  }

  lemma RecheckTreeApplies(checks: Checks, w: World, p: nat)
    requires w.target.Some? && p in w.phases && (w.phases[p].Reopened? || w.phases[p].Raised?)
    ensures var now := Apply(checks, w, p, RecheckTree);
            now.target == w.target && p in now.phases
            && now.phases[p] == if w.phases[p].Raised? then Raised else Outcome(checks, w.target)
  {
    hide Outcome;
  }

  /**
   * An invocation that finds the path occupied answers with it iff it holds a complete verified
   * tool, and fails otherwise.
   */
  lemma CachedToolIff(checks: Checks, w: World, p: nat)
    requires w.target.Some? && p !in w.phases
    ensures var now := After(checks, w, Solo(p, [Start, Look, Recheck, RecheckTree]));
            now.target == w.target && p in now.phases
            && now.phases[p] == if Verified(checks, w.target.value) then Returned else Raised
  {
    hide ArchiveOk, InventoryOk, TreeVerified, ManifestIn, Apply, After, Solo;
    Starts(checks, w, p);
    RecheckApplies(checks, w, p);
    var w3 := Apply(checks, Goto(w, p, Rechecking), p, Recheck);
    SoloNext(checks, w, p, [Start, Look], Recheck, [Start, Look, Recheck], w3);
    RecheckTreeApplies(checks, w3, p);
    SoloNext(checks, w, p, [Start, Look, Recheck], RecheckTree, [Start, Look, Recheck, RecheckTree],
             Apply(checks, w3, p, RecheckTree));
  }

  /** `w` as it was, except that `p` is in `phase` with `own` as its stage. */
  ghost function Working(w: World, p: nat, own: Pack, phase: Phase): World {
    World(w.target, w.stages[p := own], w.phases[p := phase])
  }

  lemma MakeStageApplies(checks: Checks, w: World, p: nat)
    ensures Apply(checks, Goto(w, p, Absent), p, MakeStage) == Working(w, p, EMPTY, Fetching)
  {
    assert w.phases[p := Absent][p := Fetching] == w.phases[p := Fetching];
  }

  /** A step on the stage itself. */
  lemma StageApplies(checks: Checks, w: World, p: nat, own: Pack, phase: Phase, a: Action, own': Pack, phase': Phase)
    requires Staging(phase) && !a.Start? && !a.Kill? && !a.Fault?
    requires Stage(checks, Working(w, p, own, phase), p, phase, a, own)
             == Working(Working(w, p, own, phase), p, own', phase')
    ensures Apply(checks, Working(w, p, own, phase), p, a) == Working(w, p, own', phase')
  {
    hide Stage;
    assert w.stages[p := own][p := own'] == w.stages[p := own'];
    assert w.phases[p := phase][p := phase'] == w.phases[p := phase'];
  }

  lemma RenameApplies(checks: Checks, w: World, p: nat, own: Pack)
    requires w.target.None?
    ensures Apply(checks, Working(w, p, own, Ready), p, Rename(false))
            == World(Some(own), w.stages - {p}, w.phases[p := Returned])
  {
    assert w.stages[p := own] - {p} == w.stages - {p};
    assert w.phases[p := Ready][p := Returned] == w.phases[p := Returned];
  }

  /** The steps from an empty stage to an archive whose inventory is known. */
  lemma FetchApplies(checks: Checks, w: World, p: nat, bytes: Bytes)
    requires ArchiveOk(checks, Pack(Some(bytes), None)) && InventoryOk(checks, Pack(Some(bytes), None))
    ensures var fetched := Pack(Some(bytes), None);
            Apply(checks, Working(w, p, EMPTY, Fetching), p, Fetch(bytes)) == Working(w, p, fetched, Fetching)
            && Apply(checks, Working(w, p, fetched, Fetching), p, CheckArchive) == Working(w, p, fetched, Opened)
            && Apply(checks, Working(w, p, fetched, Opened), p, List)
               == Working(w, p, fetched, Extracting(ManifestIn(checks, fetched)))
  {
    hide Apply, ArchiveOk, InventoryOk, ManifestIn;
    var fetched := Pack(Some(bytes), None);
    StageApplies(checks, w, p, EMPTY, Fetching, Fetch(bytes), fetched, Fetching);
    StageApplies(checks, w, p, fetched, Fetching, CheckArchive, fetched, Opened);
    StageApplies(checks, w, p, fetched, Opened, List, fetched, Extracting(ManifestIn(checks, fetched)));
  }

  /** The steps from there to a stage that may be published. */
  lemma ExtractApplies(checks: Checks, w: World, p: nat, own: Pack, m: Manifest, tree: Option<Tree>)
    requires TreeVerified(checks, own.(tree := tree), m)
    ensures var done := own.(tree := tree);
            Apply(checks, Working(w, p, own, Extracting(m)), p, Write(tree)) == Working(w, p, done, Extracting(m))
            && Apply(checks, Working(w, p, done, Extracting(m)), p, CheckTree) == Working(w, p, done, Ready)
  {
    hide Apply, TreeVerified;
    var done := own.(tree := tree);
    StageApplies(checks, w, p, own, Extracting(m), Write(tree), done, Extracting(m));
    StageApplies(checks, w, p, done, Extracting(m), CheckTree, done, Ready);
  }

  /** An undisturbed invocation that fetches and extracts what passes publishes it and returns. */
  lemma UndisturbedPublishes(checks: Checks, w: World, p: nat, bytes: Bytes, tree: Option<Tree>)
    requires w.target.None? && p !in w.phases && Verified(checks, Pack(Some(bytes), tree))
    ensures After(checks, w, Solo(p, [Start, Look, MakeStage, Fetch(bytes), CheckArchive, List, Write(tree), CheckTree,
                                      Rename(false)]))
            == World(Some(Pack(Some(bytes), tree)), w.stages - {p}, w.phases[p := Returned])
  {
    hide ArchiveOk, InventoryOk, TreeVerified, ManifestIn, Apply, After, Solo, Working;
    var fetched, done := Pack(Some(bytes), None), Pack(Some(bytes), tree);
    WriteKeepsArchive(checks, fetched, tree);
    var m := ManifestIn(checks, fetched);
    FetchApplies(checks, w, p, bytes);
    ExtractApplies(checks, w, p, fetched, m, tree);
    Starts(checks, w, p);
    MakeStageApplies(checks, w, p);
    RenameApplies(checks, w, p, done);
    var a3: seq<Action> := [Start, Look] + [MakeStage];
    var a4 := a3 + [Fetch(bytes)];
    var a5 := a4 + [CheckArchive];
    var a6 := a5 + [List];
    var a7 := a6 + [Write(tree)];
    var a8 := a7 + [CheckTree];
    SoloNext(checks, w, p, [Start, Look], MakeStage, a3, Working(w, p, EMPTY, Fetching));
    SoloNext(checks, w, p, a3, Fetch(bytes), a4, Working(w, p, fetched, Fetching));
    SoloNext(checks, w, p, a4, CheckArchive, a5, Working(w, p, fetched, Opened));
    SoloNext(checks, w, p, a5, List, a6, Working(w, p, fetched, Extracting(m)));
    SoloNext(checks, w, p, a6, Write(tree), a7, Working(w, p, done, Extracting(m)));
    SoloNext(checks, w, p, a7, CheckTree, a8, Working(w, p, done, Ready));
    SoloNext(checks, w, p, a8, Rename(false),
             [Start, Look, MakeStage, Fetch(bytes), CheckArchive, List, Write(tree), CheckTree, Rename(false)],
             World(Some(done), w.stages - {p}, w.phases[p := Returned]));
  }
}
