/** Which tags bind a commit: the set algebra of `read_git_tags` in `scripts/check-docs.py`. */
module ReleaseLine {

  // git's `--merged` and `--contains` are reachability in the commit graph.

  /** Commit `c` has the parents `parents[c]`, all recorded before it. */
  type Graph = seq<seq<nat>>

  predicate WellFounded(g: Graph) {
    forall c, k | 0 <= c < |g| && 0 <= k < |g[c]| :: g[c][k] < c
  }

  /** Commit `a` is in the history of `d`: `d` itself, or in the history of one of its parents. */
  predicate Reaches(g: Graph, d: nat, a: nat)
    requires WellFounded(g) && d < |g|
    decreases d
  {
    d == a || exists k | 0 <= k < |g[d]| :: Reaches(g, g[d][k], a)
  }

  /** Each commit but the last has the next one among its parents. */
  predicate Descends(g: Graph, path: seq<nat>) {
    path != [] && path[0] < |g|
    && forall i | 0 <= i < |path| - 1 :: path[i] < |g| && path[i + 1] in g[path[i]]
  }

  /** `d` is followed to `a` through parents, whichever of them. */
  predicate Leads(g: Graph, path: seq<nat>, d: nat, a: nat) {
    Descends(g, path) && path[0] == d && path[|path| - 1] == a
  }

  lemma {:induction false} PathReaches(g: Graph, path: seq<nat>)
    requires WellFounded(g) && Descends(g, path)
    ensures Reaches(g, path[0], path[|path| - 1])
  {
    if |path| > 1 {
      var k :| 0 <= k < |g[path[0]]| && g[path[0]][k] == path[1];
      PathReaches(g, path[1..]);
    }
  }

  /** A commit is in another's history iff some chain of parents leads to it. */
  lemma {:induction false} ReachesIffPath(g: Graph, d: nat, a: nat)
    requires WellFounded(g) && d < |g|
    ensures Reaches(g, d, a) <==> exists path :: Leads(g, path, d, a)
    decreases d
  {
    if Reaches(g, d, a) {
      if d == a {
        assert Leads(g, [d], d, a);
      } else {
        var k :| 0 <= k < |g[d]| && Reaches(g, g[d][k], a);
        ReachesIffPath(g, g[d][k], a);
        var path :| Leads(g, path, g[d][k], a);
        assert Leads(g, [d] + path, d, a);
      }
    }
    if exists path :: Leads(g, path, d, a) {
      var path :| Leads(g, path, d, a);
      PathReaches(g, path);
    }
  }

  /** History only goes back. */
  lemma {:induction false} ReachesBack(g: Graph, d: nat, a: nat)
    requires WellFounded(g) && d < |g| && Reaches(g, d, a)
    ensures a <= d
    decreases d
  {
    if d != a {
      var k :| 0 <= k < |g[d]| && Reaches(g, g[d][k], a);
      ReachesBack(g, g[d][k], a);
    }
  }

  lemma {:induction false} ReachesTransitive(g: Graph, d: nat, b: nat, a: nat)
    requires WellFounded(g) && d < |g| && b < |g| && Reaches(g, d, b) && Reaches(g, b, a)
    ensures Reaches(g, d, a)
    decreases d
  {
    if d != b {
      var k :| 0 <= k < |g[d]| && Reaches(g, g[d][k], b);
      ReachesTransitive(g, g[d][k], b, a);
    }
  }

  /** A tag of each name on one commit. */
  type Tags = map<string, nat>

  predicate Placed(g: Graph, tags: Tags) { WellFounded(g) && forall t | t in tags :: tags[t] < |g| }

  /** `--merged=<tip>`: the tags in a commit's history. */
  function Merged(g: Graph, tags: Tags, tip: nat): set<string>
    requires Placed(g, tags) && tip < |g|
  {
    set t | t in tags && Reaches(g, tip, tags[t])
  }

  /** `--contains=<head>`: the tags whose commit has `head` in its history. */
  function Containing(g: Graph, tags: Tags, head: nat): set<string>
    requires Placed(g, tags) && head < |g|
  {
    set t | t in tags && Reaches(g, tags[t], head)
  }

  /** What `TagState` says of the tags. */
  datatype TagState = TagState(tags: set<string>, elsewhere: set<string>, ahead: set<string>,
                               headed: bool, unmerged: bool, branchOnly: set<string>)

  /** Some tip of the line has the commit in its history. */
  predicate OnLine(g: Graph, line: seq<nat>, c: nat)
    requires WellFounded(g) && forall k | 0 <= k < |line| :: line[k] < |g|
  {
    exists k | 0 <= k < |line| :: Reaches(g, line[k], c)
  }

  /** The set computation, one tip of the line after the other. */
  method ReadTags(g: Graph, tags: Tags, head: nat, line: seq<nat>) returns (s: TagState)
    requires Placed(g, tags) && head < |g| && forall k | 0 <= k < |line| :: line[k] < |g|
    ensures s.tags == set t | t in tags && OnLine(g, line, tags[t])
                              && (Reaches(g, tags[t], head) ==> Reaches(g, head, tags[t]))
    ensures s.elsewhere == tags.Keys - s.tags
    ensures s.ahead == s.tags - Merged(g, tags, head)
    ensures s.branchOnly == Merged(g, tags, head) - s.tags
    ensures s.unmerged == !OnLine(g, line, head)
    ensures s.headed == (s.unmerged || s.ahead != {})
  {
    var reached := Merged(g, tags, head);
    var future := Containing(g, tags, head) - reached;
    var onLine: set<string> := {};
    var inMain := false;
    for i := 0 to |line|
      invariant inMain <==> exists k | 0 <= k < i :: Reaches(g, line[k], head)
      invariant forall t ::
        t in onLine <==> t in tags && t !in future && exists k | 0 <= k < i :: Reaches(g, line[k], tags[t])
    {
      var bound := Merged(g, tags, line[i]);
      onLine := onLine + (bound - future);
      inMain := inMain || Reaches(g, line[i], head);
    }
    var ahead := onLine - reached;
    s := TagState(onLine, tags.Keys - onLine, ahead, !inMain || ahead != {}, !inMain, reached - onLine);
  }

  /** The tags that bind a commit: the line's, except those cut on its own descendants. */
  function Binding(g: Graph, tags: Tags, head: nat, line: seq<nat>): set<string>
    requires Placed(g, tags) && head < |g| && forall k | 0 <= k < |line| :: line[k] < |g|
  {
    set t | t in tags && OnLine(g, line, tags[t]) && !(Reaches(g, tags[t], head) && tags[t] != head)
  }

  /**
   * What the computation means: a tag binds a commit exactly when the line holds it and it was not
   * cut on a proper descendant; a tag of the commit's history that does not bind it is one the
   * line does not hold.
   */
  lemma BindingMeaning(g: Graph, tags: Tags, head: nat, line: seq<nat>, t: string)
    requires Placed(g, tags) && head < |g| && (forall k | 0 <= k < |line| :: line[k] < |g|) && t in tags
    ensures t in Binding(g, tags, head, line)
            <==> OnLine(g, line, tags[t]) && (Reaches(g, tags[t], head) ==> Reaches(g, head, tags[t]))
    ensures t in Merged(g, tags, head) - Binding(g, tags, head, line)
            <==> Reaches(g, head, tags[t]) && !OnLine(g, line, tags[t])
  {
    if Reaches(g, tags[t], head) && Reaches(g, head, tags[t]) {
      ReachesBack(g, tags[t], head);
      ReachesBack(g, head, tags[t]);
    }
  }

  /** A commit the line does not hold is bound by every tag the line holds. */
  lemma UnmergedBoundByAll(g: Graph, tags: Tags, head: nat, line: seq<nat>)
    requires Placed(g, tags) && head < |g| && forall k | 0 <= k < |line| :: line[k] < |g|
    requires !OnLine(g, line, head)
    ensures Binding(g, tags, head, line) == set t | t in tags && OnLine(g, line, tags[t])
  {
    forall t | t in tags && OnLine(g, line, tags[t]) ensures !Reaches(g, tags[t], head) {
      var k :| 0 <= k < |line| && Reaches(g, line[k], tags[t]);
      if Reaches(g, tags[t], head) { ReachesTransitive(g, line[k], tags[t], head); }
    }
  }

  // ---- Histories of the repository ----------------------------------------------------------

  datatype Repository = Repository(graph: Graph, main: nat, tags: Tags)

  datatype Event =
    | Commit(parents: seq<nat>)   // a commit anywhere, a merge included
    | Advance(to: nat)            // main moves to a commit that has it in its history
    | CutTag(name: string)        // a release is tagged on main's tip

  /** All tags sit in main's history. */
  ghost predicate Sound(r: Repository) {
    && Placed(r.graph, r.tags)
    && r.main < |r.graph|
    && forall t | t in r.tags :: Reaches(r.graph, r.main, r.tags[t])
  }

  predicate Allowed(r: Repository, e: Event)
    requires Placed(r.graph, r.tags)
  {
    match e
    case Commit(parents) => forall k | 0 <= k < |parents| :: parents[k] < |r.graph|
    case Advance(to) => to < |r.graph| && Reaches(r.graph, to, r.main)
    case CutTag(name) => name !in r.tags
  }

  function Step(r: Repository, e: Event): Repository {
    match e
    case Commit(parents) => r.(graph := r.graph + [parents])
    case Advance(to) => r.(main := to)
    case CutTag(name) => r.(tags := r.tags[name := r.main])
  }

  /** A run: each event is allowed where it happens. */
  ghost predicate Run(r: Repository, events: seq<Event>)
    decreases |events|
  {
    Sound(r) && (events != [] ==> Allowed(r, events[0]) && Run(Step(r, events[0]), events[1..]))
  }

  function After(r: Repository, events: seq<Event>): Repository
    decreases |events|
  {
    if events == [] then r else After(Step(r, events[0]), events[1..])
  }

  /** New commits do not change what older ones reach. */
  lemma {:induction false} ReachesStable(g: Graph, parents: seq<nat>, d: nat, a: nat)
    requires WellFounded(g) && WellFounded(g + [parents]) && d < |g|
    ensures Reaches(g + [parents], d, a) == Reaches(g, d, a)
    decreases d
  {
    assert (g + [parents])[d] == g[d];
    forall k | 0 <= k < |g[d]| ensures Reaches(g + [parents], g[d][k], a) == Reaches(g, g[d][k], a) {
      ReachesStable(g, parents, g[d][k], a);
    }
  }

  lemma StepSound(r: Repository, e: Event)
    requires Sound(r) && Allowed(r, e)
    ensures Sound(Step(r, e))
  {
    match e
    case Commit(parents) =>
      CommitPlaced(r.graph, parents);
      forall t | t in r.tags ensures Reaches(r.graph + [parents], r.main, r.tags[t]) {
        ReachesStable(r.graph, parents, r.main, r.tags[t]);
      }
    case Advance(to) =>
      forall t | t in r.tags ensures Reaches(r.graph, to, r.tags[t]) {
        ReachesTransitive(r.graph, to, r.main, r.tags[t]);
      }
    case CutTag(name) =>
  }

  lemma CommitPlaced(g: Graph, parents: seq<nat>)
    requires WellFounded(g) && forall k | 0 <= k < |parents| :: parents[k] < |g|
    ensures WellFounded(g + [parents])
  {
    var g' := g + [parents];
    forall c, k | 0 <= c < |g'| && 0 <= k < |g'[c]| ensures g'[c][k] < c {
      assert g'[c] == if c < |g| then g[c] else parents;
    }
  }

  /** The tags that bind a commit of main, in one state of the repository. */
  function Bound(r: Repository, head: nat): set<string>
    requires Placed(r.graph, r.tags) && r.main < |r.graph| && head < |r.graph|
  {
    Binding(r.graph, r.tags, head, [r.main])
  }

  /** The tags cut on a commit itself. */
  function TagsOn(r: Repository, c: nat): set<string> { set t | t in r.tags && r.tags[t] == c }

  /** One event binds a commit already on main to nothing new but a tag on the commit itself. */
  lemma StepKeepsBinding(r: Repository, e: Event, head: nat)
    requires Sound(r) && Allowed(r, e) && head < |r.graph| && Reaches(r.graph, r.main, head)
    ensures Sound(Step(r, e)) && head < |Step(r, e).graph| && Reaches(Step(r, e).graph, Step(r, e).main, head)
    ensures Bound(Step(r, e), head) == Bound(r, head) + TagsOn(Step(r, e), head)
    ensures TagsOn(r, head) <= TagsOn(Step(r, e), head) && TagsOn(r, head) <= Bound(r, head)
  {
    hide Reaches;
    StepSound(r, e);
    SelfReach(r.graph, head);
    OnMain(r);
    OnMain(Step(r, e));
    match e
    case Commit(parents) =>
      CommitPlaced(r.graph, parents);
      ReachesStable(r.graph, parents, r.main, head);
      forall t | t in r.tags
        ensures Reaches(r.graph + [parents], r.tags[t], head) == Reaches(r.graph, r.tags[t], head)
      {
        ReachesStable(r.graph, parents, r.tags[t], head);
      }
    case Advance(to) => ReachesTransitive(r.graph, to, r.main, head);
    case CutTag(name) =>
  }

  lemma SelfReach(g: Graph, c: nat)
    requires WellFounded(g) && c < |g|
    ensures Reaches(g, c, c)
  {
  }

  /** In a sound repository the line holds every tag. */
  lemma OnMain(r: Repository)
    requires Sound(r)
    ensures forall t | t in r.tags :: OnLine(r.graph, [r.main], r.tags[t])
  {
    hide Reaches;
    forall t | t in r.tags ensures OnLine(r.graph, [r.main], r.tags[t]) {
      assert Reaches(r.graph, [r.main][0], r.tags[t]);
    }
  }

  /**
   * Over every run: once a commit is on main, the set of tags that bind it changes only by tags
   * cut on that very commit, whatever is committed, merged or released afterwards.
   */
  lemma {:induction false} BindingStable(r: Repository, events: seq<Event>, head: nat)
    requires Run(r, events) && head < |r.graph| && Reaches(r.graph, r.main, head)
    ensures var r' := After(r, events);
            && Sound(r') && head < |r'.graph| && Reaches(r'.graph, r'.main, head)
            && Bound(r', head) == Bound(r, head) + TagsOn(r', head)
            && TagsOn(r, head) <= TagsOn(r', head)
    decreases |events|
  {
    hide Reaches, Bound, TagsOn;
    SelfBound(r, head);
    if events != [] {
      StepKeepsBinding(r, events[0], head);
      BindingStable(Step(r, events[0]), events[1..], head);
    }
  }

  lemma SelfBound(r: Repository, head: nat)
    requires Sound(r) && head < |r.graph|
    ensures TagsOn(r, head) <= Bound(r, head)
  {
    OnMain(r);
  }
}
