/** The check a follow-up bead must pass before a finding may be deferred to it
    (internal/bead/deferral.go). */
module Deferral {
  import opened Common

  type Id = string

  datatype Dep = Dep(id: Id, kind: string)

  datatype Issue = Issue(id: Id, status: string, description: string, parent: Id, deps: seq<Dep>)

  /** What the issue store answers to a read by id; anything else is a read error. */
  type Store = map<Id, Issue>

  predicate Readable(store: Store, id: Id) { id in store && store[id].id == id }

  /** Redaction and white space come from other packages. */
  datatype Text = Text(redact: string -> string, isSpace: char -> bool)

  datatype Outcome =
    | Accepted
    | EpicUnavailable
    | Unreadable
    | NotOpen
    | InsideEpic
    | Cycle
    | Missing(noEdge: bool, absent: seq<string>)

  // ----- Parent edges and the paths along them -----

  function ParentDeps(deps: seq<Dep>, parent: Id): (ids: seq<Id>) {
    if deps == [] then []
    else
      var rest := ParentDeps(deps[..|deps| - 1], parent);
      var d := deps[|deps| - 1];
      if d.kind == "parent-child" && d.id != parent then rest + [d.id] else rest
  }

  /** The parent field first, then the parent-child dependencies that repeat it not. */
  function Parents(i: Issue): seq<Id> {
    (if i.parent != "" then [i.parent] else []) + ParentDeps(i.deps, i.parent)
  }

  /** How often an issue names x as its parent: once by the parent field, and once for
      every parent-child dependency on x that does not repeat the field. */
  function TimesNamed(i: Issue, x: Id): nat {
    if x == i.parent then (if x == "" then 0 else 1)
    else |At(i.deps, Dep(x, "parent-child"))|
  }

  function At(deps: seq<Dep>, d: Dep): set<nat> { set k | 0 <= k < |deps| && deps[k] == d }

  lemma AtNext(deps: seq<Dep>, d: Dep)
    requires deps != []
    ensures |At(deps, d)| == |At(deps[..|deps| - 1], d)| + if deps[|deps| - 1] == d then 1 else 0
  {
    var n := |deps| - 1;
    var before := At(deps[..n], d);
    assert At(deps, d) == if deps[n] == d then before + {n} else before;
  }

  lemma {:induction false} ParentDepsCount(deps: seq<Dep>, parent: Id, x: Id)
    ensures multiset(ParentDeps(deps, parent))[x] ==
      if x == parent then 0 else |At(deps, Dep(x, "parent-child"))|
  {
    if deps == [] {
      assert At(deps, Dep(x, "parent-child")) == {};
    } else {
      var n := |deps| - 1;
      ParentDepsCount(deps[..n], parent, x);
      AtNext(deps, Dep(x, "parent-child"));
      hide At;
      var rest := ParentDeps(deps[..n], parent);
      assert multiset(rest + [deps[n].id]) == multiset(rest) + multiset{deps[n].id};
    }
  }

  /** The parents walked are exactly those. */
  lemma ParentsExactly(i: Issue, x: Id)
    ensures multiset(Parents(i))[x] == TimesNamed(i, x)
  {
    ParentDepsCount(i.deps, i.parent, x);
    var field := if i.parent != "" then [i.parent] else [];
    assert multiset(Parents(i)) == multiset(field) + multiset(ParentDeps(i.deps, i.parent));
  }

  lemma NamedExactly(i: Issue, x: Id)
    ensures x in Parents(i) <==>
      (x == i.parent && x != "") || (x != i.parent && Dep(x, "parent-child") in i.deps)
  {
    ParentsExactly(i, x);
    assert x in Parents(i) <==> x in multiset(Parents(i));
    var named := At(i.deps, Dep(x, "parent-child"));
    if Dep(x, "parent-child") in i.deps {
      var k :| 0 <= k < |i.deps| && i.deps[k] == Dep(x, "parent-child");
      assert k in named;
    } else {
      assert named == {};
    }
  }

  /** A chain of parent edges, named by the position of each edge. */
  datatype Path = Root | Up(of: Path, edge: nat)

  /** Where a path from start ends. A path can end at an unreadable id but not pass it. */
  function End(store: Store, start: Id, p: Path): Option<Id> {
    match p
    case Root => Some(start)
    case Up(q, j) =>
      match End(store, start, q)
      case None => None
      case Some(id) => if Readable(store, id) && j < |Parents(store[id])| then Some(Parents(store[id])[j]) else None
  }

  ghost predicate ReachesEpic(store: Store, start: Id, epic: Id) {
    exists p :: End(store, start, p) == Some(epic)
  }

  ghost predicate ReachedTwice(store: Store, start: Id) {
    exists p, q :: p != q && End(store, start, p).Some? && End(store, start, p) == End(store, start, q)
  }

  ghost predicate ReachesUnreadable(store: Store, start: Id) {
    exists p :: End(store, start, p).Some? && !Readable(store, End(store, start, p).value)
  }

  /** No chain of parent edges reaches the owning epic, every ancestor is there, and
      every ancestor is reached by exactly one chain. */
  ghost predicate OutsideAndUnique(store: Store, start: Id, epic: Id) {
    !ReachesEpic(store, start, epic) && !ReachedTwice(store, start) && !ReachesUnreadable(store, start)
  }

  // ----- The same in terms of ids -----

  /** x is a parent of the issue, by its field or by a dependency. */
  predicate ParentOf(i: Issue, x: Id) {
    (x == i.parent && x != "") || (x != i.parent && Dep(x, "parent-child") in i.deps)
  }

  /** Ids from start on, each a parent of the one before; only the last may be unreadable. */
  predicate Chain(store: Store, start: Id, ids: seq<Id>) {
    && ids != [] && ids[0] == start
    && forall i | 0 <= i < |ids| - 1 :: Readable(store, ids[i]) && ParentOf(store[ids[i]], ids[i + 1])
  }

  ghost predicate ChainTo(store: Store, start: Id, ids: seq<Id>, x: Id) {
    Chain(store, start, ids) && ids[|ids| - 1] == x
  }

  /** What an ancestry must be: no chain of ids ends in the epic or in an unreadable id, no
      two chains end in the same id, and no issue on a chain names one parent twice. */
  ghost predicate ProperAncestry(store: Store, start: Id, epic: Id) {
    && (forall ids | Chain(store, start, ids) :: ids[|ids| - 1] != epic && Readable(store, ids[|ids| - 1]))
    && (forall ids, ids', x | ChainTo(store, start, ids, x) && ChainTo(store, start, ids', x) :: ids == ids')
    && (forall ids, x :: !NamesTwice(store, start, ids, x))
  }

  ghost predicate NamesTwice(store: Store, start: Id, ids: seq<Id>, x: Id) {
    && Chain(store, start, ids) && Readable(store, ids[|ids| - 1])
    && TimesNamed(store[ids[|ids| - 1]], x) > 1
  }

  /** The ids along a path. */
  function Ids(store: Store, start: Id, p: Path): (ids: seq<Id>)
    requires End(store, start, p).Some?
    ensures ids != [] && ids[|ids| - 1] == End(store, start, p).value
  {
    match p
    case Root => [start]
    case Up(q, _) => Ids(store, start, q) + [End(store, start, p).value]
  }

  lemma {:induction false} IdsAreChain(store: Store, start: Id, p: Path)
    requires End(store, start, p).Some?
    ensures Chain(store, start, Ids(store, start, p))
  {
    if p.Up? {
      IdsAreChain(store, start, p.of);
      var before, x := Ids(store, start, p.of), End(store, start, p).value;
      var last := before[|before| - 1];
      NamedExactly(store[last], x);
      assert Ids(store, start, p) == before + [x];
    }
  }

  lemma {:induction false} ChainHasPath(store: Store, start: Id, ids: seq<Id>) returns (p: Path)
    requires Chain(store, start, ids)
    ensures End(store, start, p) == Some(ids[|ids| - 1]) && Ids(store, start, p) == ids
    decreases |ids|
  {
    if |ids| == 1 {
      p := Root;
      assert ids == [start];
    } else {
      var n := |ids| - 1;
      var q := ChainHasPath(store, start, ids[..n]);
      NamedExactly(store[ids[n - 1]], ids[n]);
      var j :| 0 <= j < |Parents(store[ids[n - 1]])| && Parents(store[ids[n - 1]])[j] == ids[n];
      p := Up(q, j);
      assert ids == ids[..n] + [ids[n]];
    }
  }

  /** Two paths along the same ids differ in an edge to a parent that is named twice. */
  lemma {:induction false} SameIds(store: Store, start: Id, p: Path, q: Path)
    requires End(store, start, p).Some? && End(store, start, q).Some? && p != q
    requires Ids(store, start, p) == Ids(store, start, q)
    ensures exists ids, x :: NamesTwice(store, start, ids, x)
    decreases p
  {
    RootIds(store, start, p);
    RootIds(store, start, q);
    var before, before' := Ids(store, start, p.of), Ids(store, start, q.of);
    var x := End(store, start, p).value;
    assert before + [x] == before' + [End(store, start, q).value];
    assert before == (before + [x])[..|before|] == (before' + [End(store, start, q).value])[..|before'|] == before';
    if p.of != q.of {
      SameIds(store, start, p.of, q.of);
    } else {
      var issue := store[before[|before| - 1]];
      NamedTwice(Parents(issue), p.edge, q.edge);
      ParentsExactly(issue, x);
      IdsAreChain(store, start, p.of);
      assert NamesTwice(store, start, before, x);
    }
  }

  lemma RootIds(store: Store, start: Id, p: Path)
    requires End(store, start, p).Some?
    ensures p.Root? <==> |Ids(store, start, p)| == 1
  {
  }

  lemma NamedTwiceIsReachedTwice(store: Store, start: Id, ids: seq<Id>, x: Id)
    requires NamesTwice(store, start, ids, x)
    ensures ReachedTwice(store, start)
  {
    var issue := store[ids[|ids| - 1]];
    ParentsExactly(issue, x);
    var j, k := TwoPlaces(Parents(issue), x);
    var p := ChainHasPath(store, start, ids);
    assert End(store, start, Up(p, j)) == End(store, start, Up(p, k)) == Some(x);
  }

  lemma NamedTwice(xs: seq<Id>, j: nat, k: nat)
    requires j < |xs| && k < |xs| && j != k && xs[j] == xs[k]
    ensures multiset(xs)[xs[j]] > 1
  {
    var lo, hi := if j < k then j else k, if j < k then k else j;
    assert xs == xs[..hi] + [xs[hi]] + xs[hi + 1..];
    assert xs[..hi][lo] == xs[lo] && xs[lo] in multiset(xs[..hi]);
  }

  lemma {:induction false} TwoPlaces(xs: seq<Id>, x: Id) returns (j: nat, k: nat)
    requires multiset(xs)[x] > 1
    ensures j < k < |xs| && xs[j] == xs[k] == x
    decreases |xs|
  {
    var n := |xs| - 1;
    assert xs == xs[..n] + [xs[n]];
    if xs[n] == x {
      assert x in multiset(xs[..n]) && x in xs[..n];
      j :| 0 <= j < n && xs[..n][j] == x;
      k := n;
    } else {
      j, k := TwoPlaces(xs[..n], x);
    }
  }

  /** An ancestry without the epic, unreadable ids and repetitions is the same over ids. */
  lemma AncestryExactly(store: Store, start: Id, epic: Id)
    ensures OutsideAndUnique(store, start, epic) <==> ProperAncestry(store, start, epic)
  {
    if OutsideAndUnique(store, start, epic) { PathsToChains(store, start, epic); }
    if ProperAncestry(store, start, epic) { ChainsToPaths(store, start, epic); }
  }

  lemma PathsToChains(store: Store, start: Id, epic: Id)
    requires OutsideAndUnique(store, start, epic)
    ensures ProperAncestry(store, start, epic)
  {
    forall ids | Chain(store, start, ids) ensures ids[|ids| - 1] != epic && Readable(store, ids[|ids| - 1]) {
      var p := ChainHasPath(store, start, ids);
    }
    forall ids, ids', x | ChainTo(store, start, ids, x) && ChainTo(store, start, ids', x) ensures ids == ids' {
      var p := ChainHasPath(store, start, ids);
      var q := ChainHasPath(store, start, ids');
    }
    forall ids, x ensures !NamesTwice(store, start, ids, x) {
      if NamesTwice(store, start, ids, x) { NamedTwiceIsReachedTwice(store, start, ids, x); }
    }
  }

  lemma ChainsToPaths(store: Store, start: Id, epic: Id)
    requires ProperAncestry(store, start, epic)
    ensures OutsideAndUnique(store, start, epic)
  {
    forall p | End(store, start, p).Some?
      ensures End(store, start, p) != Some(epic) && Readable(store, End(store, start, p).value)
    {
      IdsAreChain(store, start, p);
    }
    forall p, q | End(store, start, p).Some? && End(store, start, p) == End(store, start, q) ensures p == q {
      IdsAreChain(store, start, p);
      IdsAreChain(store, start, q);
      var x := End(store, start, p).value;
      assert ChainTo(store, start, Ids(store, start, p), x) && ChainTo(store, start, Ids(store, start, q), x);
      if p != q { SameIds(store, start, p, q); }
    }
  }

  /** So no bead is accepted that depends on the epic as a child, or that has an ancestor
      that does, whatever else its issue says. */
  lemma ChildrenOfEpicAreInside(store: Store, start: Id, epic: Id, ids: seq<Id>)
    requires Chain(store, start, ids) && Readable(store, ids[|ids| - 1]) && epic != ""
    requires
      var last := store[ids[|ids| - 1]];
      last.parent == epic || Dep(epic, "parent-child") in last.deps
    ensures ReachesEpic(store, start, epic) && !OutsideAndUnique(store, start, epic)
  {
    assert ParentOf(store[ids[|ids| - 1]], epic);
    var longer := ids + [epic];
    assert Chain(store, start, longer);
    var p := ChainHasPath(store, start, longer);
  }

  // ----- The walk -----

  /** The paths found so far: one for each id seen, and one for each queue entry. */
  ghost predicate Explored(store: Store, start: Id, epic: Id, paths: map<Id, Path>,
                           queue: seq<Issue>, ends: seq<Path>)
  {
    && |queue| == |ends|
    && (forall i | 0 <= i < |queue| ::
          End(store, start, ends[i]) == Some(queue[i].id) && Readable(store, queue[i].id)
          && queue[i] == store[queue[i].id])
    && (forall id | id in paths :: End(store, start, paths[id]) == Some(id) && Readable(store, id) && id != epic)
    && (forall i, j | 0 <= i < j < |ends| :: ends[i] != ends[j])
    && (forall i | 0 <= i < |ends| :: ends[i] !in paths.Values)
    && (forall i | 0 <= i < |ends| && ends[i].Up? :: ends[i].of in paths.Values)
    && (forall id | id in paths && paths[id].Up? :: paths[id].of in paths.Values)
  }

  /** Every edge leaving an id seen leads to a path found. */
  ghost predicate Covered(store: Store, paths: map<Id, Path>, ends: seq<Path>) {
    && (Root in paths.Values || Root in ends)
    && (forall id, j: nat | id in paths && Readable(store, id) && j < |Parents(store[id])| ::
          Up(paths[id], j) in paths.Values || Up(paths[id], j) in ends)
  }

  /** When the queue is empty every path has been found. */
  lemma {:induction false} AllFound(store: Store, start: Id, epic: Id, paths: map<Id, Path>, p: Path)
    requires Explored(store, start, epic, paths, [], []) && Covered(store, paths, [])
    requires End(store, start, p).Some?
    ensures p in paths.Values && End(store, start, p).value in paths && paths[End(store, start, p).value] == p
  {
    match p
    case Root =>
      assert Root in paths.Values;
    case Up(q, j) =>
      AllFound(store, start, epic, paths, q);
      assert p in paths.Values;
  }

  lemma EmptyQueueAccepts(store: Store, start: Id, epic: Id, paths: map<Id, Path>)
    requires Explored(store, start, epic, paths, [], []) && Covered(store, paths, [])
    ensures OutsideAndUnique(store, start, epic)
  {
    forall p | End(store, start, p).Some?
      ensures End(store, start, p).value in paths && paths[End(store, start, p).value] == p
    {
      AllFound(store, start, epic, paths, p);
    }
  }

  lemma ValuesAfter(paths: map<Id, Path>, id: Id, p: Path)
    requires id !in paths
    ensures paths[id := p].Values == paths.Values + {p}
  {
    var after := paths[id := p];
    forall q | q in paths.Values ensures q in after.Values {
      var k :| k in paths && paths[k] == q;
      assert after[k] == q;
    }
    assert after[id] == p;
  }

  lemma WalkStarts(store: Store, b: Issue, epic: Id)
    requires Readable(store, b.id) && b == store[b.id]
    ensures Explored(store, b.id, epic, map[], [b], [Root]) && Covered(store, map[], [Root])
  {
  }

  lemma NoEndsLeft(store: Store, start: Id, epic: Id, paths: map<Id, Path>, queue: seq<Issue>, ends: seq<Path>)
    requires Explored(store, start, epic, paths, queue, ends) && queue == []
    ensures ends == []
  {
  }

  lemma HeadOfQueue(store: Store, start: Id, epic: Id, paths: map<Id, Path>, queue: seq<Issue>, ends: seq<Path>)
    requires Explored(store, start, epic, paths, queue, ends) && queue != []
    ensures |ends| == |queue| && Readable(store, queue[0].id) && queue[0] == store[queue[0].id]
  {
  }

  /** What an error says about the paths. */
  lemma MetEpic(store: Store, start: Id, epic: Id, paths: map<Id, Path>, queue: seq<Issue>, ends: seq<Path>)
    requires Explored(store, start, epic, paths, queue, ends) && queue != [] && queue[0].id == epic
    ensures ReachesEpic(store, start, epic) && !OutsideAndUnique(store, start, epic)
  {
  }

  lemma ErrorsExclude(store: Store, start: Id, epic: Id, r: Outcome)
    requires r == InsideEpic ==> ReachesEpic(store, start, epic)
    requires r == Cycle ==> ReachedTwice(store, start)
    requires r == Unreadable ==> ReachesUnreadable(store, start)
    requires r in {InsideEpic, Cycle, Unreadable}
    ensures !OutsideAndUnique(store, start, epic)
  {
  }

  /** The queue walk over the parent edges. */
  method Walk(store: Store, b: Issue, epic: Id) returns (r: Outcome)
    requires Readable(store, b.id) && b == store[b.id]
    ensures r in {Accepted, InsideEpic, Cycle, Unreadable}
    ensures r == Accepted <==> OutsideAndUnique(store, b.id, epic)
    ensures r == InsideEpic ==> ReachesEpic(store, b.id, epic)
    ensures r == Cycle ==> ReachedTwice(store, b.id)
    ensures r == Unreadable ==> ReachesUnreadable(store, b.id)
  {
    hide Explored, Covered, Expanding, End, ReachesEpic, ReachedTwice, ReachesUnreadable, OutsideAndUnique;
    WalkStarts(store, b, epic);
    var seen: set<Id>, queue := {}, [b];
    ghost var paths: map<Id, Path>, ends: seq<Path> := map[], [Root];
    while |queue| > 0
      invariant seen == paths.Keys && seen <= store.Keys
      invariant Explored(store, b.id, epic, paths, queue, ends) && Covered(store, paths, ends)
      decreases |store.Keys - seen|
    {
      HeadOfQueue(store, b.id, epic, paths, queue, ends);
      var current := queue[0];
      ghost var here := ends[0];
      if current.id == epic {
        MetEpic(store, b.id, epic, paths, queue, ends);
        return InsideEpic;
      }
      if current.id in seen {
        SeenTwice(store, b.id, epic, paths, queue, ends);
        ErrorsExclude(store, b.id, epic, Cycle);
        return Cycle;
      }
      StepExplored(store, b.id, epic, paths, queue, ends);
      queue, paths, ends := queue[1..], paths[current.id := here], ends[1..];
      assert store.Keys - (seen + {current.id}) < store.Keys - seen;
      seen := seen + {current.id};
      r, queue, ends := FollowParents(store, b.id, epic, current, queue, paths, ends);
      if r != Accepted {
        ErrorsExclude(store, b.id, epic, r);
        return;
      }
    }
    NoEndsLeft(store, b.id, epic, paths, queue, ends);
    EmptyQueueAccepts(store, b.id, epic, paths);
    return Accepted;
  }

  /** One id's parents, checked and queued in order. */
  method FollowParents(store: Store, ghost start: Id, epic: Id, current: Issue, queue: seq<Issue>,
                       ghost paths: map<Id, Path>, ghost ends: seq<Path>)
    returns (r: Outcome, queue': seq<Issue>, ghost ends': seq<Path>)
    requires Explored(store, start, epic, paths, queue, ends)
    requires current.id in paths && current == store[current.id] && Expanding(store, paths, ends, current.id, 0)
    ensures r in {Accepted, InsideEpic, Unreadable}
    ensures r == Accepted ==> Explored(store, start, epic, paths, queue', ends') && Covered(store, paths, ends')
    ensures r == InsideEpic ==> ReachesEpic(store, start, epic)
    ensures r == Unreadable ==> ReachesUnreadable(store, start)
  {
    queue', ends' := queue, ends;
    var parents := ListParents(current);
    for i := 0 to |parents|
      invariant Explored(store, start, epic, paths, queue', ends')
      invariant Expanding(store, paths, ends', current.id, i)
    {
      assert End(store, start, Up(paths[current.id], i)) == Some(parents[i]);
      if parents[i] == epic { return InsideEpic, queue', ends'; }
      if parents[i] !in store || store[parents[i]].id != parents[i] { return Unreadable, queue', ends'; }
      PushExplored(store, start, epic, paths, queue', ends', current.id, i);
      queue', ends' := queue' + [store[parents[i]]], ends' + [Up(paths[current.id], i)];
    }
    r := Accepted;
  }

  method ListParents(current: Issue) returns (parents: seq<Id>)
    ensures parents == Parents(current)
  {
    parents := [];
    if current.parent != "" { parents := [current.parent]; }
    ghost var first := parents;
    for i := 0 to |current.deps|
      invariant parents == first + ParentDeps(current.deps[..i], current.parent)
    {
      assert current.deps[..i + 1][..i] == current.deps[..i];
      var dep := current.deps[i];
      if dep.kind == "parent-child" && dep.id != current.parent { parents := parents + [dep.id]; }
    }
    assert current.deps[..|current.deps|] == current.deps;
  }

  /** Covered, while the edges of one id are still being followed from edge i on. */
  ghost predicate Expanding(store: Store, paths: map<Id, Path>, ends: seq<Path>, id: Id, i: nat) {
    && id in paths
    && (Root in paths.Values || Root in ends)
    && (forall x, j: nat | x in paths && Readable(store, x) && j < |Parents(store[x])| && (x == id ==> j < i) ::
          Up(paths[x], j) in paths.Values || Up(paths[x], j) in ends)
    && (forall j: nat | j >= i :: Up(paths[id], j) !in ends && Up(paths[id], j) !in paths.Values)
  }

  lemma SeenTwice(store: Store, start: Id, epic: Id, paths: map<Id, Path>, queue: seq<Issue>, ends: seq<Path>)
    requires Explored(store, start, epic, paths, queue, ends) && queue != [] && queue[0].id in paths
    ensures ReachedTwice(store, start)
  {
    assert paths[queue[0].id] in paths.Values;
  }

  /** Taking the first queue entry into the ids seen. */
  lemma StepExplored(store: Store, start: Id, epic: Id, paths: map<Id, Path>, queue: seq<Issue>, ends: seq<Path>)
    requires Explored(store, start, epic, paths, queue, ends) && Covered(store, paths, ends)
    requires queue != [] && queue[0].id !in paths && queue[0].id != epic
    ensures var paths' := paths[queue[0].id := ends[0]];
      && Explored(store, start, epic, paths', queue[1..], ends[1..])
      && Expanding(store, paths', ends[1..], queue[0].id, 0)
  {
    hide Covered, Expanding, Parents, End;
    ValuesAfter(paths, queue[0].id, ends[0]);
    StillExplored(store, start, epic, paths, queue, ends);
    NowExpanding(store, start, epic, paths, queue, ends);
  }

  lemma StillExplored(store: Store, start: Id, epic: Id, paths: map<Id, Path>, queue: seq<Issue>, ends: seq<Path>)
    requires Explored(store, start, epic, paths, queue, ends)
    requires queue != [] && queue[0].id !in paths && queue[0].id != epic
    requires paths[queue[0].id := ends[0]].Values == paths.Values + {ends[0]}
    ensures Explored(store, start, epic, paths[queue[0].id := ends[0]], queue[1..], ends[1..])
  {
  }

  lemma NowExpanding(store: Store, start: Id, epic: Id, paths: map<Id, Path>, queue: seq<Issue>, ends: seq<Path>)
    requires Explored(store, start, epic, paths, queue, ends) && Covered(store, paths, ends)
    requires queue != [] && queue[0].id !in paths
    requires paths[queue[0].id := ends[0]].Values == paths.Values + {ends[0]}
    ensures Expanding(store, paths[queue[0].id := ends[0]], ends[1..], queue[0].id, 0)
  {
  }

  /** Following edge i of the id last seen. */
  lemma PushExplored(store: Store, start: Id, epic: Id, paths: map<Id, Path>, queue: seq<Issue>, ends: seq<Path>,
                     id: Id, i: nat)
    requires Explored(store, start, epic, paths, queue, ends) && Expanding(store, paths, ends, id, i)
    requires Readable(store, id) && i < |Parents(store[id])| && Readable(store, Parents(store[id])[i])
    ensures Explored(store, start, epic, paths, queue + [store[Parents(store[id])[i]]], ends + [Up(paths[id], i)])
    ensures Expanding(store, paths, ends + [Up(paths[id], i)], id, i + 1)
  {
  }

  // ----- What acceptance rules out -----

  function Depth(p: Path): nat {
    match p case Root => 0 case Up(q, _) => 1 + Depth(q)
  }

  /** The ids on a path, from the follow-up bead to its end. */
  function Trail(store: Store, start: Id, p: Path): set<Id>
    requires End(store, start, p).Some?
  {
    match p case Root => {start} case Up(q, _) => Trail(store, start, q) + {End(store, start, p).value}
  }

  predicate Before(q: Path, p: Path) {
    p.Up? && (q == p.of || Before(q, p.of))
  }

  lemma {:induction false} TrailIsPrefixes(store: Store, start: Id, p: Path, id: Id)
    requires End(store, start, p).Some? && id in Trail(store, start, p)
    ensures End(store, start, p) == Some(id) || exists q :: Before(q, p) && End(store, start, q) == Some(id)
  {
    if p.Up? && End(store, start, p) != Some(id) { TrailIsPrefixes(store, start, p.of, id); }
  }

  lemma {:induction false} BeforeIsShorter(q: Path, p: Path)
    requires Before(q, p)
    ensures Depth(q) < Depth(p)
  {
    if q != p.of { BeforeIsShorter(q, p.of); }
  }

  lemma RepeatIsTwice(store: Store, start: Id, p: Path)
    requires End(store, start, p).Some? && p.Up? && End(store, start, p).value in Trail(store, start, p.of)
    ensures ReachedTwice(store, start)
  {
    var id := End(store, start, p).value;
    TrailIsPrefixes(store, start, p.of, id);
    var q :| (q == p.of || Before(q, p.of)) && End(store, start, q) == Some(id);
    if q != p.of { BeforeIsShorter(q, p.of); }
    assert Depth(q) < Depth(p);
  }

  /** An accepted bead has no parent cycle above it, so every chain is shorter than the store. */
  lemma {:induction false} AncestryIsFinite(store: Store, start: Id, p: Path)
    requires !ReachedTwice(store, start) && !ReachesUnreadable(store, start) && End(store, start, p).Some?
    ensures Trail(store, start, p) <= store.Keys && |Trail(store, start, p)| == Depth(p) + 1
    ensures Depth(p) < |store|
  {
    var id := End(store, start, p).value;
    assert Readable(store, id);
    if p.Up? {
      AncestryIsFinite(store, start, p.of);
      if id in Trail(store, start, p.of) { RepeatIsTwice(store, start, p); }
    }
    WithinStore(Trail(store, start, p), store.Keys);
  }

  lemma {:induction false} WithinStore(a: set<Id>, b: set<Id>)
    requires a <= b
    ensures |a| <= |b|
    decreases |a|
  {
    if id :| id in a { WithinStore(a - {id}, b - {id}); }
  }

  // ----- The whole check -----

  predicate IsOpen(status: string) {
    status != "" && !EqualFold(status, "closed") && !EqualFold(status, "done") && !EqualFold(status, "tombstone")
  }

  predicate HasEdge(deps: seq<Dep>, epic: Id, panelBead: Id) {
    exists i | 0 <= i < |deps| ::
      deps[i].kind == "discovered-from" && (deps[i].id == epic || (panelBead != "" && deps[i].id == panelBead))
  }

  predicate Contains(s: string, t: string) {
    exists i | 0 <= i <= |s| :: t <= s[i..]
  }

  predicate Blank(env: Text, s: string) {
    forall i | 0 <= i < |s| :: env.isSpace(s[i])
  }

  predicate Carries(env: Text, description: string, text: string) {
    !Blank(env, text) && Contains(env.redact(description), env.redact(text))
  }

  /** The findings the description does not carry, redacted, in their order. */
  function Absent(env: Text, description: string, texts: seq<string>): seq<string> {
    if texts == [] then []
    else
      var rest := Absent(env, description, texts[..|texts| - 1]);
      var t := texts[|texts| - 1];
      if Carries(env, description, t) then rest else rest + [env.redact(t)]
  }

  lemma {:induction false} NothingAbsent(env: Text, description: string, texts: seq<string>)
    ensures Absent(env, description, texts) == []
       <==> forall i | 0 <= i < |texts| :: Carries(env, description, texts[i])
  {
    if texts != [] {
      var n := |texts| - 1;
      NothingAbsent(env, description, texts[..n]);
      assert forall i | 0 <= i < n :: texts[..n][i] == texts[i];
    }
  }

  lemma EdgeExactly(deps: seq<Dep>, epic: Id, panelBead: Id)
    ensures HasEdge(deps, epic, panelBead) <==>
      || Dep(epic, "discovered-from") in deps
      || (panelBead != "" && Dep(panelBead, "discovered-from") in deps)
  {
    if Dep(epic, "discovered-from") in deps {
      var k :| 0 <= k < |deps| && deps[k] == Dep(epic, "discovered-from");
      assert deps[k].kind == "discovered-from" && deps[k].id == epic;
    }
    if panelBead != "" && Dep(panelBead, "discovered-from") in deps {
      var k :| 0 <= k < |deps| && deps[k] == Dep(panelBead, "discovered-from");
      assert deps[k].kind == "discovered-from" && deps[k].id == panelBead;
    }
    if HasEdge(deps, epic, panelBead) {
      var i :| 0 <= i < |deps| && deps[i].kind == "discovered-from"
               && (deps[i].id == epic || (panelBead != "" && deps[i].id == panelBead));
      assert deps[i] == Dep(deps[i].id, "discovered-from");
    }
  }

  lemma ContainsExactly(s: string, t: string)
    ensures Contains(s, t) <==> exists before, after :: s == before + t + after
  {
    if i :| 0 <= i <= |s| && t <= s[i..] {
      assert s == s[..i] + s[i..] && s[i..] == t + s[i..][|t|..];
      assert s == s[..i] + t + s[i..][|t|..];
    }
    if before, after :| s == before + t + after {
      assert s[|before|..] == t + after;
    }
  }

  /** The text has something visible in it, and stands redacted in the redacted description. */
  ghost predicate Quoted(env: Text, description: string, text: string) {
    && (exists i | 0 <= i < |text| :: !env.isSpace(text[i]))
    && exists before, after :: env.redact(description) == before + env.redact(text) + after
  }

  lemma QuotedExactly(env: Text, description: string, text: string)
    ensures Carries(env, description, text) <==> Quoted(env, description, text)
  {
    ContainsExactly(env.redact(description), env.redact(text));
  }

  /** Acceptance in terms of the issues' own fields. */
  ghost predicate Acceptable(store: Store, id: Id, epic: Id, panelBead: Id, texts: seq<string>, env: Text) {
    && Readable(store, id) && store[id].status != ""
    && (forall word | word in {"closed", "done", "tombstone"} :: !EqualFold(store[id].status, word))
    && ProperAncestry(store, id, epic)
    && (Dep(epic, "discovered-from") in store[id].deps
        || (panelBead != "" && Dep(panelBead, "discovered-from") in store[id].deps))
    && forall text | text in texts :: Quoted(env, store[id].description, text)
  }

  lemma AcceptableExactly(store: Store, id: Id, epic: Id, panelBead: Id, texts: seq<string>, env: Text)
    requires Readable(store, id)
    ensures Acceptable(store, id, epic, panelBead, texts, env) <==>
      && IsOpen(store[id].status) && OutsideAndUnique(store, id, epic) && HasEdge(store[id].deps, epic, panelBead)
      && forall i | 0 <= i < |texts| :: Carries(env, store[id].description, texts[i])
  {
    AncestryExactly(store, id, epic);
    EdgeExactly(store[id].deps, epic, panelBead);
    forall text ensures Carries(env, store[id].description, text) <==> Quoted(env, store[id].description, text) {
      QuotedExactly(env, store[id].description, text);
    }
    hide Carries, Quoted, HasEdge, OutsideAndUnique, ProperAncestry;
    assert forall i | 0 <= i < |texts| :: texts[i] in texts;
    var status := store[id].status;
    assert IsOpen(status) <==>
      status != "" && forall word | word in {"closed", "done", "tombstone"} :: !EqualFold(status, word);
  }

  /** Accepted means: an open bead outside the epic with a tree of readable ancestors, a
      discovered-from edge to the epic or the reviewed bead, and every finding, redacted,
      in the redacted description. A missing edge and missing texts are reported together. */
  method CheckDeferral(store: Store, id: Id, epic: Id, epicValid: bool, panelBead: Id, texts: seq<string>, env: Text)
    returns (r: Outcome)
    ensures r == Accepted <==>
      && epicValid && Readable(store, id) && IsOpen(store[id].status)
      && OutsideAndUnique(store, id, epic)
      && HasEdge(store[id].deps, epic, panelBead)
      && forall i | 0 <= i < |texts| :: Carries(env, store[id].description, texts[i])
    ensures r == Accepted <==> epicValid && Acceptable(store, id, epic, panelBead, texts, env)
    ensures r.Missing? ==>
      && epicValid && Readable(store, id) && IsOpen(store[id].status) && OutsideAndUnique(store, id, epic)
      && r.noEdge == !HasEdge(store[id].deps, epic, panelBead)
      && r.absent == Absent(env, store[id].description, texts)
    ensures r == EpicUnavailable <==> !epicValid
    ensures r == NotOpen <==> epicValid && Readable(store, id) && !IsOpen(store[id].status)
    ensures r == InsideEpic ==> ReachesEpic(store, id, epic)
    ensures r == Cycle ==> ReachedTwice(store, id)
    ensures r == Unreadable ==> ReachesUnreadable(store, id)
  {
    if Readable(store, id) { AcceptableExactly(store, id, epic, panelBead, texts, env); }
    assert Acceptable(store, id, epic, panelBead, texts, env) ==> Readable(store, id);
    hide Acceptable, HasEdge, Carries, Absent, OutsideAndUnique, IsOpen;
    if !epicValid { return EpicUnavailable; }
    if id !in store || store[id].id != id {
      assert End(store, id, Root) == Some(id);
      return Unreadable;
    }
    var b := store[id];
    if !IsOpen(b.status) { return NotOpen; }
    r := Walk(store, b, epic);
    if r != Accepted { return; }
    var edge := FindEdge(b.deps, epic, panelBead);
    var absent := FindAbsent(env, b.description, texts);
    NothingAbsent(env, b.description, texts);
    r := if edge && absent == [] then Accepted else Missing(!edge, absent);
  }

  method FindEdge(deps: seq<Dep>, epic: Id, panelBead: Id) returns (edge: bool)
    ensures edge <==> HasEdge(deps, epic, panelBead)
  {
    edge := false;
    for i := 0 to |deps|
      invariant edge <==> HasEdge(deps[..i], epic, panelBead)
    {
      assert forall j | 0 <= j < i :: deps[..i + 1][j] == deps[..i][j];
      assert deps[..i + 1][i] == deps[i];
      var dep := deps[i];
      if dep.kind == "discovered-from" && (dep.id == epic || (panelBead != "" && dep.id == panelBead)) { edge := true; }
    }
    assert deps[..|deps|] == deps;
  }

  method FindAbsent(env: Text, description: string, texts: seq<string>) returns (absent: seq<string>)
    ensures absent == Absent(env, description, texts)
  {
    absent := [];
    for i := 0 to |texts|
      invariant absent == Absent(env, description, texts[..i])
    {
      assert texts[..i + 1][..i] == texts[..i];
      if !Carries(env, description, texts[i]) { absent := absent + [env.redact(texts[i])]; }
    }
    assert texts[..|texts|] == texts;
  }
}
