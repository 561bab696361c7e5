/** Planning the canonical tasks: parent resolution, flattening to roots and identifier allocation. */
module TaskPlanner {
  import opened Options
  import opened Text
  import opened Hierarchy
  import opened Allocator
  import opened RootPath

  /** A legacy task; `authored` is the stripped authored parent, if there is a non-blank one. */
  datatype Legacy = Legacy(path: Path, oldId: Option<string>, authored: Option<string>)

  datatype Planned = Planned(path: Path, id: string, parentId: Option<string>, rootId: string)

  // ------------------------------------------------------ path resolution

  function Slashes(s: string): string {
    if s == "" then "" else [if s[0] == '\\' then '/' else s[0]] + Slashes(s[1..])
  }

  /** The parts of the authored path seen from the directory of `from`; an absolute one replaces it. */
  function CandidateParts(from: Path, authored: string): seq<string> {
    var portable := Slashes(authored);
    var directory := Split(from);
    if portable != "" && portable[0] == '/' then ["/"] + Split(portable)
    else directory[..|directory| - 1] + Split(portable)
  }

  /** The stack of names after the first `n` parts, or nothing once `..` has left the source tree. */
  function Collapse(parts: seq<string>, n: nat): Option<seq<string>>
    requires n <= |parts|
  {
    if n == 0 then Some([])
    else
      match Collapse(parts, n - 1)
      case None => None
      case Some(stack) =>
        if parts[n - 1] == "" || parts[n - 1] == "." then Some(stack)
        else if parts[n - 1] == ".." then if stack == [] then None else Some(stack[..|stack| - 1])
        else Some(stack + [parts[n - 1]])
  }

  /** How deep the first `n` parts lead, counting names up and `..` down. */
  function Depth(parts: seq<string>, n: nat): int
    requires n <= |parts|
  {
    if n == 0 then 0
    else Depth(parts, n - 1) + Weight(parts[n - 1])
  }

  function Weight(part: string): int {
    if part == "" || part == "." then 0 else if part == ".." then -1 else 1
  }

  ghost predicate Climbs(parts: seq<string>, n: nat)
    requires n <= |parts|
  {
    exists k :: 0 <= k <= n && Depth(parts, k) < 0
  }

  /** The name at level `j` was entered by `parts[i]`, and nothing after it goes back above that level. */
  ghost predicate EnteredBy(parts: seq<string>, n: nat, name: string, j: nat, i: nat)
    requires n <= |parts|
  {
    && i < n && parts[i] == name && Depth(parts, i) == j
    && forall k | i < k <= n :: Depth(parts, k) > j
  }

  ghost predicate Located(parts: seq<string>, n: nat, name: string, j: nat)
    requires n <= |parts|
  {
    exists i: nat :: EnteredBy(parts, n, name, j, i)
  }

  ghost predicate AllLocated(parts: seq<string>, n: nat, stack: seq<string>)
    requires n <= |parts|
  {
    |stack| == Depth(parts, n) && forall j | 0 <= j < |stack| :: Located(parts, n, stack[j], j)
  }

  /**
   MAIN: collapsing fails exactly when some prefix climbs above the source root; otherwise each
   remaining name is the last one entered at its level and never left again.
   */
  lemma {:induction false} CollapseMeaning(parts: seq<string>, n: nat)
    requires n <= |parts|
    ensures Collapse(parts, n).None? <==> Climbs(parts, n)
    ensures Collapse(parts, n).Some? ==> AllLocated(parts, n, Collapse(parts, n).value)
  {
    if n == 0 {
      assert Depth(parts, 0) == 0;
    } else {
      CollapseMeaning(parts, n - 1);
      if Collapse(parts, n).Some? {
        var stack := Collapse(parts, n).value;
        forall j | 0 <= j < |stack| ensures Located(parts, n, stack[j], j) {
          LevelKept(parts, n, j);
        }
      } else if Collapse(parts, n - 1).Some? {
        assert Depth(parts, n) < 0;
      }
    }
  }

  lemma LevelKept(parts: seq<string>, n: nat, j: nat)
    requires 0 < n <= |parts| && Collapse(parts, n - 1).Some? && Collapse(parts, n).Some?
    requires AllLocated(parts, n - 1, Collapse(parts, n - 1).value)
    requires j < |Collapse(parts, n).value|
    ensures Located(parts, n, Collapse(parts, n).value[j], j)
  {
    var stack := Collapse(parts, n - 1).value;
    if j < |stack| {
      assert Located(parts, n - 1, stack[j], j);
      var i: nat :| EnteredBy(parts, n - 1, stack[j], j, i);
      assert EnteredBy(parts, n, Collapse(parts, n).value[j], j, i);
    } else {
      assert EnteredBy(parts, n, parts[n - 1], j, n - 1);
    }
  }

  lemma {:induction false} EscapedForGood(parts: seq<string>, i: nat, n: nat)
    requires i <= n <= |parts| && Collapse(parts, i).None?
    ensures Collapse(parts, n).None?
  {
    if i < n {
      EscapedForGood(parts, i, n - 1);
    }
  }

  function Normalized(parts: seq<string>): string {
    match Collapse(parts, |parts|)
    case None => ""
    case Some(stack) => Join(stack)
  }

  /** The loop over the parts: `""` when the path escapes, the joined names otherwise. */
  method NormalizeRelative(parts: seq<string>) returns (r: string)
    ensures r == Normalized(parts)
    ensures Climbs(parts, |parts|) ==> r == ""
  {
    CollapseMeaning(parts, |parts|);
    var stack: seq<string> := [];
    for i := 0 to |parts|
      invariant Collapse(parts, i) == Some(stack)
    {
      var part := parts[i];
      if part == "" || part == "." {
        continue;
      }
      if part == ".." {
        if stack == [] {
          EscapedForGood(parts, i + 1, |parts|);
          return "";
        }
        stack := stack[..|stack| - 1];
      } else {
        stack := stack + [part];
      }
    }
    r := Join(stack);
  }

  // ---------------------------------------------------------- parent map

  ghost predicate DistinctPaths(tasks: seq<Legacy>) {
    forall i, j | 0 <= i < j < |tasks| :: tasks[i].path != tasks[j].path
  }

  function PathSet(tasks: seq<Legacy>): set<Path> {
    set t | t in tasks :: t.path
  }

  function WithOldId(tasks: seq<Legacy>, id: string): (r: seq<Legacy>)
    ensures forall t | t in r :: t in tasks && t.oldId == Some(id)
  {
    if tasks == [] then []
    else if tasks[0].oldId == Some(id) then [tasks[0]] + WithOldId(tasks[1..], id)
    else WithOldId(tasks[1..], id)
  }

  /** By legacy id, the least path winning; otherwise by the path relative to the task's own directory. */
  function Resolve(tasks: seq<Legacy>, t: Legacy, fold: Path -> string): (r: Option<Path>)
    ensures r.Some? ==> r.value in PathSet(tasks)
  {
    match t.authored
    case None => None
    case Some(value) =>
      var candidates := WithOldId(tasks, value);
      if candidates != [] then
        var sorted := SortBy(candidates, (c: Legacy) => fold(c.path));
        assert sorted[0] in multiset(sorted);
        assert sorted[0] in candidates;
        Some(sorted[0].path)
      else
        var path := Normalized(CandidateParts(t.path, value));
        if path in PathSet(tasks) then Some(path) else None
  }

  ghost predicate IsParentMap(tasks: seq<Legacy>, parents: Parents, fold: Path -> string) {
    && (forall i | 0 <= i < |tasks| ::
        tasks[i].path in parents && parents[tasks[i].path] == Resolve(tasks, tasks[i], fold))
    && (forall p | p in parents :: p in PathSet(tasks))
  }

  /** The legacy graph is whatever the authors wrote; only membership in the task set is guaranteed. */
  lemma ParentMapIsClosed(tasks: seq<Legacy>, parents: Parents, fold: Path -> string)
    requires IsParentMap(tasks, parents, fold)
    ensures Closed(parents)
  {
    forall x | x in parents && parents[x].Some? ensures parents[x].value in parents {
      var t :| t in tasks && t.path == x;
      var i :| 0 <= i < |tasks| && tasks[i] == t;
      var u :| u in tasks && u.path == parents[x].value;
      var j :| 0 <= j < |tasks| && tasks[j] == u;
    }
  }

  method ResolveParents(tasks: seq<Legacy>, fold: Path -> string) returns (parents: Parents)
    requires DistinctPaths(tasks)
    ensures IsParentMap(tasks, parents, fold)
  {
    parents := map[];
    for i := 0 to |tasks|
      invariant forall j | 0 <= j < i ::
                tasks[j].path in parents && parents[tasks[j].path] == Resolve(tasks, tasks[j], fold)
      invariant forall p | p in parents :: p in PathSet(tasks)
    {
      parents := parents[tasks[i].path := Resolve(tasks, tasks[i], fold)];
      assert tasks[i] in tasks;
    }
  }

  predicate RootedAt(parents: Parents, roots: map<Path, Path>, p: Path, fold: Path -> string) {
    p in roots && roots[p] == Root(parents, p, fold)
  }

  predicate HasGrandparent(parents: Parents, p: Path) {
    Step(parents, p).Some? && Step(parents, Step(parents, p).value).Some?
  }

  /** The second pass: every task's root, and the tasks whose depth was flattened. */
  method ResolveRoots(tasks: seq<Legacy>, parents: Parents, fold: Path -> string)
    returns (roots: map<Path, Path>, flattened: seq<Path>)
    ensures forall i | 0 <= i < |tasks| :: tasks[i].path in roots
    ensures forall p | p in roots :: p in PathSet(tasks) && RootedAt(parents, roots, p, fold)
    ensures forall p | p in flattened :: HasGrandparent(parents, p)
    ensures forall i | 0 <= i < |tasks| && HasGrandparent(parents, tasks[i].path) :: tasks[i].path in flattened
  {
    roots, flattened := map[], [];
    for i := 0 to |tasks|
      invariant forall j | 0 <= j < i :: tasks[j].path in roots
      invariant forall p | p in roots :: p in PathSet(tasks) && RootedAt(parents, roots, p, fold)
      invariant forall p | p in flattened :: HasGrandparent(parents, p)
      invariant forall j | 0 <= j < i && HasGrandparent(parents, tasks[j].path) :: tasks[j].path in flattened
    {
      var root, flat := RootTaskPath(tasks[i].path, parents, fold);
      FlattenedMeaning(parents, tasks[i].path, fold);
      roots := roots[tasks[i].path := root];
      assert tasks[i] in tasks;
      if flat {
        flattened := flattened + [tasks[i].path];
      }
    }
  }

  // ---------------------------------------------------------- allocation

  /** Distinct root paths in some order; the source iterates a set, so the order is not fixed. */
  method DistinctRoots(roots: map<Path, Path>) returns (r: seq<Path>)
    ensures NoRepeats(r) && forall p :: p in r <==> p in roots.Values
  {
    r := [];
    var rest := roots.Values;
    while rest != {}
      invariant rest <= roots.Values && NoRepeats(r)
      invariant forall p :: p in roots.Values <==> p in r || p in rest
      invariant forall p | p in r :: p !in rest
      decreases rest
    {
      var p :| p in rest;
      r := r + [p];
      rest := rest - {p};
    }
  }

  function TaskAt(tasks: seq<Legacy>, p: Path): (t: Legacy)
    requires p in PathSet(tasks)
    ensures t in tasks && t.path == p
  {
    if tasks[0].path == p then tasks[0] else
    assert p in PathSet(tasks[1..]) by {
      var t :| t in tasks && t.path == p;
      assert t in tasks[1..];
    }
    TaskAt(tasks[1..], p)
  }

  function OldId(tasks: seq<Legacy>, rootPaths: seq<Path>, k: nat): Option<string>
    requires k < |rootPaths| && forall p | p in rootPaths :: p in PathSet(tasks)
  {
    TaskAt(tasks, rootPaths[k]).oldId
  }

  /** The first `n` roots all keep their legacy identifiers: canonical, unused and pairwise different. */
  ghost predicate RootsKeepable(tasks: seq<Legacy>, rootPaths: seq<Path>, n: nat, used: set<string>)
    requires n <= |rootPaths| && forall p | p in rootPaths :: p in PathSet(tasks)
  {
    && (forall k | 0 <= k < n :: Keepable(OldId(tasks, rootPaths, k), used))
    && (forall j, k | 0 <= j < k < n :: OldId(tasks, rootPaths, j) != OldId(tasks, rootPaths, k))
  }

  ghost predicate Injective(ids: map<Path, string>) {
    forall p, q | p in ids && q in ids && ids[p] == ids[q] :: p == q
  }

  ghost predicate AllParentIds(ids: map<Path, string>) {
    forall p | p in ids :: IsParentId(ids[p])
  }

  /** One identifier per root so far, all new and different. */
  ghost predicate FreshIds(rootPaths: seq<Path>, k: nat, before: set<string>, ids: map<Path, string>)
    requires k <= |rootPaths|
  {
    && (forall j | 0 <= j < k :: rootPaths[j] in ids)
    && (forall p | p in ids :: p in rootPaths[..k] && ids[p] !in before)
    && Injective(ids)
  }

  /** They are all canonical exactly when the year has four digits or every legacy one could be kept. */
  ghost predicate CanonicalSoFar(tasks: seq<Legacy>, rootPaths: seq<Path>, k: nat, before: set<string>,
                                 ids: map<Path, string>, fourDigits: bool)
    requires k <= |rootPaths| && (forall p | p in rootPaths :: p in PathSet(tasks))
    requires forall j | 0 <= j < k :: rootPaths[j] in ids
  {
    && (AllParentIds(ids) <==> fourDigits || RootsKeepable(tasks, rootPaths, k, before))
    && (RootsKeepable(tasks, rootPaths, k, before) ==>
          forall j | 0 <= j < k :: OldId(tasks, rootPaths, j) == Some(ids[rootPaths[j]]))
  }

  lemma FreshStep(rootPaths: seq<Path>, k: nat, before: set<string>, ids: map<Path, string>, id: string)
    requires k < |rootPaths| && NoRepeats(rootPaths) && FreshIds(rootPaths, k, before, ids)
    requires id !in before + ids.Values
    ensures rootPaths[k] !in ids && FreshIds(rootPaths, k + 1, before, ids[rootPaths[k] := id])
  {
    assert rootPaths[..k + 1] == rootPaths[..k] + [rootPaths[k]];
  }

  /** A value allocated earlier is a value of the map, so it can only be kept once. */
  lemma KeepableBeforeAndNow(tasks: seq<Legacy>, rootPaths: seq<Path>, k: nat, before: set<string>,
                             ids: map<Path, string>)
    requires k < |rootPaths| && forall p | p in rootPaths :: p in PathSet(tasks)
    requires RootsKeepable(tasks, rootPaths, k, before)
    requires forall j | 0 <= j < k :: rootPaths[j] in ids
    requires forall p | p in ids :: p in rootPaths[..k]
    requires forall j | 0 <= j < k :: OldId(tasks, rootPaths, j) == Some(ids[rootPaths[j]])
    ensures Keepable(OldId(tasks, rootPaths, k), before + ids.Values) <==>
              RootsKeepable(tasks, rootPaths, k + 1, before)
  {
    var oldId := OldId(tasks, rootPaths, k);
    if RootsKeepable(tasks, rootPaths, k + 1, before) {
      assert Keepable(OldId(tasks, rootPaths, k), before);
      forall p | p in ids ensures ids[p] != oldId.value {
        var j :| 0 <= j < k && rootPaths[..k][j] == p;
        assert OldId(tasks, rootPaths, j) == Some(ids[p]);
      }
    }
    if Keepable(oldId, before + ids.Values) {
      forall j | 0 <= j < k ensures OldId(tasks, rootPaths, j) != oldId {
        assert ids[rootPaths[j]] in ids.Values;
      }
    }
  }

  lemma CanonicalStep(tasks: seq<Legacy>, rootPaths: seq<Path>, k: nat, before: set<string>,
                      ids: map<Path, string>, fourDigits: bool, id: string)
    requires k < |rootPaths| && NoRepeats(rootPaths) && forall p | p in rootPaths :: p in PathSet(tasks)
    requires FreshIds(rootPaths, k, before, ids) && rootPaths[k] !in ids
    requires CanonicalSoFar(tasks, rootPaths, k, before, ids, fourDigits)
    requires Keepable(OldId(tasks, rootPaths, k), before + ids.Values) ==>
              OldId(tasks, rootPaths, k) == Some(id) && IsParentId(id)
    requires !Keepable(OldId(tasks, rootPaths, k), before + ids.Values) ==> (IsParentId(id) <==> fourDigits)
    ensures CanonicalSoFar(tasks, rootPaths, k + 1, before, ids[rootPaths[k] := id], fourDigits)
  {
    var next := ids[rootPaths[k] := id];
    AllParentIdsOneMore(ids, rootPaths[k], id);
    if RootsKeepable(tasks, rootPaths, k, before) {
      KeepableBeforeAndNow(tasks, rootPaths, k, before, ids);
    }
  }

  lemma AllParentIdsOneMore(ids: map<Path, string>, p: Path, id: string)
    requires p !in ids
    ensures AllParentIds(ids[p := id]) <==> AllParentIds(ids) && IsParentId(id)
  {
    var next := ids[p := id];
    assert forall q | q in ids :: next[q] == ids[q];
    assert next[p] == id;
  }

  ghost predicate RootsSoFar(tasks: seq<Legacy>, rootPaths: seq<Path>, k: nat, before: set<string>,
                             ids: map<Path, string>, fourDigits: bool)
    requires k <= |rootPaths| && forall p | p in rootPaths :: p in PathSet(tasks)
  {
    FreshIds(rootPaths, k, before, ids) && CanonicalSoFar(tasks, rootPaths, k, before, ids, fourDigits)
  }

  /** One parent identifier per distinct root, in case-folded order of the roots. */
  method AllocateRoots(allocator: IdAllocator, tasks: seq<Legacy>, rootPaths: seq<Path>)
    returns (r: Option<map<Path, string>>)
    requires NoRepeats(rootPaths) && forall p | p in rootPaths :: p in PathSet(tasks)
    modifies allocator
    ensures r.Some? ==> allocator.used == old(allocator.used) + r.value.Values
    ensures r.Some? ==> RootsSoFar(tasks, rootPaths, |rootPaths|, old(allocator.used), r.value,
              1000 <= allocator.year <= 9999)
  {
    var ids: map<Path, string> := map[];
    for k := 0 to |rootPaths|
      invariant allocator.used == old(allocator.used) + ids.Values
      invariant RootsSoFar(tasks, rootPaths, k, old(allocator.used), ids, 1000 <= allocator.year <= 9999)
    {
      var next := AllocateNextRoot(allocator, tasks, rootPaths, k, old(allocator.used), ids);
      if next.None? {
        return None;
      }
      ids := next.value;
    }
    r := Some(ids);
  }

  method AllocateNextRoot(allocator: IdAllocator, tasks: seq<Legacy>, rootPaths: seq<Path>, k: nat,
                          ghost before: set<string>, ids: map<Path, string>)
    returns (next: Option<map<Path, string>>)
    requires k < |rootPaths| && NoRepeats(rootPaths) && forall p | p in rootPaths :: p in PathSet(tasks)
    requires allocator.used == before + ids.Values
    requires RootsSoFar(tasks, rootPaths, k, before, ids, 1000 <= allocator.year <= 9999)
    modifies allocator
    ensures next.Some? ==> allocator.used == before + next.value.Values
    ensures next.Some? ==> RootsSoFar(tasks, rootPaths, k + 1, before, next.value, 1000 <= allocator.year <= 9999)
  {
    var id := AllocateRoot(allocator, OldId(tasks, rootPaths, k));
    if id.None? {
      return None;
    }
    FreshStep(rootPaths, k, before, ids, id.value);
    CanonicalStep(tasks, rootPaths, k, before, ids, 1000 <= allocator.year <= 9999, id.value);
    NewValue(ids, rootPaths[k], id.value);
    next := Some(ids[rootPaths[k] := id.value]);
  }

  method AllocateRoot(allocator: IdAllocator, oldId: Option<string>) returns (id: Option<string>)
    modifies allocator
    ensures id.Some? ==> id.value !in old(allocator.used) && allocator.used == old(allocator.used) + {id.value}
    ensures id.Some? && Keepable(oldId, old(allocator.used)) ==> oldId == id
    ensures id.Some? && !Keepable(oldId, old(allocator.used)) ==>
              (IsParentId(id.value) <==> 1000 <= allocator.year <= 9999)
  {
    id := allocator.AllocateParentTask(oldId);
    if id.Some? && !Keepable(oldId, old(allocator.used)) {
      allocator.YearlyIsParentId(id.value);
    }
  }

  lemma NewValue(ids: map<Path, string>, p: Path, id: string)
    requires p !in ids
    ensures ids[p := id].Values == ids.Values + {id}
  {
    var next := ids[p := id];
    forall v | v in ids.Values + {id} ensures v in next.Values {
      if v == id {
        assert next[p] == id;
      } else {
        var q :| q in ids && ids[q] == v;
        assert next[q] == v;
      }
    }
  }

  // ------------------------------------------------------------ the plan

  /** Where a planned task sits: it is its own root, or a subtask directly under its root. */
  predicate PlacedIn(roots: map<Path, Path>, ids: map<Path, string>, p: Planned) {
    && p.path in roots && roots[p.path] in ids && p.rootId == ids[roots[p.path]]
    && if p.path == roots[p.path] then p.id == p.rootId && p.parentId == None
       else p.parentId == Some(p.rootId) && IsSubtaskOf(p.rootId, p.id)
  }

  ghost predicate DistinctPlanIds(plan: seq<Planned>) {
    forall i, j | 0 <= i < j < |plan| :: plan[i].id != plan[j].id
  }

  ghost predicate Covers(tasks: seq<Legacy>, plan: seq<Planned>) {
    |plan| == |tasks| && forall i | 0 <= i < |plan| :: plan[i].path == tasks[i].path
  }

  /** Root tasks take the identifier of their root, all others a fresh subtask identifier. */
  method AllocateTasks(allocator: IdAllocator, sorted: seq<Legacy>, roots: map<Path, Path>, ids: map<Path, string>)
    returns (r: Option<seq<Planned>>)
    requires DistinctPaths(sorted) && ids.Values <= allocator.used && Injective(ids)
    requires forall i | 0 <= i < |sorted| :: sorted[i].path in roots && roots[sorted[i].path] in ids
    modifies allocator
    ensures r.Some? ==> Covers(sorted, r.value) && DistinctPlanIds(r.value)
    ensures r.Some? ==> forall i | 0 <= i < |r.value| :: PlacedIn(roots, ids, r.value[i])
    ensures r.Some? ==> forall i | 0 <= i < |r.value| ::
              r.value[i].id in ids.Values || r.value[i].id !in old(allocator.used)
  {
    var plan: seq<Planned> := [];
    for i := 0 to |sorted|
      invariant |plan| == i && old(allocator.used) <= allocator.used
      invariant forall j | 0 <= j < i :: plan[j].path == sorted[j].path
      invariant forall j | 0 <= j < i :: PlacedIn(roots, ids, plan[j])
      invariant forall j | 0 <= j < i :: plan[j].id in allocator.used
      invariant forall j | 0 <= j < i && plan[j].path != roots[plan[j].path] :: plan[j].id !in old(allocator.used)
      invariant DistinctPlanIds(plan)
    {
      var t := sorted[i];
      var root := roots[t.path];
      var rootId := ids[root];
      assert rootId in ids.Values;
      if t.path == root {
        plan := plan + [Planned(t.path, rootId, None, rootId)];
      } else {
        var id := allocator.AllocateSubtask(rootId, t.oldId);
        if id.None? {
          return None;
        }
        plan := plan + [Planned(t.path, id.value, Some(rootId), rootId)];
      }
    }
    r := Some(plan);
  }

  /** The canonical task written for a planned one. */
  function ToTask(contextId: string, p: Planned): Task {
    Task(p.id, contextId, if p.parentId.None? then Parent else Subtask, p.parentId, p.rootId)
  }

  function ToTasks(contextId: string, plan: seq<Planned>): seq<Task> {
    seq(|plan|, i requires 0 <= i < |plan| => ToTask(contextId, plan[i]))
  }

  ghost predicate AllConsistent(tasks: seq<Task>) {
    forall i | 0 <= i < |tasks| :: Consistent(tasks[i])
  }

  /** Any plan of this shape passes the whole-collection check, cycles and deep chains included. */
  lemma PlanIsHierarchy(contextId: string, plan: seq<Planned>, roots: map<Path, Path>, ids: map<Path, string>)
    requires DistinctPlanIds(plan) && forall i | 0 <= i < |plan| :: PlacedIn(roots, ids, plan[i])
    requires forall p | p in roots :: roots[p] in roots && roots[roots[p]] == roots[p]
    requires forall p | p in roots :: exists j :: 0 <= j < |plan| && plan[j].path == p
    ensures ValidHierarchy(ToTasks(contextId, plan))
  {
    var tasks := ToTasks(contextId, plan);
    forall i | 0 <= i < |tasks| && tasks[i].taskType == Subtask ensures HasParent(tasks, tasks[i]) {
      assert PlacedIn(roots, ids, plan[i]);
      var root := roots[plan[i].path];
      var j :| 0 <= j < |plan| && plan[j].path == root;
      assert PlacedIn(roots, ids, plan[j]);
      assert tasks[j] == ToTask(contextId, plan[j]);
    }
  }

  /** The tasks are canonical one by one exactly when all the root identifiers are. */
  lemma PlanIsConsistent(contextId: string, plan: seq<Planned>, roots: map<Path, Path>, ids: map<Path, string>)
    requires forall i | 0 <= i < |plan| :: PlacedIn(roots, ids, plan[i])
    requires forall p | p in ids :: exists j :: 0 <= j < |plan| && plan[j].path in roots && roots[plan[j].path] == p
    ensures AllConsistent(ToTasks(contextId, plan)) <==> AllParentIds(ids)
  {
    var tasks := ToTasks(contextId, plan);
    forall i | 0 <= i < |tasks| ensures Consistent(tasks[i]) <==> IsParentId(plan[i].rootId) {
      ConsistentMeaning(tasks[i]);
      assert PlacedIn(roots, ids, plan[i]);
    }
    if AllConsistent(tasks) {
      forall p | p in ids ensures IsParentId(ids[p]) {
        var j :| 0 <= j < |plan| && plan[j].path in roots && roots[plan[j].path] == p;
        assert PlacedIn(roots, ids, plan[j]) && Consistent(tasks[j]);
      }
    }
    if AllParentIds(ids) {
      forall i | 0 <= i < |tasks| ensures Consistent(tasks[i]) {
        assert PlacedIn(roots, ids, plan[i]);
      }
    }
  }

  function ByPath(fold: Path -> string): Legacy -> string {
    (t: Legacy) => fold(t.path)
  }

  /** Sorting changes neither which tasks there are nor that their paths differ. */
  lemma SortedTasks(tasks: seq<Legacy>, fold: Path -> string)
    requires DistinctPaths(tasks)
    ensures var sorted := SortBy(tasks, ByPath(fold));
            DistinctPaths(sorted) && PathSet(sorted) == PathSet(tasks) && |sorted| == |tasks|
  {
    var sorted := SortBy(tasks, ByPath(fold));
    PermutationKeepsDistinct(tasks, sorted, (t: Legacy) => t.path);
    forall t ensures t in sorted <==> t in tasks {
      assert t in multiset(sorted) <==> t in multiset(tasks);
    }
  }

  lemma SortedRoots(found: seq<Path>, fold: Path -> string)
    requires NoRepeats(found)
    ensures var sorted := SortBy(found, fold); NoRepeats(sorted) && forall p :: p in sorted <==> p in found
  {
    var sorted := SortBy(found, fold);
    PermutationKeepsDistinct(found, sorted, (p: Path) => p);
    forall p ensures p in sorted <==> p in found {
      assert p in multiset(sorted) <==> p in multiset(found);
    }
  }

  /** The outcome of the first two passes over the tasks. */
  ghost predicate Analyzed(tasks: seq<Legacy>, parents: Parents, roots: map<Path, Path>, rootPaths: seq<Path>,
                           fold: Path -> string) {
    && IsParentMap(tasks, parents, fold)
    && (forall i | 0 <= i < |tasks| :: tasks[i].path in roots)
    && (forall p | p in roots :: p in PathSet(tasks) && RootedAt(parents, roots, p, fold))
    && NoRepeats(rootPaths) && (forall p :: p in rootPaths <==> p in roots.Values)
  }

  /** The roots of the tasks of a closed graph are tasks and their own roots. */
  lemma RootsAreTasks(tasks: seq<Legacy>, parents: Parents, roots: map<Path, Path>, rootPaths: seq<Path>,
                      fold: Path -> string)
    requires Analyzed(tasks, parents, roots, rootPaths, fold)
    ensures forall p | p in roots :: roots[p] in roots && roots[roots[p]] == roots[p]
    ensures forall p | p in rootPaths :: p in PathSet(tasks) && p in roots && roots[p] == p
  {
    ParentMapIsClosed(tasks, parents, fold);
    forall p | p in roots ensures roots[p] in roots && roots[roots[p]] == roots[p] {
      assert RootedAt(parents, roots, p, fold);
      var t :| t in tasks && t.path == p;
      RootIsInside(parents, p, fold);
      var u :| u in tasks && u.path == roots[p];
      assert RootedAt(parents, roots, roots[p], fold);
      RootIsFixed(parents, p, fold);
    }
  }

  ghost predicate IsRootOf(tasks: seq<Legacy>, parents: Parents, p: Path, fold: Path -> string) {
    exists i :: 0 <= i < |tasks| && p == Root(parents, tasks[i].path, fold)
  }

  lemma RootPathsMeaning(tasks: seq<Legacy>, parents: Parents, roots: map<Path, Path>, rootPaths: seq<Path>,
                         fold: Path -> string, p: Path)
    requires Analyzed(tasks, parents, roots, rootPaths, fold)
    ensures p in rootPaths <==> IsRootOf(tasks, parents, p, fold)
  {
    if p in rootPaths {
      var q :| q in roots && roots[q] == p;
      assert RootedAt(parents, roots, q, fold);
      var t :| t in tasks && t.path == q;
    }
    if i :| 0 <= i < |tasks| && p == Root(parents, tasks[i].path, fold) {
      assert RootedAt(parents, roots, tasks[i].path, fold);
    }
  }

  method Analyze(tasks: seq<Legacy>, fold: Path -> string)
    returns (parents: Parents, roots: map<Path, Path>, rootPaths: seq<Path>, flattened: seq<Path>)
    requires DistinctPaths(tasks)
    ensures Analyzed(tasks, parents, roots, rootPaths, fold)
    ensures forall p | p in flattened :: HasGrandparent(parents, p)
    ensures forall i | 0 <= i < |tasks| && HasGrandparent(parents, tasks[i].path) :: tasks[i].path in flattened
  {
    parents := ResolveParents(tasks, fold);
    roots, flattened := ResolveRoots(tasks, parents, fold);
    var found := DistinctRoots(roots);
    SortedRoots(found, fold);
    rootPaths := SortBy(found, fold);
  }

  ghost predicate FreshPlan(plan: seq<Planned>, used: set<string>) {
    forall i | 0 <= i < |plan| :: plan[i].id !in used
  }

  ghost predicate OneIdPerRoot(parents: Parents, plan: seq<Planned>, fold: Path -> string) {
    forall i, j | 0 <= i < |plan| && 0 <= j < |plan| ::
      plan[i].rootId == plan[j].rootId <==> Root(parents, plan[i].path, fold) == Root(parents, plan[j].path, fold)
  }

  ghost predicate AllPlaced(roots: map<Path, Path>, ids: map<Path, string>, plan: seq<Planned>) {
    forall i | 0 <= i < |plan| :: PlacedIn(roots, ids, plan[i])
  }

  lemma PathIsPlanned(sorted: seq<Legacy>, plan: seq<Planned>, p: Path)
    requires Covers(sorted, plan) && p in PathSet(sorted)
    ensures exists j :: 0 <= j < |plan| && plan[j].path == p
  {
    var t :| t in sorted && t.path == p;
    var j :| 0 <= j < |sorted| && sorted[j] == t;
    assert plan[j].path == p;
  }

  lemma RootsShareIds(parents: Parents, roots: map<Path, Path>, ids: map<Path, string>, plan: seq<Planned>,
                      fold: Path -> string)
    requires forall p | p in roots :: RootedAt(parents, roots, p, fold)
    requires AllPlaced(roots, ids, plan) && Injective(ids)
    ensures OneIdPerRoot(parents, plan, fold)
  {
    forall i, j | 0 <= i < |plan| && 0 <= j < |plan|
      ensures plan[i].rootId == plan[j].rootId <==>
                Root(parents, plan[i].path, fold) == Root(parents, plan[j].path, fold)
    {
      assert PlacedIn(roots, ids, plan[i]) && PlacedIn(roots, ids, plan[j]);
      assert RootedAt(parents, roots, plan[i].path, fold) && RootedAt(parents, roots, plan[j].path, fold);
    }
  }

  /** The plan passes the hierarchy check, and the roots alone decide whether its tasks are canonical. */
  lemma PlanIsGood(contextId: string, tasks: seq<Legacy>, sorted: seq<Legacy>, plan: seq<Planned>, parents: Parents,
                   roots: map<Path, Path>, rootPaths: seq<Path>, ids: map<Path, string>, fold: Path -> string)
    requires Analyzed(tasks, parents, roots, rootPaths, fold)
    requires PathSet(sorted) == PathSet(tasks) && Covers(sorted, plan) && DistinctPlanIds(plan)
    requires AllPlaced(roots, ids, plan) && forall p | p in ids :: p in rootPaths
    ensures ValidHierarchy(ToTasks(contextId, plan))
    ensures AllConsistent(ToTasks(contextId, plan)) <==> AllParentIds(ids)
  {
    RootsAreTasks(tasks, parents, roots, rootPaths, fold);
    forall p | p in roots ensures exists j :: 0 <= j < |plan| && plan[j].path == p {
      PathIsPlanned(sorted, plan, p);
    }
    PlanIsHierarchy(contextId, plan, roots, ids);
    PlanIsConsistent(contextId, plan, roots, ids);
  }

  lemma ReadyToAllocate(tasks: seq<Legacy>, sorted: seq<Legacy>, parents: Parents, roots: map<Path, Path>,
                        rootPaths: seq<Path>, ids: map<Path, string>, before: set<string>, fold: Path -> string)
    requires Analyzed(tasks, parents, roots, rootPaths, fold) && FreshIds(rootPaths, |rootPaths|, before, ids)
    requires PathSet(sorted) == PathSet(tasks)
    ensures forall i | 0 <= i < |sorted| :: sorted[i].path in roots && roots[sorted[i].path] in ids
    ensures Injective(ids) && forall p | p in ids :: p in rootPaths
  {
    forall i | 0 <= i < |sorted| ensures sorted[i].path in roots && roots[sorted[i].path] in ids {
      assert sorted[i].path in PathSet(tasks);
      var t :| t in tasks && t.path == sorted[i].path;
      assert roots[sorted[i].path] in rootPaths;
    }
  }

  /** The two allocation passes, for roots and paths that are already known. */
  method AllocatePlan(allocator: IdAllocator, tasks: seq<Legacy>, ghost parents: Parents, roots: map<Path, Path>,
                      rootPaths: seq<Path>, fold: Path -> string)
    returns (r: Option<seq<Planned>>, ghost ids: map<Path, string>)
    requires DistinctPaths(tasks) && Analyzed(tasks, parents, roots, rootPaths, fold)
    requires forall p | p in rootPaths :: p in PathSet(tasks)
    modifies allocator
    ensures r.Some? ==> Covers(SortBy(tasks, ByPath(fold)), r.value) && FreshPlan(r.value, old(allocator.used))
    ensures r.Some? ==> DistinctPlanIds(r.value) && AllPlaced(roots, ids, r.value) && Injective(ids)
    ensures r.Some? ==> forall p | p in ids :: p in rootPaths
    ensures r.Some? ==> (AllParentIds(ids) <==>
              1000 <= allocator.year <= 9999 || RootsKeepable(tasks, rootPaths, |rootPaths|, old(allocator.used)))
  {
    ids := map[];
    var rootIds := AllocateRoots(allocator, tasks, rootPaths);
    if rootIds.None? {
      return None, ids;
    }
    ids := rootIds.value;
    SortedTasks(tasks, fold);
    var sorted := SortBy(tasks, ByPath(fold));
    ReadyToAllocate(tasks, sorted, parents, roots, rootPaths, ids, old(allocator.used), fold);
    ghost var middle := allocator.used;
    r := AllocateTasks(allocator, sorted, roots, rootIds.value);
    if r.Some? {
      StillFresh(rootPaths, old(allocator.used), ids, middle, r.value);
    }
  }

  lemma StillFresh(rootPaths: seq<Path>, before: set<string>, ids: map<Path, string>, middle: set<string>,
                   plan: seq<Planned>)
    requires FreshIds(rootPaths, |rootPaths|, before, ids) && before <= middle
    requires forall i | 0 <= i < |plan| :: plan[i].id in ids.Values || plan[i].id !in middle
    ensures FreshPlan(plan, before)
  {
  }

  /**
   MAIN: whatever parents the legacy tasks were given, an allocator that does not run out yields a
   plan that passes the whole-collection check; its tasks are canonical one by one exactly when the
   migration year has four digits or every root could keep its legacy identifier.
   */
  method PlanTasks(allocator: IdAllocator, tasks: seq<Legacy>, fold: Path -> string, ghost contextId: string)
    returns (r: Option<seq<Planned>>, flattened: seq<Path>, ghost parents: Parents, ghost rootPaths: seq<Path>)
    requires DistinctPaths(tasks)
    modifies allocator
    ensures IsParentMap(tasks, parents, fold)
    ensures forall p :: p in rootPaths <==> IsRootOf(tasks, parents, p, fold)
    ensures forall p | p in rootPaths :: p in PathSet(tasks)
    ensures forall p | p in flattened :: HasGrandparent(parents, p)
    ensures forall i | 0 <= i < |tasks| && HasGrandparent(parents, tasks[i].path) :: tasks[i].path in flattened
    ensures r.Some? ==> Covers(SortBy(tasks, ByPath(fold)), r.value) && FreshPlan(r.value, old(allocator.used))
    ensures r.Some? ==> ValidHierarchy(ToTasks(contextId, r.value)) && OneIdPerRoot(parents, r.value, fold)
    ensures r.Some? ==> (AllConsistent(ToTasks(contextId, r.value)) <==>
              1000 <= allocator.year <= 9999 || RootsKeepable(tasks, rootPaths, |rootPaths|, old(allocator.used)))
  {
    var parentPaths, roots, ordered, flat := Analyze(tasks, fold);
    parents, rootPaths, flattened := parentPaths, ordered, flat;
    RootsAreTasks(tasks, parents, roots, rootPaths, fold);
    forall p ensures p in rootPaths <==> IsRootOf(tasks, parents, p, fold) {
      RootPathsMeaning(tasks, parents, roots, rootPaths, fold, p);
    }
    ghost var ids;
    r, ids := AllocatePlan(allocator, tasks, parents, roots, ordered, fold);
    if r.Some? {
      SortedTasks(tasks, fold);
      RootsShareIds(parents, roots, ids, r.value, fold);
      PlanIsGood(contextId, tasks, SortBy(tasks, ByPath(fold)), r.value, parents, roots, rootPaths, ids, fold);
    }
  }
}
