/** The canonical one-level task hierarchy: the rules of a single task and of a whole collection. */
module Hierarchy {
  import opened Options
  import opened Text

  datatype TaskType = Parent | Subtask

  datatype Task = Task(id: string, contextId: string, taskType: TaskType, parentTask: Option<string>, rootTask: string)

  /** `TASK-YYYY-NNN`. */
  predicate IsParentId(id: string) {
    |id| == 13 && id[..5] == "TASK-" && AllDigits(id[5..9]) && id[9] == '-' && AllDigits(id[10..])
  }

  /** `<parent>-STNN`. */
  predicate IsSubtaskOf(parent: string, id: string) {
    && |id| == |parent| + 5 && id[..|parent|] == parent
    && id[|parent|..|parent| + 3] == "-ST" && AllDigits(id[|parent| + 3..])
  }

  lemma SubtaskShape(parent: string, digits: string)
    requires |digits| == 2 && AllDigits(digits)
    ensures IsSubtaskOf(parent, parent + "-ST" + digits)
  {
    var id := parent + "-ST" + digits;
    assert id[..|parent|] == parent;
    assert id[|parent|..|parent| + 3] == "-ST";
    assert id[|parent| + 3..] == digits;
  }

  /** `TASK-YYYY-NNN-STNN`. */
  predicate IsSubtaskId(id: string) {
    |id| == 18 && IsParentId(id[..13]) && id[13..16] == "-ST" && AllDigits(id[16..])
  }

  /** `id.rsplit("-ST", maxsplit=1)[0]`: everything before the last separator. */
  function BeforeLastSt(id: string): string {
    if |id| < 3 then id
    else if id[|id| - 3..] == "-ST" then id[..|id| - 3]
    else if Contains(id[..|id| - 1]) then BeforeLastSt(id[..|id| - 1])
    else id
  }

  predicate Contains(s: string) {
    |s| >= 3 && (s[|s| - 3..] == "-ST" || Contains(s[..|s| - 1]))
  }

  /** The model validator of one task, branch by branch, with the patterns of its three id fields. */
  predicate Consistent(t: Task) {
    && (IsParentId(t.id) || IsSubtaskId(t.id)) && IsParentId(t.rootTask)
    && (t.parentTask.Some? ==> IsParentId(t.parentTask.value))
    && if t.taskType == Parent
       then IsParentId(t.id) && t.parentTask == None && t.rootTask == t.id
       else IsSubtaskId(t.id) && t.parentTask == Some(BeforeLastSt(t.id)) && t.rootTask == BeforeLastSt(t.id)
  }

  lemma SubtaskPrefix(id: string)
    requires IsSubtaskId(id)
    ensures BeforeLastSt(id) == id[..13] && IsSubtaskOf(id[..13], id)
  {
    var a, b := id[..17], id[..16];
    assert id[15..][0] == id[15] && id[16..][0] == id[16] && id[16..][1] == id[17];
    assert a[..|a| - 1] == b && b[|b| - 3..] == id[13..16] == "-ST";
    assert b[..|b| - 3] == id[..13];
    assert a[14..][2] == id[16] && id[15..][2] == id[17];
    assert BeforeLastSt(b) == id[..13] && BeforeLastSt(a) == BeforeLastSt(b);
    assert id[..|id| - 1] == a;
  }

  /** What a consistent task is, without string splitting: a self-rooted parent or a child of its root. */
  lemma ConsistentMeaning(t: Task)
    ensures Consistent(t) <==>
              && IsParentId(t.rootTask)
              && if t.taskType == Parent then t.id == t.rootTask && t.parentTask == None
                 else t.parentTask == Some(t.rootTask) && IsSubtaskOf(t.rootTask, t.id)
  {
    if IsSubtaskId(t.id) {
      SubtaskPrefix(t.id);
    }
    if IsParentId(t.rootTask) && IsSubtaskOf(t.rootTask, t.id) {
      assert t.id[..13] == t.rootTask && IsSubtaskId(t.id);
    }
  }

  // ------------------------------------------------------- whole collection

  datatype Failure =
    | DuplicateId(id: string)
    | MixedContexts
    | MissingParent(id: string)
    | ParentIsSubtask(id: string)
    | RootMismatch(id: string)

  ghost predicate DistinctIds(tasks: seq<Task>) {
    forall i, j | 0 <= i < j < |tasks| :: tasks[i].id != tasks[j].id
  }

  ghost predicate OneContext(tasks: seq<Task>) {
    forall i, j | 0 <= i < j < |tasks| :: tasks[i].contextId == tasks[j].contextId
  }

  ghost predicate HasParent(tasks: seq<Task>, t: Task) {
    exists i :: 0 <= i < |tasks| && t.parentTask == Some(tasks[i].id) && tasks[i].taskType == Parent
        && tasks[i].rootTask == t.rootTask
  }

  ghost predicate Orphan(tasks: seq<Task>, t: Task) {
    t.taskType == Subtask && forall k | 0 <= k < |tasks| :: t.parentTask != Some(tasks[k].id)
  }

  ghost predicate ValidHierarchy(tasks: seq<Task>) {
    && DistinctIds(tasks) && OneContext(tasks)
    && forall i | 0 <= i < |tasks| && tasks[i].taskType == Subtask :: HasParent(tasks, tasks[i])
  }

  /** The dictionary of the first pass, or the first repeated identifier. */
  method IndexById(tasks: seq<Task>) returns (byId: map<string, Task>, repeated: Option<string>)
    ensures repeated.None? <==> DistinctIds(tasks)
    ensures repeated.None? ==> forall i | 0 <= i < |tasks| :: tasks[i].id in byId && byId[tasks[i].id] == tasks[i]
    ensures repeated.None? ==> forall id | id in byId :: exists i :: 0 <= i < |tasks| && tasks[i].id == id
  {
    byId := map[];
    for i := 0 to |tasks|
      invariant forall j, k | 0 <= j < k < i :: tasks[j].id != tasks[k].id
      invariant forall j | 0 <= j < i :: tasks[j].id in byId && byId[tasks[j].id] == tasks[j]
      invariant forall id | id in byId :: exists j :: 0 <= j < i && tasks[j].id == id
    {
      if tasks[i].id in byId {
        return byId, Some(tasks[i].id);
      }
      byId := byId[tasks[i].id := tasks[i]];
      assert tasks[i].id in byId;
    }
    repeated := None;
  }

  method SameContext(tasks: seq<Task>) returns (same: bool)
    ensures same <==> OneContext(tasks)
  {
    var contexts: set<string> := {};
    for i := 0 to |tasks|
      invariant forall j | 0 <= j < i :: tasks[j].contextId in contexts
      invariant forall c | c in contexts :: exists j :: 0 <= j < i && tasks[j].contextId == c
    {
      contexts := contexts + {tasks[i].contextId};
    }
    if |contexts| > 1 {
      var a :| a in contexts;
      assert |contexts - {a}| == |contexts| - 1;
      var b :| b in contexts - {a};
      return false;
    }
    forall i, j | 0 <= i < j < |tasks| ensures tasks[i].contextId == tasks[j].contextId {
      if tasks[i].contextId != tasks[j].contextId {
        PairHasTwo(contexts, tasks[i].contextId, tasks[j].contextId);
      }
    }
    same := true;
  }

  lemma PairHasTwo(s: set<string>, a: string, b: string)
    requires a in s && b in s && a != b
    ensures |s| > 1
  {
    assert |s - {a}| == |s| - 1;
    assert b in s - {a};
  }

  /** Accepts exactly the collections whose subtasks all have their parent, under one context and unique ids. */
  method ValidateTaskHierarchy(tasks: seq<Task>) returns (failure: Option<Failure>)
    ensures failure.None? <==> ValidHierarchy(tasks)
    ensures failure.Some? && failure.value.DuplicateId? <==> !DistinctIds(tasks)
    ensures failure == Some(MixedContexts) <==> DistinctIds(tasks) && !OneContext(tasks)
    ensures failure.Some? && failure.value.MissingParent? ==> exists i ::
              0 <= i < |tasks| && tasks[i].id == failure.value.id && Orphan(tasks, tasks[i])
    ensures failure.Some? && failure.value.ParentIsSubtask? ==> exists i, k ::
              0 <= i < |tasks| && 0 <= k < |tasks| && tasks[i].id == failure.value.id
              && tasks[i].parentTask == Some(tasks[k].id) && tasks[k].taskType == Subtask
    ensures failure.Some? && failure.value.RootMismatch? ==> exists i, k ::
              0 <= i < |tasks| && 0 <= k < |tasks| && tasks[i].id == failure.value.id
              && tasks[i].parentTask == Some(tasks[k].id) && tasks[k].rootTask != tasks[i].rootTask
  {
    var byId, repeated := IndexById(tasks);
    if repeated.Some? {
      return Some(DuplicateId(repeated.value));
    }
    var same := SameContext(tasks);
    if !same {
      return Some(MixedContexts);
    }
    for i := 0 to |tasks|
      invariant forall j | 0 <= j < i && tasks[j].taskType == Subtask :: HasParent(tasks, tasks[j])
    {
      var t := tasks[i];
      if t.taskType == Subtask {
        if t.parentTask.None? || t.parentTask.value !in byId {
          return Some(MissingParent(t.id));
        }
        var parent := byId[t.parentTask.value];
        if parent.taskType != Parent {
          return Some(ParentIsSubtask(t.id));
        }
        if parent.rootTask != t.rootTask {
          return Some(RootMismatch(t.id));
        }
        assert HasParent(tasks, t);
      }
    }
    failure := None;
  }
}
