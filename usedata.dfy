// The write-side operations of hooks/useData.ts over a snapshot of the
// listeners' data: record construction for new items, the sibling
// reorderers, and updateTask with the recomputations it triggers.
module UseData {
  import opened Types
  import opened Ordering
  import opened Firestore
  import opened Progress

  /** Sort key of the step comparator: completed steps last, then `order`. */
  function StepRank(s: Step): SortKey
  {
    SortKey(if s.status == StepStatus.Completed then 1 else 0, s.order)
  }

  /** Sort key of the sub-task comparator: completed tasks last, then `order`. */
  function TaskRank(t: Task): SortKey
  {
    SortKey(if t.status == TaskStatus.Completed then 1 else 0, t.order)
  }

  // ---------------------------------------------------------------------
  // Insertion order: addStep, addTask, addConcern (useData.ts:136-148, 193-219)
  // ---------------------------------------------------------------------

  /** The `order` values of a sibling group are exactly 0..n-1. */
  predicate DenseOrders(orders: seq<int>)
  {
    && (forall i :: 0 <= i < |orders| ==> 0 <= orders[i] < |orders|)
    && (forall i, j :: 0 <= i < j < |orders| ==> orders[i] != orders[j])
  }

  function StepOrders(steps: seq<Step>): (os: seq<int>)
    ensures |os| == |steps| && forall i :: 0 <= i < |steps| ==> os[i] == steps[i].order
  {
    seq(|steps|, i requires 0 <= i < |steps| => steps[i].order)
  }

  function TaskOrders(tasks: seq<Task>): (os: seq<int>)
    ensures |os| == |tasks| && forall i :: 0 <= i < |tasks| ==> os[i] == tasks[i].order
  {
    seq(|tasks|, i requires 0 <= i < |tasks| => tasks[i].order)
  }

  /** Appending the next free order to a dense group keeps it dense. */
  lemma DenseAppend(os: seq<int>)
    requires DenseOrders(os)
    ensures DenseOrders(os + [|os|])
  {
  }

  /** `tasks.filter(t => t.parentTaskId === parent)`, strict equality on a
      nullable id: the siblings of a new top-level task are all tasks with
      a null parent, whatever their category. */
  function SiblingsOf(tasks: seq<Task>, parent: Option<Id>): (r: seq<Task>)
    ensures forall t :: t in r <==> t in tasks && t.parentTaskId == parent
  {
    if |tasks| == 0 then []
    else (if tasks[0].parentTaskId == parent then [tasks[0]] else []) + SiblingsOf(tasks[1..], parent)
  }

  lemma {:induction false} StepsOfSnoc(steps: seq<Step>, x: Step, parentTaskId: Id)
    ensures StepsOf(steps + [x], parentTaskId)
            == StepsOf(steps, parentTaskId) + (if x.parentTaskId == parentTaskId then [x] else [])
  {
    if steps == [] {
      assert [] + [x] == [x];
      assert [x][1..] == [];
    } else {
      assert (steps + [x])[1..] == steps[1..] + [x];
      StepsOfSnoc(steps[1..], x, parentTaskId);
    }
  }

  lemma {:induction false} SiblingsOfSnoc(tasks: seq<Task>, x: Task, parent: Option<Id>)
    ensures SiblingsOf(tasks + [x], parent)
            == SiblingsOf(tasks, parent) + (if x.parentTaskId == parent then [x] else [])
  {
    if tasks == [] {
      assert [] + [x] == [x];
      assert [x][1..] == [];
    } else {
      assert (tasks + [x])[1..] == tasks[1..] + [x];
      SiblingsOfSnoc(tasks[1..], x, parent);
    }
  }

  /** The step addStep hands to the store; `stepId` stands for the
      clock-derived `s<timestamp>` id written into the record. */
  function NewStep(snapshot: seq<Step>, parentTaskId: Id, title: string, stepId: Id): (s: Step)
    ensures s.parentTaskId == parentTaskId && s.title == title && s.id == stepId
    ensures s.status == StepStatus.Pending
    ensures s.order == |StepsOf(snapshot, parentTaskId)|
  {
    Step(stepId, parentTaskId, title, StepStatus.Pending, |StepsOf(snapshot, parentTaskId)|)
  }

  /** A new step takes the next free order: a dense group stays dense. */
  lemma NewStepKeepsOrdersDense(snapshot: seq<Step>, parentTaskId: Id, title: string, stepId: Id)
    requires DenseOrders(StepOrders(StepsOf(snapshot, parentTaskId)))
    ensures var s := NewStep(snapshot, parentTaskId, title, stepId);
      DenseOrders(StepOrders(StepsOf(snapshot + [s], parentTaskId)))
  {
    var group := StepsOf(snapshot, parentTaskId);
    var s := NewStep(snapshot, parentTaskId, title, stepId);
    StepsOfSnoc(snapshot, s, parentTaskId);
    assert StepOrders(group + [s]) == StepOrders(group) + [|group|];
    DenseAppend(StepOrders(group));
  }

  /** The form data addTask receives. */
  datatype TaskDraft = TaskDraft(title: string, description: string, category: TaskCategory, parentTaskId: Option<Id>)

  const TaskCreatedNote: string := "과제가 생성되었습니다."

  /** The task addTask hands to the store; `newId` is the id the store
      generates and `now` the creation timestamp. */
  function NewTask(snapshot: seq<Task>, draft: TaskDraft, newId: Id, now: string): (t: Task)
    ensures t.id == newId && t.title == draft.title && t.description == draft.description
    ensures t.category == draft.category && t.parentTaskId == draft.parentTaskId
    ensures t.relatedConcernId == None && t.status == TaskStatus.Pending && t.progressPercent == 0
    ensures t.progressLog == [LogEntry(now, TaskCreatedNote)]
    ensures t.order == |SiblingsOf(snapshot, draft.parentTaskId)|
  {
    Task(newId, draft.parentTaskId, None, draft.title, draft.description, draft.category,
         TaskStatus.Pending, 0, [LogEntry(now, TaskCreatedNote)], |SiblingsOf(snapshot, draft.parentTaskId)|)
  }

  /** A new task takes the next free order among its siblings. */
  lemma NewTaskKeepsOrdersDense(snapshot: seq<Task>, draft: TaskDraft, newId: Id, now: string)
    requires DenseOrders(TaskOrders(SiblingsOf(snapshot, draft.parentTaskId)))
    ensures var t := NewTask(snapshot, draft, newId, now);
      DenseOrders(TaskOrders(SiblingsOf(snapshot + [t], draft.parentTaskId)))
  {
    var group := SiblingsOf(snapshot, draft.parentTaskId);
    var t := NewTask(snapshot, draft, newId, now);
    SiblingsOfSnoc(snapshot, t, draft.parentTaskId);
    assert TaskOrders(group + [t]) == TaskOrders(group) + [|group|];
    DenseAppend(TaskOrders(group));
  }

  /** The form data addConcern receives. */
  datatype ConcernDraft = ConcernDraft(title: string, description: string, resolutionAction: string)

  const ConcernCreatedNote: string := "고민이 생성되었습니다."

  /** The concern addConcern hands to the store. */
  function NewConcern(draft: ConcernDraft, newId: Id, now: string): (c: Concern)
    ensures c.id == newId && c.title == draft.title && c.description == draft.description
    ensures c.resolutionAction == draft.resolutionAction
    ensures c.status == Analyzing
    ensures c.analysisLog == Some([LogEntry(now, ConcernCreatedNote)])
  {
    Concern(newId, draft.title, draft.description, Analyzing, Some([LogEntry(now, ConcernCreatedNote)]),
            draft.resolutionAction)
  }

  // ---------------------------------------------------------------------
  // reorderSteps, reorderSubTasks (useData.ts:229-271)
  // ---------------------------------------------------------------------

  /** `items.map((item, index) => ({ ...item, order: index }))` */
  function RenumberSteps(s: seq<Step>): (r: seq<Step>)
    ensures |r| == |s| && forall i :: 0 <= i < |s| ==> r[i] == s[i].(order := i)
  {
    seq(|s|, i requires 0 <= i < |s| => s[i].(order := i))
  }

  function RenumberTasks(s: seq<Task>): (r: seq<Task>)
    ensures |r| == |s| && forall i :: 0 <= i < |s| ==> r[i] == s[i].(order := i)
  {
    seq(|s|, i requires 0 <= i < |s| => s[i].(order := i))
  }

  /** The step group as reorderSteps hands it to the store: sorted for
      display, moved, renumbered. None when `start` names no step, where
      the source hands over a record without an id and the batch fails. */
  function ReorderedSteps(steps: seq<Step>, parentTaskId: Id, start: nat, end: nat): Option<seq<Step>>
  {
    var group := SortBy(StepsOf(steps, parentTaskId), StepRank);
    if start < |group| then Some(RenumberSteps(Move(group, start, end))) else None
  }

  function ReorderedSubTasks(tasks: seq<Task>, parentTaskId: Id, start: nat, end: nat): Option<seq<Task>>
  {
    var group := SortBy(ChildTasks(tasks, parentTaskId), TaskRank);
    if start < |group| then Some(RenumberTasks(Move(group, start, end))) else None
  }

  /** The renumbering `map`, written back into the array. */
  method RenumberStepsInPlace(a: array<Step>)
    modifies a
    ensures a[..] == RenumberSteps(old(a[..]))
  {
    ghost var s := a[..];
    var i := 0;
    while i < a.Length
      invariant 0 <= i <= a.Length
      invariant forall k :: 0 <= k < i ==> a[k] == s[k].(order := k)
      invariant forall k :: i <= k < a.Length ==> a[k] == s[k]
    {
      a[i] := a[i].(order := i);
      i := i + 1;
    }
    assert forall k :: 0 <= k < a.Length ==> a[k] == RenumberSteps(s)[k];
  }

  method RenumberTasksInPlace(a: array<Task>)
    modifies a
    ensures a[..] == RenumberTasks(old(a[..]))
  {
    ghost var s := a[..];
    var i := 0;
    while i < a.Length
      invariant 0 <= i <= a.Length
      invariant forall k :: 0 <= k < i ==> a[k] == s[k].(order := k)
      invariant forall k :: i <= k < a.Length ==> a[k] == s[k]
    {
      a[i] := a[i].(order := i);
      i := i + 1;
    }
    assert forall k :: 0 <= k < a.Length ==> a[k] == RenumberTasks(s)[k];
  }

  /** reorderSteps: nothing without a selected task; otherwise the group
      sorted for display, moved in place by the two splices, renumbered. */
  method ReorderSteps(selectedTaskId: Option<Id>, steps: seq<Step>, parentTaskId: Id, start: nat, end: nat)
    returns (written: Option<seq<Step>>)
    ensures written == if Truthy(selectedTaskId) then ReorderedSteps(steps, parentTaskId, start, end) else None
  {
    if !Truthy(selectedTaskId) {
      return None;
    }
    var group := SortBy(StepsOf(steps, parentTaskId), StepRank);
    if start >= |group| {
      return None;
    }
    var a := new Step[|group|](i requires 0 <= i < |group| => group[i]);
    assert a[..] == group;
    MoveInPlace(a, start, end);
    assert a[..] == Move(group, start, end);
    RenumberStepsInPlace(a);
    assert a[..] == RenumberSteps(Move(group, start, end));
    written := Some(a[..]);
  }

  /** reorderSubTasks: as reorderSteps, without the selection check. */
  method ReorderSubTasks(tasks: seq<Task>, parentTaskId: Id, start: nat, end: nat)
    returns (written: Option<seq<Task>>)
    ensures written == ReorderedSubTasks(tasks, parentTaskId, start, end)
  {
    var group := SortBy(ChildTasks(tasks, parentTaskId), TaskRank);
    if start >= |group| {
      return None;
    }
    var a := new Task[|group|](i requires 0 <= i < |group| => group[i]);
    assert a[..] == group;
    MoveInPlace(a, start, end);
    assert a[..] == Move(group, start, end);
    RenumberTasksInPlace(a);
    assert a[..] == RenumberTasks(Move(group, start, end));
    written := Some(a[..]);
  }

  /** A step reorder writes something exactly when `start` names a step
      of the group. */
  lemma ReorderedStepsDefined(steps: seq<Step>, parentTaskId: Id, start: nat, end: nat)
    ensures ReorderedSteps(steps, parentTaskId, start, end).Some? <==> start < |StepsOf(steps, parentTaskId)|
  {
  }

  /** What a step reorder writes: exactly the sibling group, each member
      once and renumbered, orders dense 0..n-1, the dragged step (named by
      its index in display order) at the landing index. */
  lemma ReorderedStepsSpec(steps: seq<Step>, parentTaskId: Id, start: nat, end: nat, r: seq<Step>)
    requires ReorderedSteps(steps, parentTaskId, start, end) == Some(r)
    ensures |r| == |StepsOf(steps, parentTaskId)| && DenseOrders(StepOrders(r))
    ensures forall i :: 0 <= i < |r| ==> r[i].parentTaskId == parentTaskId
    ensures forall i :: 0 <= i < |r| ==> exists x :: x in StepsOf(steps, parentTaskId) && r[i] == x.(order := i)
    ensures forall x :: x in StepsOf(steps, parentTaskId) ==> exists i :: 0 <= i < |r| && r[i] == x.(order := i)
    ensures var e := Landing(|StepsOf(steps, parentTaskId)|, end);
      r[e] == SortBy(StepsOf(steps, parentTaskId), StepRank)[start].(order := e)
  {
    var group := StepsOf(steps, parentTaskId);
    var m := MovedSteps(steps, parentTaskId, start, end, r);
    RenumberedSteps(group, m, parentTaskId, r);
    RenumberedStepsMembers(group, m, r);
  }

  /** The moved group behind a step reorder's result. */
  lemma MovedSteps(steps: seq<Step>, parentTaskId: Id, start: nat, end: nat, r: seq<Step>) returns (m: seq<Step>)
    requires ReorderedSteps(steps, parentTaskId, start, end) == Some(r)
    ensures multiset(m) == multiset(StepsOf(steps, parentTaskId)) && r == RenumberSteps(m)
    ensures var e := Landing(|StepsOf(steps, parentTaskId)|, end);
      e < |r| && r[e] == SortBy(StepsOf(steps, parentTaskId), StepRank)[start].(order := e)
  {
    var sorted := SortBy(StepsOf(steps, parentTaskId), StepRank);
    m := Move(sorted, start, end);
  }

  /** Renumbering a permutation of a group gives each member once, with
      its new index as order. */
  lemma RenumberedSteps(group: seq<Step>, m: seq<Step>, parentTaskId: Id, r: seq<Step>)
    requires multiset(m) == multiset(group) && r == RenumberSteps(m)
    requires forall x :: x in group ==> x.parentTaskId == parentTaskId
    ensures |r| == |group| && DenseOrders(StepOrders(r))
    ensures forall i :: 0 <= i < |r| ==> r[i].parentTaskId == parentTaskId
  {
    assert |m| == |group| by {
      assert |multiset(m)| == |multiset(group)|;
    }
    forall i | 0 <= i < |r| ensures r[i].parentTaskId == parentTaskId {
      assert m[i] in multiset(m);
    }
  }

  /** The members of the renumbered list are those of the group. */
  lemma RenumberedStepsMembers(group: seq<Step>, m: seq<Step>, r: seq<Step>)
    requires multiset(m) == multiset(group) && r == RenumberSteps(m)
    ensures forall i :: 0 <= i < |r| ==> exists x :: x in group && r[i] == x.(order := i)
    ensures forall x :: x in group ==> exists i :: 0 <= i < |r| && r[i] == x.(order := i)
  {
    forall i | 0 <= i < |r| ensures exists x :: x in group && r[i] == x.(order := i) {
      var x := m[i];
      assert x in multiset(m);
      assert x in multiset(group);
      assert r[i] == x.(order := i);
    }
    forall x | x in group ensures exists i :: 0 <= i < |r| && r[i] == x.(order := i) {
      assert x in multiset(group);
      assert x in multiset(m);
      var i :| 0 <= i < |m| && m[i] == x;
      assert r[i] == x.(order := i);
    }
  }

  lemma ReorderedSubTasksDefined(tasks: seq<Task>, parentTaskId: Id, start: nat, end: nat)
    ensures ReorderedSubTasks(tasks, parentTaskId, start, end).Some? <==> start < |ChildTasks(tasks, parentTaskId)|
  {
  }

  /** What a sub-task reorder writes: exactly the children of the parent,
      each once and renumbered 0..n-1, the dragged one at the landing index. */
  lemma ReorderedSubTasksSpec(tasks: seq<Task>, parentTaskId: Id, start: nat, end: nat, r: seq<Task>)
    requires ReorderedSubTasks(tasks, parentTaskId, start, end) == Some(r)
    ensures |r| == |ChildTasks(tasks, parentTaskId)| && DenseOrders(TaskOrders(r))
    ensures forall i :: 0 <= i < |r| ==> r[i].parentTaskId == Some(parentTaskId)
    ensures forall i :: 0 <= i < |r| ==> exists x :: x in ChildTasks(tasks, parentTaskId) && r[i] == x.(order := i)
    ensures forall x :: x in ChildTasks(tasks, parentTaskId) ==> exists i :: 0 <= i < |r| && r[i] == x.(order := i)
    ensures var e := Landing(|ChildTasks(tasks, parentTaskId)|, end);
      r[e] == SortBy(ChildTasks(tasks, parentTaskId), TaskRank)[start].(order := e)
  {
    var group := ChildTasks(tasks, parentTaskId);
    var m := MovedSubTasks(tasks, parentTaskId, start, end, r);
    RenumberedTasks(group, m, parentTaskId, r);
    RenumberedTasksMembers(group, m, r);
  }

  /** The moved children behind a sub-task reorder's result. */
  lemma MovedSubTasks(tasks: seq<Task>, parentTaskId: Id, start: nat, end: nat, r: seq<Task>) returns (m: seq<Task>)
    requires ReorderedSubTasks(tasks, parentTaskId, start, end) == Some(r)
    ensures multiset(m) == multiset(ChildTasks(tasks, parentTaskId)) && r == RenumberTasks(m)
    ensures var e := Landing(|ChildTasks(tasks, parentTaskId)|, end);
      e < |r| && r[e] == SortBy(ChildTasks(tasks, parentTaskId), TaskRank)[start].(order := e)
  {
    var sorted := SortBy(ChildTasks(tasks, parentTaskId), TaskRank);
    m := Move(sorted, start, end);
  }

  lemma RenumberedTasks(group: seq<Task>, m: seq<Task>, parentTaskId: Id, r: seq<Task>)
    requires multiset(m) == multiset(group) && r == RenumberTasks(m)
    requires forall x :: x in group ==> x.parentTaskId == Some(parentTaskId)
    ensures |r| == |group| && DenseOrders(TaskOrders(r))
    ensures forall i :: 0 <= i < |r| ==> r[i].parentTaskId == Some(parentTaskId)
  {
    assert |m| == |group| by {
      assert |multiset(m)| == |multiset(group)|;
    }
    forall i | 0 <= i < |r| ensures r[i].parentTaskId == Some(parentTaskId) {
      assert m[i] in multiset(m);
    }
  }

  /** The members of the renumbered list are those of the group. */
  lemma RenumberedTasksMembers(group: seq<Task>, m: seq<Task>, r: seq<Task>)
    requires multiset(m) == multiset(group) && r == RenumberTasks(m)
    ensures forall i :: 0 <= i < |r| ==> exists x :: x in group && r[i] == x.(order := i)
    ensures forall x :: x in group ==> exists i :: 0 <= i < |r| && r[i] == x.(order := i)
  {
    forall i | 0 <= i < |r| ensures exists x :: x in group && r[i] == x.(order := i) {
      var x := m[i];
      assert x in multiset(m);
      assert x in multiset(group);
      assert r[i] == x.(order := i);
    }
    forall x | x in group ensures exists i :: 0 <= i < |r| && r[i] == x.(order := i) {
      assert x in multiset(group);
      assert x in multiset(m);
      var i :| 0 <= i < |m| && m[i] == x;
      assert r[i] == x.(order := i);
    }
  }

  // ---------------------------------------------------------------------
  // updateTask (useData.ts:165-181)
  // ---------------------------------------------------------------------

  /** `Partial<Task>`: a field is replaced when the patch carries it. */
  datatype TaskPatch = TaskPatch(
    id: Option<Id>,
    parentTaskId: Option<Option<Id>>,
    relatedConcernId: Option<Option<Id>>,
    title: Option<string>,
    description: Option<string>,
    category: Option<TaskCategory>,
    status: Option<TaskStatus>,
    progressPercent: Option<int>,
    progressLog: Option<seq<LogEntry>>,
    order: Option<int>)

  function Pick<T>(o: Option<T>, default: T): T
  {
    if o.Some? then o.value else default
  }

  /** `{ ...task, ...newValues }` */
  function Merge(t: Task, p: TaskPatch): Task
  {
    Task(Pick(p.id, t.id), Pick(p.parentTaskId, t.parentTaskId), Pick(p.relatedConcernId, t.relatedConcernId),
         Pick(p.title, t.title), Pick(p.description, t.description), Pick(p.category, t.category),
         Pick(p.status, t.status), Pick(p.progressPercent, t.progressPercent),
         Pick(p.progressLog, t.progressLog), Pick(p.order, t.order))
  }

  /** The updates updateTask issues, in order, as written: the merged
      record, then a recompute of the task and, for a sub-task, of its
      parent, both reading the snapshot taken before the edit. */
  function UpdateTaskUpdates(tasks: seq<Task>, steps: seq<Step>, taskId: Id, patch: TaskPatch): (r: seq<TaskUpdate>)
    ensures r == [] <==> FindTask(tasks, taskId).None?
    ensures r != [] ==>
      && |r| >= 2 && r[0] == TaskUpdate(taskId, Merge(FindTask(tasks, taskId).value, patch))
      && r[1].taskId == taskId
  {
    match FindTask(tasks, taskId)
    case None => []
    case Some(task) =>
      [TaskUpdate(taskId, Merge(task, patch))]
      + RecomputeUpdates(tasks, steps, taskId)
      + (if HasParent(task) then RecomputeUpdates(tasks, steps, task.parentTaskId.value) else [])
  }

  /** The snapshot with the record of `m.id` replaced by `m`. */
  function ReplaceTask(tasks: seq<Task>, m: Task): (r: seq<Task>)
    ensures |r| == |tasks|
  {
    if tasks == [] then []
    else [if tasks[0].id == m.id then m else tasks[0]] + ReplaceTask(tasks[1..], m)
  }

  lemma {:induction false} FindReplaced(tasks: seq<Task>, m: Task, id: Id)
    ensures FindTask(ReplaceTask(tasks, m), id) ==
            if id == m.id && FindTask(tasks, id).Some? then Some(m) else FindTask(tasks, id)
  {
    if tasks != [] {
      FindReplaced(tasks[1..], m, id);
    }
  }

  /** The corrected updateTask: the recomputations read the snapshot with
      the edit applied, so they carry it instead of the old record. */
  function UpdateTaskUpdatesFixed(tasks: seq<Task>, steps: seq<Step>, taskId: Id, patch: TaskPatch): (r: seq<TaskUpdate>)
    ensures r == [] <==> FindTask(tasks, taskId).None?
    ensures r != [] ==>
      && |r| >= 2 && r[0] == TaskUpdate(taskId, Merge(FindTask(tasks, taskId).value, patch))
      && r[1].taskId == taskId
  {
    match FindTask(tasks, taskId)
    case None => []
    case Some(task) =>
      var edited := ReplaceTask(tasks, Merge(task, patch).(id := taskId));
      FindReplaced(tasks, Merge(task, patch).(id := taskId), taskId);
      [TaskUpdate(taskId, Merge(task, patch))]
      + RecomputeUpdates(edited, steps, taskId)
      + (if HasParent(task) then RecomputeUpdates(edited, steps, task.parentTaskId.value) else [])
  }

  lemma {:induction false} LastUpdateOfConcat(a: seq<TaskUpdate>, b: seq<TaskUpdate>, k: Id)
    ensures LastUpdateOf(a + b, k) == if LastUpdateOf(b, k).Some? then LastUpdateOf(b, k) else LastUpdateOf(a, k)
    decreases |b|
  {
    if b == [] {
      assert a + b == a;
    } else {
      var n := |b| - 1;
      assert (a + b)[..|a + b| - 1] == a + b[..n];
      assert (a + b)[|a + b| - 1] == b[n];
      LastUpdateOfConcat(a, b[..n], k);
    }
  }

  /** A recompute of `x` writes `x` and, at most, the parent of `x`. */
  lemma RecomputeWritesNot(tasks: seq<Task>, steps: seq<Step>, x: Id, k: Id)
    requires k != x
    requires match FindTask(tasks, x)
             case None => true
             case Some(t) => !HasParent(t) || t.parentTaskId.value != k
    ensures LastUpdateOf(RecomputeUpdates(tasks, steps, x), k) == None
  {
    match FindTask(tasks, x)
    case None =>
    case Some(t) =>
      var o := OutcomeOf(tasks, steps, t);
      var self := TaskUpdate(x, t.(progressPercent := o.progress, status := o.status));
      var cascade := ParentCascade(tasks, t);
      assert RecomputeUpdates(tasks, steps, x) == [self] + cascade;
      assert LastUpdateOf([self], k) == None by {
        assert [self][..0] == [];
      }
      if cascade != [] {
        assert cascade[0].taskId == t.parentTaskId.value;
        assert ([self] + cascade)[..1] == [self];
      }
  }

  /** The parent chain of the edited task does not come back to it within
      two links (a Project → Sub-task hierarchy never does). */
  predicate NoShortCycle(tasks: seq<Task>, task: Task)
  {
    HasParent(task) ==>
      && task.parentTaskId.value != task.id
      && match FindTask(tasks, task.parentTaskId.value)
         case None => true
         case Some(p) => !HasParent(p) || p.parentTaskId.value != task.id
  }

  /** An edit write followed by a recompute of the same task and by
      writes that miss it: the recompute's record is what the task holds. */
  lemma RecomputeWritesLast(db: Db, tasks: seq<Task>, steps: seq<Step>, t: Task, first: TaskUpdate, rest: seq<TaskUpdate>)
    requires FindTask(tasks, t.id) == Some(t) && t.id in db.tasks
    requires HasParent(t) ==> t.parentTaskId.value != t.id
    requires LastUpdateOf(rest, t.id) == None
    ensures var o := OutcomeOf(tasks, steps, t);
      ApplyTaskUpdates(db, [first] + RecomputeUpdates(tasks, steps, t.id) + rest).tasks[t.id]
      == t.(progressPercent := o.progress, status := o.status)
  {
    var k := t.id;
    var o := OutcomeOf(tasks, steps, t);
    var self := TaskUpdate(k, t.(progressPercent := o.progress, status := o.status));
    var cascade := ParentCascade(tasks, t);
    var r1 := RecomputeUpdates(tasks, steps, k);
    assert r1 == [self] + cascade;
    ParentCascadeMisses(tasks, t);
    LastUpdateOfConcat([first] + r1, rest, k);
    LastUpdateOfConcat([first] + [self], cascade, k);
    assert [first] + r1 == [first] + [self] + cascade;
    assert LastUpdateOf([first] + [self], k) == Some(self.record);
    ApplyTaskUpdatesAt(db, [first] + r1 + rest, k);
  }

  /** The cascade of a task that is not its own parent never writes it. */
  lemma ParentCascadeMisses(tasks: seq<Task>, t: Task)
    requires t in tasks
    requires HasParent(t) ==> t.parentTaskId.value != t.id
    ensures LastUpdateOf(ParentCascade(tasks, t), t.id) == None
  {
    if HasParent(t) {
      match FindTask(tasks, t.parentTaskId.value)
      case None =>
      case Some(parent) =>
        var u := ParentCascade(tasks, t)[0];
        assert ParentCascade(tasks, t) == [u];
        assert u.taskId == parent.id != t.id;
        assert [u][..0] == [];
    }
  }

  /** As written, the last write updateTask makes to the task is the
      recompute of the pre-edit record: every edited field reverts, and
      only progress and status are recomputed from the old record. */
  lemma UpdateTaskLosesEdit(db: Db, tasks: seq<Task>, steps: seq<Step>, taskId: Id, patch: TaskPatch, task: Task)
    requires FindTask(tasks, taskId) == Some(task) && taskId in db.tasks
    requires NoShortCycle(tasks, task)
    ensures var o := OutcomeOf(tasks, steps, task);
      ApplyTaskUpdates(db, UpdateTaskUpdates(tasks, steps, taskId, patch)).tasks[taskId]
      == task.(progressPercent := o.progress, status := o.status)
  {
    var r2 := if HasParent(task) then RecomputeUpdates(tasks, steps, task.parentTaskId.value) else [];
    if HasParent(task) {
      RecomputeWritesNot(tasks, steps, task.parentTaskId.value, taskId);
    }
    RecomputeWritesLast(db, tasks, steps, task, TaskUpdate(taskId, Merge(task, patch)), r2);
  }

  /** Corrected: for an edit that leaves the parent link alone, the task
      ends up holding the edited record with progress and status
      recomputed from it. */
  lemma UpdateTaskFixedKeepsEdit(db: Db, tasks: seq<Task>, steps: seq<Step>, taskId: Id, patch: TaskPatch, task: Task)
    requires FindTask(tasks, taskId) == Some(task) && taskId in db.tasks
    requires NoShortCycle(tasks, task) && patch.parentTaskId == None
    ensures var edited := Merge(task, patch).(id := taskId);
      var o := OutcomeOf(ReplaceTask(tasks, edited), steps, edited);
      ApplyTaskUpdates(db, UpdateTaskUpdatesFixed(tasks, steps, taskId, patch)).tasks[taskId]
      == edited.(progressPercent := o.progress, status := o.status)
  {
    var edited := Merge(task, patch).(id := taskId);
    var tasks' := ReplaceTask(tasks, edited);
    FindReplaced(tasks, edited, taskId);
    var r2 := if HasParent(task) then RecomputeUpdates(tasks', steps, task.parentTaskId.value) else [];
    if HasParent(task) {
      var q := task.parentTaskId.value;
      FindReplaced(tasks, edited, q);
      RecomputeWritesNot(tasks', steps, q, taskId);
    }
    RecomputeWritesLast(db, tasks', steps, edited, TaskUpdate(taskId, Merge(task, patch)), r2);
  }

  /** The discrepancy on a concrete input: retitling project "P" from "A"
      to "B" leaves "A" stored as written, and "B" with the correction. */
  lemma RetitleExample(db: Db, steps: seq<Step>)
    requires "P" in db.tasks
    ensures var p := Task("P", None, None, "A", "", Project, TaskStatus.Pending, 0, [], 0);
      var patch := TaskPatch(None, None, None, Some("B"), None, None, None, None, None, None);
      && ApplyTaskUpdates(db, UpdateTaskUpdates([p], steps, "P", patch)).tasks["P"].title == "A"
      && ApplyTaskUpdates(db, UpdateTaskUpdatesFixed([p], steps, "P", patch)).tasks["P"].title == "B"
  {
    var p := Task("P", None, None, "A", "", Project, TaskStatus.Pending, 0, [], 0);
    var patch := TaskPatch(None, None, None, Some("B"), None, None, None, None, None, None);
    UpdateTaskLosesEdit(db, [p], steps, "P", patch, p);
    UpdateTaskFixedKeepsEdit(db, [p], steps, "P", patch, p);
  }
}
