// The decisions components/DetailModal.tsx takes before calling into the
// data layer: what kind of item is shown, which add forms act, which
// drops reorder, how the lists are sorted, and when completion is offered.
module DetailModal {
  import opened Types
  import opened Ordering
  import opened Firestore
  import opened Progress
  import opened UseData
  import opened Text

  // ---------------------------------------------------------------------
  // Kind tests (DetailModal.tsx:76-79)
  // ---------------------------------------------------------------------

  /** `'progressPercent' in item` */
  predicate IsTask(item: Item)
  {
    item.TaskItem?
  }

  /** `isTask && item.parentTaskId === null` */
  predicate IsProject(item: Item)
  {
    item.TaskItem? && item.task.parentTaskId == None
  }

  /** `isTask && item.parentTaskId !== null` */
  predicate IsSubTask(item: Item)
  {
    item.TaskItem? && item.task.parentTaskId != None
  }

  predicate IsConcern(item: Item)
  {
    !IsTask(item)
  }

  /** Every item is exactly one of project, sub-task and concern. */
  lemma KindsPartition(item: Item)
    ensures IsProject(item) || IsSubTask(item) || IsConcern(item)
    ensures !(IsProject(item) && IsSubTask(item))
    ensures !(IsProject(item) && IsConcern(item)) && !(IsSubTask(item) && IsConcern(item))
    ensures IsTask(item) <==> IsProject(item) || IsSubTask(item)
  {
  }

  /** The modal tests the parent link against null only, the data layer
      for truthiness: a task whose parent id is "" is a sub-task here and
      a top-level task there. */
  lemma EmptyParentKinds(t: Task)
    requires t.parentTaskId == Some("")
    ensures IsSubTask(TaskItem(t)) && !HasParent(t)
  {
  }

  // ---------------------------------------------------------------------
  // Add guards (DetailModal.tsx:81-103)
  // ---------------------------------------------------------------------

  /** The call an add form makes: the target id and the trimmed text. */
  datatype AddCall = AddCall(targetId: Id, text: string)

  /** handleAddStep: only on a sub-task, only with a non-blank title. */
  function HandleAddStep(item: Item, input: string): (r: Option<AddCall>)
    ensures r.Some? ==> item.TaskItem? && r.value == AddCall(item.task.id, Trim(input))
  {
    if Trim(input) != "" && IsSubTask(item) then Some(AddCall(item.task.id, Trim(input))) else None
  }

  /** handleAddSubTask: only on a project, only with a non-blank title. */
  function HandleAddSubTask(item: Item, input: string): (r: Option<AddCall>)
    ensures r.Some? ==> item.TaskItem? && r.value == AddCall(item.task.id, Trim(input))
  {
    if Trim(input) != "" && IsProject(item) then Some(AddCall(item.task.id, Trim(input))) else None
  }

  /** handleAddLog: only on a concern, only with a non-blank entry. */
  function HandleAddLog(item: Item, input: string): (r: Option<AddCall>)
    ensures r.Some? ==> item.ConcernItem? && r.value == AddCall(item.concern.id, Trim(input))
  {
    if Trim(input) != "" && IsConcern(item) then Some(AddCall(item.concern.id, Trim(input))) else None
  }

  /** Each form acts exactly on its own kind of item and on input that is
      not all white space, and passes on text that is already trimmed and
      starts and ends with a non-space. */
  lemma AddGuardsSpec(item: Item, input: string)
    ensures HandleAddStep(item, input).Some? <==> IsSubTask(item) && !IsBlank(input)
    ensures HandleAddSubTask(item, input).Some? <==> IsProject(item) && !IsBlank(input)
    ensures HandleAddLog(item, input).Some? <==> IsConcern(item) && !IsBlank(input)
    ensures var r := HandleAddStep(item, input);
      r.Some? ==> r.value.text != "" && Trim(r.value.text) == r.value.text
    ensures var r := HandleAddSubTask(item, input);
      r.Some? ==> r.value.text != "" && Trim(r.value.text) == r.value.text
    ensures var r := HandleAddLog(item, input);
      r.Some? ==> r.value.text != "" && Trim(r.value.text) == r.value.text
  {
    TrimBlank(input);
    TrimIdempotent(input);
  }

  /** At most one of the three forms acts on any item. */
  lemma AddGuardsExclusive(item: Item, a: string, b: string, c: string)
    ensures HandleAddStep(item, a).Some? ==> HandleAddSubTask(item, b).None? && HandleAddLog(item, c).None?
    ensures HandleAddSubTask(item, b).Some? ==> HandleAddLog(item, c).None?
  {
  }

  // ---------------------------------------------------------------------
  // List order and drag-and-drop (DetailModal.tsx:121-152, 201-210)
  // ---------------------------------------------------------------------

  /** The comparator of the step list (and of reorderSteps). */
  function StepComparator(a: Step, b: Step): int
  {
    if a.status == StepStatus.Completed && b.status != StepStatus.Completed then 1
    else if a.status != StepStatus.Completed && b.status == StepStatus.Completed then -1
    else a.order - b.order
  }

  /** The comparator of the sub-task list (and of reorderSubTasks). */
  function SubTaskComparator(a: Task, b: Task): int
  {
    if a.status == TaskStatus.Completed && b.status != TaskStatus.Completed then 1
    else if a.status != TaskStatus.Completed && b.status == TaskStatus.Completed then -1
    else a.order - b.order
  }

  /** The comparators define the preorder the model sorts by: `a` may
      stand before `b` exactly when the comparator does not put it after,
      in both argument orders. */
  lemma ComparatorsAgreeWithRank(a: Step, b: Step, x: Task, y: Task)
    ensures StepComparator(a, b) <= 0 <==> KeyLe(StepRank(a), StepRank(b))
    ensures StepComparator(a, b) >= 0 <==> KeyLe(StepRank(b), StepRank(a))
    ensures SubTaskComparator(x, y) <= 0 <==> KeyLe(TaskRank(x), TaskRank(y))
    ensures SubTaskComparator(x, y) >= 0 <==> KeyLe(TaskRank(y), TaskRank(x))
  {
  }

  /** The steps list as shown: the task's steps, open ones first, each
      part by `order`. */
  function DisplayedSteps(allSteps: seq<Step>, taskId: Id): (r: seq<Step>)
    ensures multiset(r) == multiset(StepsOf(allSteps, taskId))
    ensures Sorted(r, StepRank)
  {
    SortBy(StepsOf(allSteps, taskId), StepRank)
  }

  /** The sub-task list as shown. */
  function DisplayedSubTasks(allTasks: seq<Task>, projectId: Id): (r: seq<Task>)
    ensures multiset(r) == multiset(ChildTasks(allTasks, projectId))
    ensures Sorted(r, TaskRank)
  {
    SortBy(ChildTasks(allTasks, projectId), TaskRank)
  }

  /** No completed step is shown above an open one. */
  lemma DisplayedStepsOpenFirst(allSteps: seq<Step>, taskId: Id, i: nat, j: nat)
    requires i < j < |DisplayedSteps(allSteps, taskId)|
    requires DisplayedSteps(allSteps, taskId)[i].status == StepStatus.Completed
    ensures DisplayedSteps(allSteps, taskId)[j].status == StepStatus.Completed
  {
    assert KeyLe(StepRank(DisplayedSteps(allSteps, taskId)[i]), StepRank(DisplayedSteps(allSteps, taskId)[j]));
  }

  /** The list a drop lands on. */
  datatype ListKind = SubTaskList | StepList

  /** The parsed drag payload `{ index, parentId, type }`. */
  datatype DragData = DragData(index: int, parentId: Id, kind: ListKind)

  /** The reorder call a drop makes. */
  datatype ReorderCall = ReorderCall(parentId: Id, startIndex: int, endIndex: int)

  /** handleDrop on the list of `kind` under `parentId`, at `endIndex`;
      `data` is None when the payload does not parse. */
  function HandleDrop(kind: ListKind, parentId: Id, data: Option<DragData>, endIndex: int): (r: Option<ReorderCall>)
    ensures r.Some? ==> data.Some? && r.value == ReorderCall(parentId, data.value.index, endIndex)
  {
    match data
    case None => None
    case Some(d) =>
      if d.kind != kind || d.parentId != parentId then None
      else if d.index != endIndex then Some(ReorderCall(parentId, d.index, endIndex))
      else None
  }

  /** A drop reorders exactly when the payload parses, comes from the same
      kind of list under the same parent, and names another index. */
  lemma HandleDropSpec(kind: ListKind, parentId: Id, data: Option<DragData>, endIndex: int)
    ensures HandleDrop(kind, parentId, data, endIndex).Some? <==>
      && data.Some?
      && data.value.kind == kind
      && data.value.parentId == parentId
      && data.value.index != endIndex
  {
  }

  /** The list shown and the list reordered are sorted alike, so a drag
      from display index `start` to display index `end` moves the step
      shown at `start` to `end`, renumbered to `end`. */
  lemma StepDropMovesShownStep(allSteps: seq<Step>, taskId: Id, data: DragData, end: nat)
    requires HandleDrop(StepList, taskId, Some(data), end).Some?
    requires 0 <= data.index < |DisplayedSteps(allSteps, taskId)| && end < |DisplayedSteps(allSteps, taskId)|
    ensures var r := ReorderedSteps(allSteps, taskId, data.index, end);
      r.Some? && r.value[end] == DisplayedSteps(allSteps, taskId)[data.index].(order := end)
  {
    var shown := DisplayedSteps(allSteps, taskId);
    var m := Move(shown, data.index, end);
    assert Landing(|shown|, end) == end;
    assert ReorderedSteps(allSteps, taskId, data.index, end) == Some(RenumberSteps(m));
  }

  /** The same for sub-tasks. */
  lemma SubTaskDropMovesShownTask(allTasks: seq<Task>, projectId: Id, data: DragData, end: nat)
    requires HandleDrop(SubTaskList, projectId, Some(data), end).Some?
    requires 0 <= data.index < |DisplayedSubTasks(allTasks, projectId)| && end < |DisplayedSubTasks(allTasks, projectId)|
    ensures var r := ReorderedSubTasks(allTasks, projectId, data.index, end);
      r.Some? && r.value[end] == DisplayedSubTasks(allTasks, projectId)[data.index].(order := end)
  {
    var shown := DisplayedSubTasks(allTasks, projectId);
    var m := Move(shown, data.index, end);
    assert Landing(|shown|, end) == end;
    assert ReorderedSubTasks(allTasks, projectId, data.index, end) == Some(RenumberTasks(m));
  }

  // ---------------------------------------------------------------------
  // Completion (DetailModal.tsx:210-224, 301-302)
  // ---------------------------------------------------------------------

  /** `steps.length > 0 && steps.every(s => s.status === Completed)` */
  predicate AllStepsCompleted(steps: seq<Step>)
  {
    |steps| > 0 && forall i :: 0 <= i < |steps| ==> steps[i].status == StepStatus.Completed
  }

  /** The prompt to mark the sub-task done: all its steps are done and the
      task is not yet Completed. */
  predicate ShowCompletionPrompt(item: Item, allSteps: seq<Step>)
  {
    IsSubTask(item)
    && AllStepsCompleted(DisplayedSteps(allSteps, item.task.id))
    && item.task.status != TaskStatus.Completed
  }

  /** All steps done is the same as a step count with every one completed,
      and then the recompute puts the sub-task at 100% without touching
      its status. */
  lemma AllStepsCompletedSpec(allSteps: seq<Step>, taskId: Id, status: TaskStatus)
    ensures AllStepsCompleted(DisplayedSteps(allSteps, taskId)) <==>
      var own := StepsOf(allSteps, taskId);
      |own| > 0 && CountCompleted(own) == |own|
    ensures AllStepsCompleted(DisplayedSteps(allSteps, taskId)) ==>
      SubTaskOutcome(status, StepsOf(allSteps, taskId)) == Outcome(100, status)
  {
    var own := StepsOf(allSteps, taskId);
    var shown := DisplayedSteps(allSteps, taskId);
    assert |shown| == |own| by {
      assert |multiset(shown)| == |multiset(own)|;
    }
    assert forall s :: s in shown <==> s in own by {
      assert forall s :: s in shown <==> s in multiset(shown);
      assert forall s :: s in own <==> s in multiset(own);
    }
    if AllStepsCompleted(shown) {
      assert forall s :: s in own ==> s.status == StepStatus.Completed;
      SubTaskOutcomeSpec(status, own);
    }
  }

  /** The partial update the prompt's button sends. */
  function CompletePatch(): TaskPatch
  {
    TaskPatch(None, None, None, None, None, None, Some(TaskStatus.Completed), None, None, None)
  }

  /** As written, the prompt's button does not complete the sub-task:
      updateTask's own recompute rewrites the pre-edit status. */
  lemma CompletionPromptReverted(db: Db, tasks: seq<Task>, allSteps: seq<Step>, task: Task)
    requires FindTask(tasks, task.id) == Some(task) && task.id in db.tasks
    requires HasParent(task) && NoShortCycle(tasks, task)
    requires ShowCompletionPrompt(TaskItem(task), allSteps)
    ensures ApplyTaskUpdates(db, UpdateTaskUpdates(tasks, allSteps, task.id, CompletePatch())).tasks[task.id].status
            == task.status != TaskStatus.Completed
  {
    UpdateTaskLosesEdit(db, tasks, allSteps, task.id, CompletePatch(), task);
    AllStepsCompletedSpec(allSteps, task.id, task.status);
  }

  /** With the correction the button completes the sub-task, at 100%. */
  lemma CompletionPromptFixed(db: Db, tasks: seq<Task>, allSteps: seq<Step>, task: Task)
    requires FindTask(tasks, task.id) == Some(task) && task.id in db.tasks
    requires HasParent(task) && NoShortCycle(tasks, task)
    requires ShowCompletionPrompt(TaskItem(task), allSteps)
    ensures var stored := ApplyTaskUpdates(db, UpdateTaskUpdatesFixed(tasks, allSteps, task.id, CompletePatch())).tasks[task.id];
      stored.status == TaskStatus.Completed && stored.progressPercent == 100
  {
    UpdateTaskFixedKeepsEdit(db, tasks, allSteps, task.id, CompletePatch(), task);
    AllStepsCompletedSpec(allSteps, task.id, TaskStatus.Completed);
  }

  /** `relatedTasks.length > 0 && relatedTasks.every(t => t.status === Completed)`
      over the tasks that reference the concern. */
  predicate AllRelatedTasksCompleted(allTasks: seq<Task>, concernId: Id)
  {
    var related := RelatedTasks(allTasks, concernId);
    |related| > 0 && forall i :: 0 <= i < |related| ==> related[i].status == TaskStatus.Completed
  }

  /** `allTasks.filter(t => t.relatedConcernId === concernId)` */
  function RelatedTasks(allTasks: seq<Task>, concernId: Id): (r: seq<Task>)
    ensures forall t :: t in r <==> t in allTasks && t.relatedConcernId == Some(concernId)
  {
    if |allTasks| == 0 then []
    else (if allTasks[0].relatedConcernId == Some(concernId) then [allTasks[0]] else [])
         + RelatedTasks(allTasks[1..], concernId)
  }

  /** Some task references the concern, and every one that does is done. */
  lemma AllRelatedTasksCompletedSpec(allTasks: seq<Task>, concernId: Id)
    ensures AllRelatedTasksCompleted(allTasks, concernId) <==>
      && (exists t :: t in allTasks && t.relatedConcernId == Some(concernId))
      && (forall t :: t in allTasks && t.relatedConcernId == Some(concernId) ==> t.status == TaskStatus.Completed)
  {
    var related := RelatedTasks(allTasks, concernId);
    if exists t :: t in allTasks && t.relatedConcernId == Some(concernId) {
      var t :| t in allTasks && t.relatedConcernId == Some(concernId);
      assert t in related;
    }
    if forall t :: t in allTasks && t.relatedConcernId == Some(concernId) ==> t.status == TaskStatus.Completed {
      forall i | 0 <= i < |related| ensures related[i].status == TaskStatus.Completed {
        assert related[i] in related;
      }
    }
    if AllRelatedTasksCompleted(allTasks, concernId) {
      assert related[0] in related;
      forall t | t in allTasks && t.relatedConcernId == Some(concernId) ensures t.status == TaskStatus.Completed {
        assert t in related;
        var i :| 0 <= i < |related| && related[i] == t;
      }
    }
  }

  /** Deriving a task from a concern adds an open task that references
      it, so the concern no longer counts as all done. */
  lemma DerivedTaskReopensConcern(allTasks: seq<Task>, concern: Concern, newId: Id, now: string)
    ensures !AllRelatedTasksCompleted(allTasks + [DerivedTask(concern, newId, now)], concern.id)
  {
    var d := DerivedTask(concern, newId, now);
    var all := allTasks + [d];
    assert d in all;
    AllRelatedTasksCompletedSpec(all, concern.id);
  }
}
