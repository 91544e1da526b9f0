# think_manage — a Dafny model of the task and concern core

think_manage (생각관리) keeps two kinds of items in a Firestore
database. The first is a three-level hierarchy: projects (Level 1),
their sub-tasks (Level 2) and the steps of a sub-task (Level 3). The
second is a list of *concerns* (고민), which can be analysed in a log and
from which a To-Do task can be derived. This project models the logic
that decides what the app writes and shows. It then proves properties
of that model with Dafny.

- The progress aggregator of `hooks/useData.ts` (`updateTaskProgress`).
  A sub-task's progress is the rounded share of completed steps, and its
  status moves between Pending and In Progress. A project's progress is
  the rounded mean of its sub-tasks. Each recompute cascades to the
  parent.
- The data operations of `hooks/useData.ts`: `addStep`, `addTask` and
  `addConcern`; the reorder of steps and sub-tasks (a stable sort,
  `splice`, then renumbering); and `updateTask`.
- The persistence layer of `hooks/useFirestore.ts`. It is written over an
  in-memory store `Db` with one map per collection. A `writeBatch` is a
  list of writes that commits all or nothing. Covered are the cascading
  task delete, the concern delete (which unlinks tasks), the step delete,
  the two reorder batches, `updateTask` stripping the id, deriving a
  task from a concern, and appending to a concern's analysis log.
  `Firestore.Store` is a class whose field is the whole database. Its
  methods update that field in place, one per persistence call.
- The decisions of `components/DetailModal.tsx`:
  - the item kind tests;
  - the guards of the three add forms;
  - the drag-and-drop guard;
  - the list comparators;
  - the "all steps completed" prompt;
  - the "all related tasks completed" test.
- `App.tsx`: the three board columns, the refresh of the open item, and
  the delete and add-sub-task handlers.
- `components/CreationModal.tsx`: the default category, the validity
  rule and the submit handler.

Modules: `Types` (entities), `Text` (`String.prototype.trim`),
`Ordering` (stable sort and `splice`), `Firestore`, `Progress`,
`UseData`, `DetailModal`, `App`, `CreationModal`.

Conventions of the model:

- A `parentTaskId` of `null` is `None`.
- `useData.ts` and `App.tsx` test the parent link for JavaScript
  truthiness (`HasParent`: present and not `""`). `DetailModal.tsx`
  compares with `null` only. The model keeps the two tests apart.
- `Math.round(a / b)` for integers `a >= 0` and `b > 0` is
  `(2a + b) / (2b)` in floor division (`Progress.RoundDiv`). This is
  exact for the mean at hooks/useData.ts:87, whose single double
  division lands exactly on every half. The step share at
  hooks/useData.ts:73 is another matter; see `Progress.StepPercent`
  under "## Left out".
- `Array.prototype.sort` is stable (ECMAScript 2019 and later). A sort by
  the comparators of the source is therefore modelled as a stable
  insertion sort on the key (completed last, then `order`).
- Timestamps (`new Date().toISOString()`) and generated document ids are
  parameters (`now`, `newId`, `stepId`).
- `updateTaskInFirestore` calls are not awaited. The model applies them
  in the order they are issued, so the last write to a document wins.

Where the code falls short of the behaviour it is evidently meant to
have (every progress value current, the aggregate kept in step with its
parts), the model follows the code:

- A sub-task without steps is written at 0% (hooks/useData.ts:65,
  92-96). It is not left at its previous value.
- The parent is re-averaged from the sibling values in the snapshot
  taken before the sub-task's own write (hooks/useData.ts:102-104). The
  parent therefore lags one recompute behind; see
  `Progress.CascadeUsesSnapshotValue`.
- The task writes of `updateTaskProgress` are separate, unbatched
  `updateDoc` calls, not one atomic batch.
- Deleting a sub-task does not re-average its parent: `deleteTask`
  (hooks/useData.ts:221-223) only calls the store. The parent keeps its
  old progress until another recompute; `Firestore.Store.DeleteTask`
  changes nothing but the deleted documents.

## Model

| member | source | states |
|---|---|---|
| Types.FindTask | hooks/useData.ts:62-63 | `find` by id: a result is an element with that id; none exactly when no element has it |
| Types.FindConcern | App.tsx:23 | the same for concerns |
| Types.HasParent | hooks/useData.ts:69 | JavaScript truthiness of `parentTaskId`: a parent link that is neither `null` nor `""`; the test that sends a task down the sub-task branch, also at :99, :176 and App.tsx:31-33 |
| Text.TrimStart | components/CreationModal.tsx:21 | drops exactly the leading white space: a suffix that starts with a non-space, and only spaces removed |
| Text.TrimEnd | components/CreationModal.tsx:21 | drops exactly the trailing white space: a prefix that ends with a non-space, and only spaces removed |
| Text.Trim | components/CreationModal.tsx:21 | `s.trim()`: the result is no longer than the input, and empty exactly when the input is all white space |
| Text.TrimBlank | components/CreationModal.tsx:21 | `s.trim() !== ''` holds exactly when `s` is not all white space |
| Text.TrimSlice | components/DetailModal.tsx:83-84 | `trim()` is the slice of the input between a blank head and a blank tail |
| Text.TrimEnds | components/DetailModal.tsx:83-84 | a non-empty trimmed string starts and ends with a non-space |
| Text.TrimIdempotent | components/DetailModal.tsx:83-84 | trimming twice is trimming once |
| Ordering.SortBy | hooks/useData.ts:233-239 | the sort is a permutation of its input and is ordered by the key |
| Ordering.Landing | hooks/useData.ts:244 | `splice(end, 0, x)` on the shortened list inserts at `end`, or at the end of the list when `end` is past it |
| Ordering.Move | hooks/useData.ts:243-244 | remove-then-insert is a permutation; the moved element lands at its landing index; the rest keep their relative order |
| Ordering.MoveAt | hooks/useData.ts:243-244 | element-wise form of the move: which index each element of the result comes from |
| Ordering.MoveShift | hooks/useData.ts:243-244 | every other element keeps its relative order: it sits at its old index, or one before or after it, depending on where it lies relative to the start and landing indices |
| Ordering.MoveToSameIndex | hooks/useData.ts:243-244 | moving an element to its own index changes nothing |
| Ordering.MoveExample | hooks/useData.ts:243-244 | a worked move: `[a,b,c,d]` from 0 to 2 gives `[b,c,a,d]` |
| Ordering.MoveInPlace | hooks/useData.ts:243-244 | the in-place splice pair on an array leaves exactly `Move` of the old contents |
| Firestore.RemovePaths | hooks/useFirestore.ts:210-252 | deleting a set of documents leaves exactly the documents whose paths are not in the set |
| Firestore.ApplyBatch | hooks/useFirestore.ts:252 | `batch.commit()`: the writes apply in order, and the batch fails as a whole when one write fails; its laws are `ApplyDeletes`, `ApplyBatchSnoc` and the commit lemmas below |
| Firestore.ApplyWrite | hooks/useFirestore.ts:214 | a `batch.delete` always succeeds and removes exactly that path |
| Firestore.ApplyDeletes | hooks/useFirestore.ts:208-257 | a batch of deletes always commits and removes exactly the union of its paths |
| Firestore.DeletedPathsConcat | hooks/useFirestore.ts:238-241 | the paths of two concatenated batches are the union of their paths |
| Firestore.ApplyBatchSnoc | hooks/useFirestore.ts:429-434 | committing a batch with one more write is committing the batch, then applying that write |
| Firestore.ChildTaskIds | hooks/useFirestore.ts:217-218 | the query returns exactly the tasks whose parent is the deleted task |
| Firestore.MemoDeleteBatch | hooks/useFirestore.ts:229-234 | the loop deletes exactly the memos stored under one step |
| Firestore.StepCascadeBatch | hooks/useFirestore.ts:239-250 | the loop deletes exactly the task's steps and their memos |
| Firestore.DeleteTaskBatch | hooks/useFirestore.ts:208-252 | the batch deletes exactly the task, its direct children, and the steps and memos of both |
| Firestore.CascadeCommit | hooks/useFirestore.ts:208-257 | any delete-only batch with exactly that cascade commits to `TaskDeleted` |
| Firestore.TaskDeleted | hooks/useFirestore.ts:208-257 | the store after the cascade: the task and its direct children removed, with the steps of both and those steps' memos; `GrandchildSurvives` and `App.DeletedTaskGone` state its consequences |
| Firestore.GrandchildSurvives | hooks/useFirestore.ts:216-236 | the children's children are not queried: they survive the delete, with their steps |
| Firestore.DeleteStepBatch | hooks/useFirestore.ts:345-359 | the batch deletes exactly the step and its memos |
| Firestore.StepDeleteCommit | hooks/useFirestore.ts:345-366 | that batch commits to `StepDeleted`: only that step and its memos go |
| Firestore.StepDeleted | hooks/useFirestore.ts:345-366 | the store after a step delete: that step document and its memos removed, nothing else |
| Firestore.RelatedTaskIds | hooks/useFirestore.ts:303-307 | the query returns exactly the tasks that reference the concern |
| Firestore.DeleteConcernBatch | hooks/useFirestore.ts:294-311 | the batch first deletes the concern, then unlinks exactly the related tasks |
| Firestore.ApplyUnlinks | hooks/useFirestore.ts:308-310 | unlink updates on existing tasks always commit and clear exactly those tasks' link |
| Firestore.ConcernDeleteCommit | hooks/useFirestore.ts:294-317 | that batch commits to `ConcernDeleted`: the concern goes, its tasks stay but are unlinked |
| Firestore.ConcernDeleted | hooks/useFirestore.ts:294-317 | the store after a concern delete: the concern removed and `relatedConcernId` cleared on exactly the tasks that referenced it |
| Firestore.LastIndexOf | hooks/useFirestore.ts:430-433 | a listed id gets the index of its last occurrence, because later updates in a batch win |
| Firestore.ReorderStepsBatch | hooks/useFirestore.ts:424-434 | the loop issues one `order := index` update per listed step, in list order |
| Firestore.ReorderSubTasksBatch | hooks/useFirestore.ts:441-451 | the same for sub-tasks, addressed by task id only |
| Firestore.ReorderStepsCommit | hooks/useFirestore.ts:424-439 | the step batch commits exactly when every listed step exists, and then yields `StepsReordered` |
| Firestore.ReorderSubTasksCommit | hooks/useFirestore.ts:441-456 | the sub-task batch commits exactly when every listed task exists |
| Firestore.StepsReorderedSpec | hooks/useFirestore.ts:430-433 | each listed step (ids distinct) gets its index as `order`; every other field and document is unchanged |
| Firestore.TasksReorderedSpec | hooks/useFirestore.ts:447-450 | the same for tasks |
| Firestore.StepsReordered | hooks/useFirestore.ts:430-433 | the store after a step reorder: each listed step's `order` set to its last index in the list; `StepsReorderedSpec` states it field by field |
| Firestore.TasksReordered | hooks/useFirestore.ts:447-450 | the same for tasks; `TasksReorderedSpec` states it field by field |
| Firestore.UpdateTaskDoc | hooks/useFirestore.ts:194-206 | the update fails on a missing task; otherwise it stores the record under the document id and keeps every document well keyed |
| Firestore.ApplyTaskUpdates | hooks/useData.ts:92-109 | independent updates never add or remove a task and never touch other collections |
| Firestore.ApplyTaskUpdatesAt | hooks/useData.ts:92-109 | last write wins: each task holds the last record sent to it, or is untouched |
| Firestore.ApplyTaskUpdatesIdempotent | hooks/useData.ts:92-109 | issuing the same full-record updates twice leaves the store as once |
| Firestore.DerivedTask | hooks/useFirestore.ts:468-483 | the derived task is top-level, To-Do, Pending, 0%, order 0, linked to the concern, titled with the prefix |
| Firestore.DerivedNote | hooks/useFirestore.ts:478 | the log text of a derived task: the concern title quoted, followed by the fixed suffix |
| Firestore.AppendLog | hooks/useFirestore.ts:526-532 | the new log is the old log (empty when absent) with exactly the entry appended |
| Firestore.Store.Commit | hooks/useFirestore.ts:252 | a batch commits entirely or leaves the store unchanged |
| Firestore.Store.DeleteTask | hooks/useFirestore.ts:208-257 | the store becomes `TaskDeleted`: the task, its direct children, and their steps and memos removed |
| Firestore.Store.DeleteConcern | hooks/useFirestore.ts:294-317 | the store becomes `ConcernDeleted` |
| Firestore.Store.DeleteStep | hooks/useFirestore.ts:345-366 | the store becomes `StepDeleted` |
| Firestore.Store.ReorderSteps | hooks/useFirestore.ts:424-439 | succeeds exactly when every listed step exists; then orders are renumbered, otherwise nothing changes |
| Firestore.Store.ReorderSubTasks | hooks/useFirestore.ts:441-456 | the same for sub-tasks |
| Firestore.Store.UpdateTask | hooks/useFirestore.ts:194-206 | succeeds exactly when the task exists, and then stores the record |
| Firestore.Store.DeriveTaskFromConcern | hooks/useFirestore.ts:462-515 | the task is always added; the concern becomes SolutionDerived and the task is returned exactly when the concern exists |
| Firestore.Store.AddAnalysisLog | hooks/useFirestore.ts:517-542 | fails with no write on a missing concern; otherwise appends exactly one entry to that concern |
| Progress.RoundDiv | hooks/useData.ts:87 | `Math.round(num / den)`: the integer nearest to the quotient, halves rounded up |
| Progress.StepsOf | hooks/useData.ts:70 | the filter keeps exactly the steps of the task |
| Progress.ChildTasks | hooks/useData.ts:84 | the filter keeps exactly the tasks whose parent is the given id |
| Progress.CountCompleted | hooks/useData.ts:72 | the count is 0 exactly when no step is completed, and the full length exactly when all are |
| Progress.SumProgressBounds | hooks/useData.ts:86 | the sum of in-range percentages lies within 0..100·n |
| Progress.StepPercent | hooks/useData.ts:73 | `Math.round(k / n * 100)` on the exact share: the result is within half a unit of 100k/n (2np <= 200k + n < 2n(p+1)), lies in 0..100, is 0 with none done and 100 with all done (the source's double arithmetic differs at a few inputs; see "## Left out") |
| Progress.MeanPercent | hooks/useData.ts:87 | the rounded mean satisfies the nearest-integer relation with the sum |
| Progress.MeanPercentBounds | hooks/useData.ts:85-88 | with every child in 0..100, the project's progress is in 0..100 |
| Progress.SubTaskOutcomeSpec | hooks/useData.ts:69-81 | the sub-task rule: without steps 0% with the status kept; otherwise the progress is the rounded step share; none done gives Pending; some done below 100 gives In Progress; Completed is never set |
| Progress.SubTaskOutcome | hooks/useData.ts:65-81 | the sub-task branch: progress stays in 0..100; the status becomes Completed only when it already was; it becomes In Progress only when it already was or some but not all steps are done |
| Progress.ProjectOutcome | hooks/useData.ts:83-89 | the project branch: the status is never changed; the progress is 0 without children and otherwise the rounded mean of the children's progress (2n·p <= 2·sum + n < 2n·(p+1)); with every child in 0..100 it is in 0..100 |
| Progress.OutcomeOf | hooks/useData.ts:69-89 | the branch on the parent link: steps decide a task with a truthy parent, children any other task |
| Progress.RecomputeUpdates | hooks/useData.ts:60-114 | `updateTaskProgress`: no write exactly when the id is not in the snapshot; otherwise the task first, then at most one more write, and only to the task's parent |
| Progress.ParentCascade | hooks/useData.ts:99-110 | the cascade writes once exactly when the parent link is truthy and the parent is in the snapshot, and then to the parent's id |
| Progress.RoundedFullKeepsStatus | hooks/useData.ts:73-79 | 199 of 200 steps done rounds to 100%, and the status is left as it was |
| Progress.UncheckDemotes | hooks/useData.ts:75-76 | un-completing a step (share below 99.5%) demotes a Completed sub-task |
| Progress.RecomputeShape | hooks/useData.ts:60-114 | what one recompute writes: nothing for an unknown id; otherwise the task with only progress and status replaced, by the sub-task rule for a task with a parent, and for a project by 0 without children or the rounded mean of its children, status kept; then at most the parent, with only progress replaced by its children's mean |
| Progress.ScenarioProjectMean | hooks/useData.ts:83-88 | a project whose sub-tasks stand at 100% and 0% is written at 50% |
| Progress.CascadeUsesSnapshotValue | hooks/useData.ts:99-110 | the parent is averaged from the snapshot: a sub-task written at 100% leaves its parent written at 0% |
| UseData.StepOrders | hooks/useData.ts:246 | the orders of a group, element by element |
| UseData.TaskOrders | hooks/useData.ts:267 | the same for tasks |
| UseData.DenseAppend | hooks/useData.ts:144 | appending the next free order to orders 0..n-1 gives 0..n |
| UseData.SiblingsOf | hooks/useData.ts:195 | the filter keeps exactly the tasks with that parent, by strict equality |
| UseData.StepsOfSnoc | hooks/useData.ts:138 | appending a step extends its own group and no other |
| UseData.SiblingsOfSnoc | hooks/useData.ts:195 | appending a task extends its own sibling group and no other |
| UseData.NewStep | hooks/useData.ts:136-148 | the new step is Pending, under its task, with the group's size as its order |
| UseData.NewStepKeepsOrdersDense | hooks/useData.ts:138-144 | if a step group's orders are 0..n-1, they are 0..n after the add |
| UseData.NewTask | hooks/useData.ts:193-207 | the new task keeps the form fields, is Pending at 0% with no concern link and one creation log entry, and takes the sibling count as its order |
| UseData.NewTaskKeepsOrdersDense | hooks/useData.ts:195-202 | if a sibling group's orders are 0..n-1, they are 0..n after the add |
| UseData.NewConcern | hooks/useData.ts:209-219 | the new concern keeps the form fields, is Analyzing, and has exactly the creation log entry |
| UseData.RenumberSteps | hooks/useData.ts:246 | each step keeps every field except `order`, which becomes its index |
| UseData.RenumberTasks | hooks/useData.ts:267 | the same for tasks |
| UseData.RenumberStepsInPlace | hooks/useData.ts:246 | the loop leaves exactly `RenumberSteps` of the old contents |
| UseData.RenumberTasksInPlace | hooks/useData.ts:267 | the loop leaves exactly `RenumberTasks` of the old contents |
| UseData.StepRank | components/DetailModal.tsx:203-209 | the sort key of the step comparator (used again at hooks/useData.ts:233-239): completed steps last, then `order`; `DetailModal.ComparatorsAgreeWithRank` ties it to the comparator |
| UseData.TaskRank | components/DetailModal.tsx:146-152 | the same key for sub-tasks |
| UseData.ReorderedSteps | hooks/useData.ts:229-250 | the step group reorderSteps hands to the store: sorted, moved, renumbered, or nothing when the start index names no step; `ReorderedStepsDefined` and `ReorderedStepsSpec` state its properties |
| UseData.ReorderedSubTasks | hooks/useData.ts:252-271 | the same for sub-tasks; `ReorderedSubTasksDefined` and `ReorderedSubTasksSpec` state its properties |
| UseData.ReorderSteps | hooks/useData.ts:229-250 | nothing without a selected task; otherwise the sorted group, moved and renumbered |
| UseData.ReorderSubTasks | hooks/useData.ts:252-271 | the sorted children, moved and renumbered |
| UseData.ReorderedStepsDefined | hooks/useData.ts:243 | a step reorder writes something exactly when the start index names a step of the group |
| UseData.ReorderedStepsSpec | hooks/useData.ts:229-250 | the write holds each step of the group exactly once, orders 0..n-1, same parent; the dragged step lands at its target index |
| UseData.RenumberedSteps | hooks/useData.ts:243-246 | renumbering a permutation of the group gives dense orders and keeps the parent |
| UseData.RenumberedStepsMembers | hooks/useData.ts:243-246 | every written step is a group member and every group member is written |
| UseData.ReorderedSubTasksDefined | hooks/useData.ts:264 | a sub-task reorder writes something exactly when the start index names a child |
| UseData.ReorderedSubTasksSpec | hooks/useData.ts:252-271 | the write holds each child exactly once, orders 0..n-1, same parent; the dragged child lands at its target index |
| UseData.RenumberedTasks | hooks/useData.ts:264-267 | renumbering a permutation of the children gives dense orders and keeps the parent |
| UseData.RenumberedTasksMembers | hooks/useData.ts:264-267 | every written task is a child and every child is written |
| UseData.ReplaceTask | hooks/useData.ts:170 | the snapshot as it would read after the edit: same length, the edited record in place of its id |
| UseData.FindReplaced | hooks/useData.ts:170 | looking up the edited id finds the edited record; other ids find what they found before |
| UseData.Merge | hooks/useData.ts:170 | `{ ...task, ...newValues }`: each field from the patch when present, otherwise from the task |
| UseData.UpdateTaskUpdates | hooks/useData.ts:165-181 | `updateTask` as written: no write exactly when the task is not in the snapshot; otherwise the merged record first and, right after it, a second write to the same task from the recompute; `UpdateTaskLosesEdit` states the result |
| UseData.UpdateTaskUpdatesFixed | hooks/useData.ts:165-181 | the corrected `updateTask`: the same first write and the same second target, the recompute reading the edited snapshot; `UpdateTaskFixedKeepsEdit` states the result |
| UseData.LastUpdateOfConcat | hooks/useData.ts:170-178 | the last write of two update lists in sequence comes from the second when it writes at all |
| UseData.RecomputeWritesNot | hooks/useData.ts:92-110 | a recompute writes only its own task and that task's parent |
| UseData.UpdateTaskLosesEdit | hooks/useData.ts:165-181 | as written, the task ends up holding its pre-edit record, with only progress and status recomputed |
| UseData.UpdateTaskFixedKeepsEdit | hooks/useData.ts:165-181 | corrected: the task holds the edited record, with progress and status recomputed from it |
| UseData.RetitleExample | hooks/useData.ts:165-181 | retitling project "P" from "A" to "B" stores "A" as written and "B" when corrected |
| DetailModal.KindsPartition | components/DetailModal.tsx:76-79 | every item is exactly one of project, sub-task and concern |
| DetailModal.EmptyParentKinds | components/DetailModal.tsx:78 | a parent id of `""` is a sub-task here but top level for the data layer |
| DetailModal.IsTask | components/DetailModal.tsx:76 | `'progressPercent' in item`: the item is a task |
| DetailModal.IsProject | components/DetailModal.tsx:77 | a task whose `parentTaskId` is `null` |
| DetailModal.IsSubTask | components/DetailModal.tsx:78 | a task whose `parentTaskId` is not `null`, `""` included |
| DetailModal.IsConcern | components/DetailModal.tsx:79 | not a task; `KindsPartition` states that the three kinds partition the items |
| DetailModal.HandleAddStep | components/DetailModal.tsx:81-87 | a call goes to the shown task, with the trimmed title |
| DetailModal.HandleAddSubTask | components/DetailModal.tsx:89-95 | a call goes to the shown task, with the trimmed title |
| DetailModal.HandleAddLog | components/DetailModal.tsx:97-103 | a call goes to the shown concern, with the trimmed entry |
| DetailModal.AddGuardsSpec | components/DetailModal.tsx:81-103 | each form acts exactly on its own kind of item with non-blank input, and passes trimmed, non-empty text |
| DetailModal.AddGuardsExclusive | components/DetailModal.tsx:83-99 | at most one of the three forms acts on any item |
| DetailModal.ComparatorsAgreeWithRank | components/DetailModal.tsx:146-152 | each comparator's sign agrees with the sort key (completed last, then order), in both argument orders |
| DetailModal.StepComparator | components/DetailModal.tsx:205-209 | the step comparator: completed after open, otherwise by `order` difference; `ComparatorsAgreeWithRank` states its sign |
| DetailModal.SubTaskComparator | components/DetailModal.tsx:148-152 | the same comparator for sub-tasks |
| DetailModal.DisplayedSteps | components/DetailModal.tsx:203-209 | the shown steps are a permutation of the task's steps, sorted by that key |
| DetailModal.DisplayedSubTasks | components/DetailModal.tsx:146-152 | the shown sub-tasks are a permutation of the children, sorted by that key |
| DetailModal.DisplayedStepsOpenFirst | components/DetailModal.tsx:203-209 | no completed step is shown above an open one |
| DetailModal.HandleDrop | components/DetailModal.tsx:121-134 | an accepted drop reorders from the payload's index to the drop index under this list's parent |
| DetailModal.HandleDropSpec | components/DetailModal.tsx:124-130 | a drop reorders exactly when the payload parses, has the same list kind and parent, and names another index |
| DetailModal.StepDropMovesShownStep | components/DetailModal.tsx:121-134 | the step shown at the drag index is written at the drop index with that index as its order |
| DetailModal.SubTaskDropMovesShownTask | components/DetailModal.tsx:121-134 | the sub-task shown at the drag index is written at the drop index with that index as its order |
| DetailModal.AllStepsCompletedSpec | components/DetailModal.tsx:210 | all shown steps done means a non-empty group with every step completed; the recompute then gives 100% with the status unchanged |
| DetailModal.AllStepsCompleted | components/DetailModal.tsx:210 | the list is non-empty and every step in it is completed; `AllStepsCompletedSpec` relates it to the step count |
| DetailModal.ShowCompletionPrompt | components/DetailModal.tsx:210-216 | the prompt shows for a sub-task whose shown steps are all completed and whose status is not Completed |
| DetailModal.CompletePatch | App.tsx:131-133 | the button's patch `{ status: Completed }`: only the status is set |
| DetailModal.CompletionPromptReverted | components/DetailModal.tsx:215-219 | as written, the prompt's button leaves the sub-task at its old, non-Completed status |
| DetailModal.CompletionPromptFixed | components/DetailModal.tsx:215-219 | with the corrected updateTask the button completes the sub-task, at 100% |
| DetailModal.RelatedTasks | components/DetailModal.tsx:301 | the filter keeps exactly the tasks linked to the concern |
| DetailModal.AllRelatedTasksCompletedSpec | components/DetailModal.tsx:301-302 | some task is linked to the concern, and every linked task is completed (both directions) |
| DetailModal.AllRelatedTasksCompleted | components/DetailModal.tsx:301-302 | some task is linked to the concern and every linked task is completed; `AllRelatedTasksCompletedSpec` states it in both directions |
| DetailModal.DerivedTaskReopensConcern | components/DetailModal.tsx:301-302 | after a task is derived from the concern, its related tasks are no longer all completed |
| App.TopLevelIn | App.tsx:31-33 | the filter keeps exactly the top-level tasks of a category |
| App.OrderKey | App.tsx:31-33 | the key of `(a, b) => a.order - b.order` |
| App.Column | App.tsx:31-33 | a column is a permutation of those tasks |
| App.TopLevelCount | App.tsx:31-33 | the filter keeps every copy of a top-level task of the category and no copy of any other task |
| App.ColumnSpec | App.tsx:30-35 | a column holds exactly the top-level tasks of its category, each as often as in the list, in ascending order |
| App.ColumnsDisjoint | App.tsx:30-35 | no task appears in two columns, and no sub-task appears in any |
| App.TopLevelShown | App.tsx:30-35 | every top-level task appears in the column of its category |
| App.DerivedTaskInToDo | App.tsx:33 | a task derived from a concern appears in the To-Do column |
| App.RefreshSelection | App.tsx:17-28 | no selection stays none; a refreshed selection keeps its kind |
| App.RefreshSelectionSpec | App.tsx:17-28 | the refresh keeps kind and id, takes the listed version, and drops the item exactly when its id is gone |
| App.RefreshSelectionIdempotent | App.tsx:17-28 | a second refresh without a change to the lists changes nothing |
| App.HandleDeleteItem | App.tsx:37-44 | deletes the task or the concern, by kind, and closes the modal |
| App.DeletedTaskGone | App.tsx:37-44 | after a task delete, neither the task nor its direct children remain |
| App.SubTaskDraft | App.tsx:46-54 | the draft has an empty description, the given parent, and the parent's category (To-Do when the parent is missing) |
| App.SiblingsAreChildren | App.tsx:52 | the siblings addTask counts for a sub-task are the parent's children |
| App.SubTaskAdded | App.tsx:46-54 | the new sub-task is among the parent's children, its `order` is the number of children before the add, it is Pending at 0%, and, for a non-empty parent id, it is in no board column |
| CreationModal.InitialForm | components/CreationModal.tsx:14-19 | a fresh form is empty, with category Now |
| CreationModal.IsFormValid | components/CreationModal.tsx:21 | `title.trim() !== '' && description.trim() !== ''`; `IsFormValidSpec` restates it in terms of white space |
| CreationModal.IsFormValidSpec | components/CreationModal.tsx:21 | the form is valid exactly when title and description are not all white space; a fresh form is invalid |
| CreationModal.HandleSubmit | components/CreationModal.tsx:23-41 | an invalid form calls nothing; a valid one in task mode calls `addTask` with the trimmed title and description, the chosen category and no parent; in concern mode `addConcern` with the trimmed title, description and resolution action |
| CreationModal.HandleSubmitTrimmed | components/CreationModal.tsx:28-38 | every submitted text is already trimmed (trimming it again changes nothing), and the title and description are non-empty |
| CreationModal.SubmittedTaskShown | components/CreationModal.tsx:27-33 | the created task shows in the column of the chosen category, and its `order` is the number of tasks whose parent is null before the add |

## Left out

- Real-time listeners (`onSnapshot`), React state, effects, rendering and
  styling. These are not logic of the core. The lists a handler reads
  are parameters (the snapshot).
- The effect at hooks/useData.ts:116-122 that runs `updateTaskProgress`
  whenever the steps change. The recompute itself is modelled; when and
  how often React runs the effect is not.
- `App.tsx` never calls `setSelectedTaskId`. With no task id, the steps
  listener sets the step list to `[]` and returns without subscribing
  (hooks/useFirestore.ts:105-109), so the step snapshot is empty in the
  running app. The model takes the step list as a parameter, so the
  lemmas about steps describe the code paths whatever the listener
  delivers.
- `addStep` stores an `id` field (`s${Date.now()}`, hooks/useData.ts:140)
  in the step document, which `addDoc` files under a generated document
  id. The steps listener builds `{ id: doc.id, ...doc.data() }`
  (hooks/useFirestore.ts:116-119), so the stored field overrides the
  document id in every step the app reads. Every step id the app then
  passes to the store names no document. A step reorder batch updates
  missing documents and fails as a whole (`Firestore.Store.ReorderSteps`
  leaves the store unchanged). A step delete deletes nothing, since a
  delete of a missing path succeeds. The listener is not modelled, and
  `UseData.NewStep` takes the step id as a parameter, so the model's
  step ids are the document ids.
- `updateConcern`, `updateStep` and the memo operations are not part of
  this model.
- `App.tsx`'s `onDeriveTask` passes the Promise returned by
  `deriveTaskFromConcern` to `setSelectedItem`. It is not part of this
  model because it depends on React rendering a Promise.
- The `[고민 해결]` title and the log texts are the source's constants.
  Timestamps and the ids Firestore generates are parameters.
  `Firestore.Store.DeriveTaskFromConcern` uses one `now` for the log
  entry it stores and the one it returns. The source reads the clock
  twice (hooks/useFirestore.ts:477, :504), so the two timestamps can
  differ by the time the writes take.
- Progress.StepPercent: rounds the exact share 100k/n. The source
  rounds the double `(k / n) * 100`, whose two roundings can land just
  below an exact half. For 23 of 40 steps the source computes
  57.49999999999999 and writes 57, where the model writes 58. The same
  happens at 46/80, 29/200, 57/200 and 115/200, among others. Doubles
  are not modelled.
- Ordering.SortBy: the sort assumes `Array.prototype.sort` is stable.
  Under that assumption every stable sort gives the same result, so
  sorting by insertion is faithful. The equivalence itself is not
  proved.
- Ordering.Move: start and end indices are natural numbers. Negative
  `splice` indices, which count from the end, are not modelled; the drag
  handlers only produce indices of shown items. A start index past the
  list makes `removed` undefined. `doc(undefined)` then throws before the
  batch commits, so the model writes nothing (`None`).
- DetailModal.HandleDrop: `JSON.parse` failures and payloads of the
  wrong shape are the single `None` case of the payload.
- UseData.UpdateTaskLosesEdit: stated for a task whose parent chain does
  not return to it within two links (`NoShortCycle`). The hierarchy
  project → sub-task never has such a cycle.
- UseData.UpdateTaskFixedKeepsEdit: stated for patches that leave
  `parentTaskId` alone. Moving a task to another parent in the same
  edit is not covered.
- Firestore.Store.DeriveTaskFromConcern: `addDoc` is awaited before the
  batch, so a missing concern leaves the new task in place. The
  generated id is a parameter required to be fresh.
- Firestore network errors and rejected promises (`catch` blocks that
  log and rethrow) are not modelled. Every write either applies or,
  when its document is missing, fails as Firestore's `update` does.
- The `createdAt` and `updatedAt` server timestamps are not modelled.

## Findings

| source | as written | input that shows it | evidently intended | confidence | as-written member | corrected member |
|---|---|---|---|---|---|---|
| hooks/useData.ts:165-181 | `updateTask` writes `{...task, ...newValues}`, then calls `updateTaskProgress(taskId)`. That call writes `{...taskToUpdate, progressPercent, status}` from the snapshot taken before the edit, so the last write restores every edited field | project "P" titled "A", edited to title "B": "A" is stored | the recompute starts from the edited record, so the edit survives with progress and status recomputed | high (proved on the model; not executed) | UseData.UpdateTaskLosesEdit | UseData.UpdateTaskFixedKeepsEdit |
| components/DetailModal.tsx:215-219 | the "mark Completed" button calls `updateTask(id, { status: Completed })`. The recompute after it puts back the pre-edit status, since all steps done gives 100% and leaves the status alone | an In Progress sub-task whose steps are all completed: after the click it is still In Progress | the sub-task becomes Completed | high (proved on the model; not executed) | DetailModal.CompletionPromptReverted | DetailModal.CompletionPromptFixed |
