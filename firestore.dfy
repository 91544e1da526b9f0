// The persistence operations of hooks/useFirestore.ts against an in-memory
// document store. A batch is a list of writes built by the same loops as the
// source and committed all at once.
module Firestore {
  import opened Types

  /** tasks/{taskId}/steps/{stepId} */
  type StepKey = (Id, Id)
  /** tasks/{taskId}/steps/{stepId}/memos/{memoId} */
  type MemoKey = (Id, Id, Id)

  /** The whole store: one map per collection, keyed by document path. */
  datatype Db = Db(
    tasks: map<Id, Task>,
    concerns: map<Id, Concern>,
    steps: map<StepKey, Step>,
    memos: map<MemoKey, Memo>)

  datatype DocPath =
    | TaskDoc(taskId: Id)
    | ConcernDoc(concernId: Id)
    | StepDoc(taskId: Id, stepId: Id)
    | MemoDoc(taskId: Id, stepId: Id, memoId: Id)

  /** The writes the source puts in a batch: `batch.delete(ref)` and the
      field updates `batch.update(ref, {...})` it issues. */
  datatype Write =
    | Delete(path: DocPath)
    | SetTaskOrder(taskId: Id, order: int)
    | SetStepOrder(taskId: Id, stepId: Id, order: int)
    | ClearRelatedConcern(taskId: Id)
    | SetConcernStatus(concernId: Id, status: ConcernStatus)

  /** Every task document read back carries its own document id. */
  predicate WellKeyed(db: Db)
  {
    forall k :: k in db.tasks ==> db.tasks[k].id == k
  }

  /** Removes the documents whose paths are in `ps`. */
  function RemovePaths(db: Db, ps: set<DocPath>): (r: Db)
    ensures r.tasks.Keys == set k | k in db.tasks && TaskDoc(k) !in ps
    ensures r.concerns.Keys == set k | k in db.concerns && ConcernDoc(k) !in ps
    ensures r.steps.Keys == set k | k in db.steps && StepDoc(k.0, k.1) !in ps
    ensures r.memos.Keys == set k | k in db.memos && MemoDoc(k.0, k.1, k.2) !in ps
  {
    Db(map k | k in db.tasks && TaskDoc(k) !in ps :: db.tasks[k],
       map k | k in db.concerns && ConcernDoc(k) !in ps :: db.concerns[k],
       map k | k in db.steps && StepDoc(k.0, k.1) !in ps :: db.steps[k],
       map k | k in db.memos && MemoDoc(k.0, k.1, k.2) !in ps :: db.memos[k])
  }

  /** One write. `None` when an update targets a missing document, which
      makes the whole batch fail; deleting a missing document is allowed. */
  function ApplyWrite(db: Db, w: Write): (r: Option<Db>)
    ensures w.Delete? ==> r == Some(RemovePaths(db, {w.path}))
  {
    match w
    case Delete(p) => Some(RemovePaths(db, {p}))
    case SetTaskOrder(t, o) =>
      if t in db.tasks then Some(db.(tasks := db.tasks[t := db.tasks[t].(order := o)])) else None
    case SetStepOrder(t, s, o) =>
      if (t, s) in db.steps then Some(db.(steps := db.steps[(t, s) := db.steps[(t, s)].(order := o)])) else None
    case ClearRelatedConcern(t) =>
      if t in db.tasks then Some(db.(tasks := db.tasks[t := db.tasks[t].(relatedConcernId := None)])) else None
    case SetConcernStatus(c, st) =>
      if c in db.concerns then Some(db.(concerns := db.concerns[c := db.concerns[c].(status := st)])) else None
  }

  /** `batch.commit()`: all writes in order, or none of them. */
  function ApplyBatch(db: Db, batch: seq<Write>): Option<Db>
    decreases |batch|
  {
    if batch == [] then Some(db)
    else match ApplyWrite(db, batch[0])
      case None => None
      case Some(db') => ApplyBatch(db', batch[1..])
  }

  /** The paths a batch deletes. */
  function DeletedPaths(batch: seq<Write>): set<DocPath>
  {
    set w | w in batch && w.Delete? :: w.path
  }

  predicate OnlyDeletes(batch: seq<Write>)
  {
    forall w :: w in batch ==> w.Delete?
  }

  /** A batch of deletes always commits, and removes exactly its paths. */
  lemma {:induction false} ApplyDeletes(db: Db, batch: seq<Write>)
    requires OnlyDeletes(batch)
    ensures ApplyBatch(db, batch) == Some(RemovePaths(db, DeletedPaths(batch)))
    decreases |batch|
  {
    if batch == [] {
      assert DeletedPaths(batch) == {};
      var r := RemovePaths(db, {});
      assert r.tasks == db.tasks && r.concerns == db.concerns;
      assert r.steps == db.steps && r.memos == db.memos;
    } else {
      var p := batch[0].path;
      var rest := batch[1..];
      assert OnlyDeletes(rest) by {
        forall w | w in rest ensures w.Delete? { assert w in batch; }
      }
      ApplyDeletes(RemovePaths(db, {p}), rest);
      DeletedPathsCons(batch);
      RemovePathsTwice(db, {p}, DeletedPaths(rest));
    }
  }

  /** The paths of a non-empty delete batch: its first path and the rest's. */
  lemma DeletedPathsCons(batch: seq<Write>)
    requires batch != [] && batch[0].Delete?
    ensures DeletedPaths(batch) == {batch[0].path} + DeletedPaths(batch[1..])
  {
    assert batch == [batch[0]] + batch[1..];
  }

  /** Removing two sets of paths one after the other removes their union. */
  lemma RemovePathsTwice(db: Db, a: set<DocPath>, b: set<DocPath>)
    ensures RemovePaths(RemovePaths(db, a), b) == RemovePaths(db, a + b)
  {
    var l := RemovePaths(RemovePaths(db, a), b);
    var r := RemovePaths(db, a + b);
    assert l.tasks == r.tasks;
    assert l.concerns == r.concerns;
    assert l.steps == r.steps;
    assert l.memos == r.memos;
  }

  /** Committing a batch step by step: the batch extended by one write is
      the batch followed by that write. */
  lemma {:induction false} ApplyBatchSnoc(db: Db, batch: seq<Write>, w: Write)
    ensures ApplyBatch(db, batch + [w]) ==
            match ApplyBatch(db, batch)
            case None => None
            case Some(d) => ApplyWrite(d, w)
    decreases |batch|
  {
    if batch == [] {
      assert [] + [w] == [w];
    } else {
      assert (batch + [w])[1..] == batch[1..] + [w];
      match ApplyWrite(db, batch[0])
      case None =>
      case Some(d) => ApplyBatchSnoc(d, batch[1..], w);
    }
  }

  lemma DeletedPathsConcat(a: seq<Write>, b: seq<Write>)
    ensures DeletedPaths(a + b) == DeletedPaths(a) + DeletedPaths(b)
  {
    forall p ensures p in DeletedPaths(a + b) <==> p in DeletedPaths(a) + DeletedPaths(b) {
      if p in DeletedPaths(a + b) {
        var w :| w in a + b && w.Delete? && w.path == p;
      }
      if p in DeletedPaths(a) {
        var w :| w in a && w.Delete? && w.path == p;
        assert w in a + b;
      }
      if p in DeletedPaths(b) {
        var w :| w in b && w.Delete? && w.path == p;
        assert w in a + b;
      }
    }
  }

  // ---------------------------------------------------------------------
  // deleteTaskInFirestore (hooks/useFirestore.ts:208-257)
  // ---------------------------------------------------------------------

  /** What `where('parentTaskId', '==', taskId)` returns: the direct
      children, and nothing below them. */
  function ChildTaskIds(db: Db, taskId: Id): (r: set<Id>)
    ensures forall k :: k in r <==> k in db.tasks && db.tasks[k].parentTaskId == Some(taskId)
  {
    set k | k in db.tasks && db.tasks[k].parentTaskId == Some(taskId)
  }

  /** The step documents of the tasks in `ts` that exist, and the memos
      stored under those steps. */
  predicate InStepCascade(db: Db, ts: set<Id>, p: DocPath)
  {
    match p
    case StepDoc(t, s) => t in ts && (t, s) in db.steps
    case MemoDoc(t, s, m) => t in ts && (t, s) in db.steps && (t, s, m) in db.memos
    case _ => false
  }

  /** The tasks one delete removes: the task and its direct children. */
  function DoomedTasks(db: Db, taskId: Id): set<Id>
  {
    {taskId} + ChildTaskIds(db, taskId)
  }

  /** A document deleteTaskInFirestore deletes. */
  predicate InTaskCascade(db: Db, taskId: Id, p: DocPath)
  {
    (p.TaskDoc? && p.taskId in DoomedTasks(db, taskId)) || InStepCascade(db, DoomedTasks(db, taskId), p)
  }

  /** The step documents of `taskId` already visited (`done`) and their memos. */
  predicate StepsVisited(db: Db, taskId: Id, done: set<Id>, p: DocPath)
  {
    match p
    case StepDoc(t, s) => t == taskId && s in done
    case MemoDoc(t, s, m) => t == taskId && s in done && (t, s, m) in db.memos
    case _ => false
  }

  /** The memo documents stored under one step. */
  predicate IsMemoOf(db: Db, taskId: Id, stepId: Id, p: DocPath)
  {
    p.MemoDoc? && p.taskId == taskId && p.stepId == stepId && (taskId, stepId, p.memoId) in db.memos
  }

  /** The loop over `tasks/{taskId}/steps/{stepId}/memos`, deleting each. */
  method MemoDeleteBatch(db: Db, taskId: Id, stepId: Id) returns (batch: seq<Write>)
    ensures OnlyDeletes(batch)
    ensures forall p :: p in DeletedPaths(batch) <==> IsMemoOf(db, taskId, stepId, p)
  {
    var memoIds := set k | k in db.memos && k.0 == taskId && k.1 == stepId :: k.2;
    batch := [];
    var todo := memoIds;
    while todo != {}
      invariant todo <= memoIds
      invariant OnlyDeletes(batch)
      invariant forall p :: p in DeletedPaths(batch) <==>
        p.MemoDoc? && p.taskId == taskId && p.stepId == stepId && p.memoId in memoIds - todo
      decreases todo
    {
      var m :| m in todo;
      DeletedPathsConcat(batch, [Delete(MemoDoc(taskId, stepId, m))]);
      batch := batch + [Delete(MemoDoc(taskId, stepId, m))];
      todo := todo - {m};
    }
  }

  /** The loop over `tasks/{taskId}/steps` and, for each step, over its
      memos, deleting every document it finds. */
  method StepCascadeBatch(db: Db, taskId: Id) returns (batch: seq<Write>)
    ensures OnlyDeletes(batch)
    ensures forall p :: p in DeletedPaths(batch) <==> InStepCascade(db, {taskId}, p)
  {
    var stepIds := set k | k in db.steps && k.0 == taskId :: k.1;
    batch := [];
    var todo := stepIds;
    while todo != {}
      invariant todo <= stepIds
      invariant OnlyDeletes(batch)
      invariant forall p :: p in DeletedPaths(batch) <==> StepsVisited(db, taskId, stepIds - todo, p)
      decreases todo
    {
      var s :| s in todo;
      DeletedPathsConcat(batch, [Delete(StepDoc(taskId, s))]);
      batch := batch + [Delete(StepDoc(taskId, s))];
      var memoBatch := MemoDeleteBatch(db, taskId, s);
      DeletedPathsConcat(batch, memoBatch);
      batch := batch + memoBatch;
      todo := todo - {s};
    }
  }

  /** The batch of deleteTaskInFirestore: the task, then for each direct
      child the child, its steps and their memos, then the task's own steps
      and their memos. */
  method DeleteTaskBatch(db: Db, taskId: Id) returns (batch: seq<Write>)
    ensures OnlyDeletes(batch)
    ensures forall p :: p in DeletedPaths(batch) <==> InTaskCascade(db, taskId, p)
  {
    batch := [Delete(TaskDoc(taskId))];
    assert DeletedPaths(batch) == {TaskDoc(taskId)};
    var children := ChildTaskIds(db, taskId);
    var todo := children;
    while todo != {}
      invariant todo <= children
      invariant OnlyDeletes(batch)
      invariant forall p :: p in DeletedPaths(batch) <==>
        p == TaskDoc(taskId) || (p.TaskDoc? && p.taskId in children - todo) ||
        InStepCascade(db, children - todo, p)
      decreases todo
    {
      var c :| c in todo;
      DeletedPathsConcat(batch, [Delete(TaskDoc(c))]);
      batch := batch + [Delete(TaskDoc(c))];
      var stepBatch := StepCascadeBatch(db, c);
      DeletedPathsConcat(batch, stepBatch);
      batch := batch + stepBatch;
      todo := todo - {c};
    }
    var own := StepCascadeBatch(db, taskId);
    DeletedPathsConcat(batch, own);
    batch := batch + own;
  }

  /** The store after the task delete commits. */
  function TaskDeleted(db: Db, taskId: Id): Db
  {
    var doomed := DoomedTasks(db, taskId);
    Db(map k | k in db.tasks && k !in doomed :: db.tasks[k],
       db.concerns,
       map k | k in db.steps && k.0 !in doomed :: db.steps[k],
       map k | k in db.memos && !(k.0 in doomed && (k.0, k.1) in db.steps) :: db.memos[k])
  }

  /** Committing any batch that deletes exactly the cascade yields
      `TaskDeleted`. */
  lemma CascadeCommit(db: Db, taskId: Id, batch: seq<Write>)
    requires OnlyDeletes(batch)
    requires forall p :: p in DeletedPaths(batch) <==> InTaskCascade(db, taskId, p)
    ensures ApplyBatch(db, batch) == Some(TaskDeleted(db, taskId))
  {
    ApplyDeletes(db, batch);
    var r := RemovePaths(db, DeletedPaths(batch));
    var e := TaskDeleted(db, taskId);
    assert r.tasks.Keys == e.tasks.Keys by {
      forall k ensures k in r.tasks <==> k in e.tasks {
        assert InTaskCascade(db, taskId, TaskDoc(k)) <==> k in DoomedTasks(db, taskId);
      }
    }
    assert r.steps.Keys == e.steps.Keys by {
      forall k | k in db.steps ensures k in r.steps <==> k in e.steps {
        assert InTaskCascade(db, taskId, StepDoc(k.0, k.1)) <==> k.0 in DoomedTasks(db, taskId);
      }
    }
    assert r.memos.Keys == e.memos.Keys by {
      forall k | k in db.memos ensures k in r.memos <==> k in e.memos {
        assert InTaskCascade(db, taskId, MemoDoc(k.0, k.1, k.2)) <==>
          k.0 in DoomedTasks(db, taskId) && (k.0, k.1) in db.steps;
      }
    }
    assert r.concerns == e.concerns;
  }

  /** Grandchildren are never queried: a task whose parent is a child of
      the deleted task survives, with its steps. */
  lemma GrandchildSurvives(db: Db, taskId: Id, g: Id)
    requires g in db.tasks && g != taskId
    requires db.tasks[g].parentTaskId.Some?
    requires db.tasks[g].parentTaskId.value in ChildTaskIds(db, taskId)
    requires db.tasks[g].parentTaskId.value != taskId
    ensures g in TaskDeleted(db, taskId).tasks
    ensures forall k :: k in db.steps && k.0 == g ==> k in TaskDeleted(db, taskId).steps
  {
    assert g !in DoomedTasks(db, taskId);
  }

  // ---------------------------------------------------------------------
  // deleteStepInFirestore (hooks/useFirestore.ts:345-366)
  // ---------------------------------------------------------------------

  /** The batch of deleteStepInFirestore: the step and its memos. */
  method DeleteStepBatch(db: Db, taskId: Id, stepId: Id) returns (batch: seq<Write>)
    ensures OnlyDeletes(batch)
    ensures forall p :: p in DeletedPaths(batch) <==> p == StepDoc(taskId, stepId) || IsMemoOf(db, taskId, stepId, p)
  {
    batch := [Delete(StepDoc(taskId, stepId))];
    assert DeletedPaths(batch) == {StepDoc(taskId, stepId)};
    var memoBatch := MemoDeleteBatch(db, taskId, stepId);
    DeletedPathsConcat(batch, memoBatch);
    batch := batch + memoBatch;
  }

  /** The store after the step delete commits: nothing but that step and
      the memos under it is gone. */
  function StepDeleted(db: Db, taskId: Id, stepId: Id): Db
  {
    db.(steps := map k | k in db.steps && k != (taskId, stepId) :: db.steps[k],
        memos := map k | k in db.memos && !(k.0 == taskId && k.1 == stepId) :: db.memos[k])
  }

  lemma StepDeleteCommit(db: Db, taskId: Id, stepId: Id, batch: seq<Write>)
    requires OnlyDeletes(batch)
    requires forall p :: p in DeletedPaths(batch) <==> p == StepDoc(taskId, stepId) || IsMemoOf(db, taskId, stepId, p)
    ensures ApplyBatch(db, batch) == Some(StepDeleted(db, taskId, stepId))
  {
    ApplyDeletes(db, batch);
    var r := RemovePaths(db, DeletedPaths(batch));
    var e := StepDeleted(db, taskId, stepId);
    assert r.tasks.Keys == e.tasks.Keys by {
      forall k | k in db.tasks ensures TaskDoc(k) !in DeletedPaths(batch) { }
    }
    assert r.concerns.Keys == e.concerns.Keys by {
      forall k | k in db.concerns ensures ConcernDoc(k) !in DeletedPaths(batch) { }
    }
    assert r.steps.Keys == e.steps.Keys by {
      forall k | k in db.steps ensures StepDoc(k.0, k.1) in DeletedPaths(batch) <==> k == (taskId, stepId) {
        assert StepDoc(k.0, k.1) == StepDoc(taskId, stepId) <==> k == (taskId, stepId);
      }
    }
    assert r.memos.Keys == e.memos.Keys by {
      forall k | k in db.memos
        ensures MemoDoc(k.0, k.1, k.2) in DeletedPaths(batch) <==> k.0 == taskId && k.1 == stepId
      {
        assert IsMemoOf(db, taskId, stepId, MemoDoc(k.0, k.1, k.2)) <==> k.0 == taskId && k.1 == stepId;
      }
    }
    assert r.tasks == e.tasks;
    assert r.concerns == e.concerns;
    assert r.steps == e.steps;
    assert r.memos == e.memos;
  }

  // ---------------------------------------------------------------------
  // deleteConcernInFirestore (hooks/useFirestore.ts:294-317)
  // ---------------------------------------------------------------------

  /** What `where('relatedConcernId', '==', concernId)` returns. */
  function RelatedTaskIds(db: Db, concernId: Id): (r: set<Id>)
    ensures forall k :: k in r <==> k in db.tasks && db.tasks[k].relatedConcernId == Some(concernId)
  {
    set k | k in db.tasks && db.tasks[k].relatedConcernId == Some(concernId)
  }

  /** The task ids a list of writes unlinks. */
  function UnlinkedIds(batch: seq<Write>): set<Id>
  {
    set w | w in batch && w.ClearRelatedConcern? :: w.taskId
  }

  /** The batch of deleteConcernInFirestore: delete the concern, then one
      `relatedConcernId: null` update per task that references it. */
  method DeleteConcernBatch(db: Db, concernId: Id) returns (batch: seq<Write>)
    ensures |batch| >= 1 && batch[0] == Delete(ConcernDoc(concernId))
    ensures forall w :: w in batch[1..] ==> w.ClearRelatedConcern?
    ensures UnlinkedIds(batch[1..]) == RelatedTaskIds(db, concernId)
  {
    batch := [Delete(ConcernDoc(concernId))];
    var related := RelatedTaskIds(db, concernId);
    var todo := related;
    while todo != {}
      invariant todo <= related
      invariant |batch| >= 1 && batch[0] == Delete(ConcernDoc(concernId))
      invariant forall w :: w in batch[1..] ==> w.ClearRelatedConcern?
      invariant UnlinkedIds(batch[1..]) == related - todo
      decreases todo
    {
      var t :| t in todo;
      assert (batch + [ClearRelatedConcern(t)])[1..] == batch[1..] + [ClearRelatedConcern(t)];
      assert UnlinkedIds(batch[1..] + [ClearRelatedConcern(t)]) == UnlinkedIds(batch[1..]) + {t};
      batch := batch + [ClearRelatedConcern(t)];
      todo := todo - {t};
    }
  }

  /** `relatedConcernId` set to null on the tasks in `ids`. */
  function Unlink(tasks: map<Id, Task>, ids: set<Id>): map<Id, Task>
  {
    map k | k in tasks :: if k in ids then tasks[k].(relatedConcernId := None) else tasks[k]
  }

  /** The store after the concern delete commits. */
  function ConcernDeleted(db: Db, concernId: Id): Db
  {
    db.(concerns := map k | k in db.concerns && k != concernId :: db.concerns[k],
        tasks := Unlink(db.tasks, RelatedTaskIds(db, concernId)))
  }

  /** A list of unlink updates on existing tasks always commits. */
  lemma {:induction false} ApplyUnlinks(db: Db, batch: seq<Write>)
    requires forall w :: w in batch ==> w.ClearRelatedConcern? && w.taskId in db.tasks
    ensures ApplyBatch(db, batch) == Some(db.(tasks := Unlink(db.tasks, UnlinkedIds(batch))))
    decreases |batch|
  {
    if batch == [] {
      assert UnlinkedIds(batch) == {};
      assert Unlink(db.tasks, {}) == db.tasks;
    } else {
      var t := batch[0].taskId;
      var rest := batch[1..];
      var db' := db.(tasks := db.tasks[t := db.tasks[t].(relatedConcernId := None)]);
      assert forall w :: w in rest ==> w in batch;
      ApplyUnlinks(db', rest);
      assert batch == [batch[0]] + rest;
      assert UnlinkedIds(batch) == {t} + UnlinkedIds(rest);
      assert Unlink(db'.tasks, UnlinkedIds(rest)) == Unlink(db.tasks, UnlinkedIds(batch));
    }
  }

  lemma ConcernDeleteCommit(db: Db, concernId: Id, batch: seq<Write>)
    requires |batch| >= 1 && batch[0] == Delete(ConcernDoc(concernId))
    requires forall w :: w in batch[1..] ==> w.ClearRelatedConcern?
    requires UnlinkedIds(batch[1..]) == RelatedTaskIds(db, concernId)
    ensures ApplyBatch(db, batch) == Some(ConcernDeleted(db, concernId))
  {
    var db1 := RemovePaths(db, {ConcernDoc(concernId)});
    assert db1.tasks == db.tasks;
    assert db1.concerns == ConcernDeleted(db, concernId).concerns;
    assert db1.steps == db.steps && db1.memos == db.memos;
    forall w | w in batch[1..] ensures w.ClearRelatedConcern? && w.taskId in db1.tasks {
      assert w.taskId in UnlinkedIds(batch[1..]);
    }
    ApplyUnlinks(db1, batch[1..]);
  }

  // ---------------------------------------------------------------------
  // reorderStepsInFirestore / reorderSubTasksInFirestore
  // (hooks/useFirestore.ts:424-456)
  // ---------------------------------------------------------------------

  predicate NoDuplicates(ids: seq<Id>)
  {
    forall i, j :: 0 <= i < j < |ids| ==> ids[i] != ids[j]
  }

  /** The last index at which `id` occurs in `ids`, or -1: a later update
      of the same document in one batch overrides an earlier one. */
  function LastIndexOf(ids: seq<Id>, id: Id): (r: int)
    ensures -1 <= r < |ids|
    ensures r == -1 <==> id !in ids
    ensures r >= 0 ==> ids[r] == id && forall j :: r < j < |ids| ==> ids[j] != id
  {
    if |ids| == 0 then -1
    else if ids[|ids| - 1] == id then |ids| - 1
    else LastIndexOf(ids[..|ids| - 1], id)
  }

  /** The `forEach((step, index) => batch.update(ref, { order: index }))`
      loop over the steps of `taskId`. */
  method ReorderStepsBatch(taskId: Id, steps: seq<Step>) returns (batch: seq<Write>)
    ensures |batch| == |steps|
    ensures forall i :: 0 <= i < |steps| ==> batch[i] == SetStepOrder(taskId, steps[i].id, i)
  {
    batch := [];
    var i := 0;
    while i < |steps|
      invariant 0 <= i <= |steps|
      invariant |batch| == i
      invariant forall j :: 0 <= j < i ==> batch[j] == SetStepOrder(taskId, steps[j].id, j)
    {
      batch := batch + [SetStepOrder(taskId, steps[i].id, i)];
      i := i + 1;
    }
  }

  /** The same loop over sub-tasks, addressing `tasks/{task.id}`. */
  method ReorderSubTasksBatch(tasks: seq<Task>) returns (batch: seq<Write>)
    ensures |batch| == |tasks|
    ensures forall i :: 0 <= i < |tasks| ==> batch[i] == SetTaskOrder(tasks[i].id, i)
  {
    batch := [];
    var i := 0;
    while i < |tasks|
      invariant 0 <= i <= |tasks|
      invariant |batch| == i
      invariant forall j :: 0 <= j < i ==> batch[j] == SetTaskOrder(tasks[j].id, j)
    {
      batch := batch + [SetTaskOrder(tasks[i].id, i)];
      i := i + 1;
    }
  }

  /** The store after a step reorder of `ids` under `taskId` commits. */
  function StepsReordered(db: Db, taskId: Id, ids: seq<Id>): Db
  {
    db.(steps := map k | k in db.steps ::
          if k.0 == taskId && k.1 in ids then db.steps[k].(order := LastIndexOf(ids, k.1)) else db.steps[k])
  }

  /** Each listed step gets its index as `order`, every other field and
      every other document is left as it was. */
  lemma StepsReorderedSpec(db: Db, taskId: Id, ids: seq<Id>)
    ensures var r := StepsReordered(db, taskId, ids);
      && r.tasks == db.tasks && r.concerns == db.concerns && r.memos == db.memos
      && r.steps.Keys == db.steps.Keys
      && (forall k :: k in db.steps && !(k.0 == taskId && k.1 in ids) ==> r.steps[k] == db.steps[k])
      && (NoDuplicates(ids) ==>
            forall i :: 0 <= i < |ids| && (taskId, ids[i]) in db.steps ==>
              r.steps[(taskId, ids[i])] == db.steps[(taskId, ids[i])].(order := i))
  {
    var r := StepsReordered(db, taskId, ids);
    if NoDuplicates(ids) {
      forall i | 0 <= i < |ids| && (taskId, ids[i]) in db.steps
        ensures r.steps[(taskId, ids[i])] == db.steps[(taskId, ids[i])].(order := i)
      {
        assert ids[i] in ids;
        var j := LastIndexOf(ids, ids[i]);
        assert j == i;
      }
    }
  }

  /** The store after a sub-task reorder of `ids` commits. */
  function TasksReordered(db: Db, ids: seq<Id>): Db
  {
    db.(tasks := map k | k in db.tasks ::
          if k in ids then db.tasks[k].(order := LastIndexOf(ids, k)) else db.tasks[k])
  }

  /** Each listed task gets its index as `order`; nothing else changes. */
  lemma TasksReorderedSpec(db: Db, ids: seq<Id>)
    ensures var r := TasksReordered(db, ids);
      && r.steps == db.steps && r.concerns == db.concerns && r.memos == db.memos
      && r.tasks.Keys == db.tasks.Keys
      && (forall k :: k in db.tasks && k !in ids ==> r.tasks[k] == db.tasks[k])
      && (NoDuplicates(ids) ==>
            forall i :: 0 <= i < |ids| && ids[i] in db.tasks ==>
              r.tasks[ids[i]] == db.tasks[ids[i]].(order := i))
  {
    var r := TasksReordered(db, ids);
    if NoDuplicates(ids) {
      forall i | 0 <= i < |ids| && ids[i] in db.tasks
        ensures r.tasks[ids[i]] == db.tasks[ids[i]].(order := i)
      {
        assert ids[i] in ids;
        var j := LastIndexOf(ids, ids[i]);
        assert j == i;
      }
    }
  }

  /** One more update at the next index extends the reorder by one id. */
  lemma StepsReorderedSnoc(db: Db, taskId: Id, pre: seq<Id>, id: Id)
    requires (taskId, id) in db.steps
    ensures ApplyWrite(StepsReordered(db, taskId, pre), SetStepOrder(taskId, id, |pre|))
            == Some(StepsReordered(db, taskId, pre + [id]))
  {
    var ids := pre + [id];
    var mid := StepsReordered(db, taskId, pre);
    var r := mid.(steps := mid.steps[(taskId, id) := mid.steps[(taskId, id)].(order := |pre|)]);
    var e := StepsReordered(db, taskId, ids);
    forall k | k in db.steps ensures r.steps[k] == e.steps[k] {
      if k.0 == taskId && k.1 != id {
        assert k.1 in ids <==> k.1 in pre;
        if k.1 in pre {
          assert ids[..|pre|] == pre;
          assert LastIndexOf(ids, k.1) == LastIndexOf(pre, k.1);
        }
      }
    }
    assert r.steps == e.steps;
  }

  lemma TasksReorderedSnoc(db: Db, pre: seq<Id>, id: Id)
    requires id in db.tasks
    ensures ApplyWrite(TasksReordered(db, pre), SetTaskOrder(id, |pre|))
            == Some(TasksReordered(db, pre + [id]))
  {
    var ids := pre + [id];
    var mid := TasksReordered(db, pre);
    var r := mid.(tasks := mid.tasks[id := mid.tasks[id].(order := |pre|)]);
    var e := TasksReordered(db, ids);
    forall k | k in db.tasks ensures r.tasks[k] == e.tasks[k] {
      if k != id {
        assert k in ids <==> k in pre;
        if k in pre {
          assert ids[..|pre|] == pre;
          assert LastIndexOf(ids, k) == LastIndexOf(pre, k);
        }
      }
    }
    assert r.tasks == e.tasks;
  }

  /** The step reorder batch commits exactly when every listed step
      document exists, and then yields `StepsReordered`. */
  lemma {:induction false} ReorderStepsCommit(db: Db, taskId: Id, ids: seq<Id>, batch: seq<Write>)
    requires |batch| == |ids|
    requires forall i :: 0 <= i < |ids| ==> batch[i] == SetStepOrder(taskId, ids[i], i)
    ensures ApplyBatch(db, batch) ==
            if forall i :: 0 <= i < |ids| ==> (taskId, ids[i]) in db.steps
            then Some(StepsReordered(db, taskId, ids)) else None
    decreases |ids|
  {
    if |ids| == 0 {
      assert StepsReordered(db, taskId, ids).steps == db.steps;
    } else {
      var n := |ids| - 1;
      var pre := ids[..n];
      ReorderStepsCommit(db, taskId, pre, batch[..n]);
      assert batch == batch[..n] + [batch[n]];
      ApplyBatchSnoc(db, batch[..n], batch[n]);
      assert ids == pre + [ids[n]];
      if forall i :: 0 <= i < n ==> (taskId, pre[i]) in db.steps {
        if (taskId, ids[n]) in db.steps {
          StepsReorderedSnoc(db, taskId, pre, ids[n]);
        }
      } else {
        var i :| 0 <= i < n && (taskId, pre[i]) !in db.steps;
        assert (taskId, ids[i]) !in db.steps;
      }
    }
  }

  /** The sub-task reorder batch commits exactly when every listed task
      document exists, and then yields `TasksReordered`. */
  lemma {:induction false} ReorderSubTasksCommit(db: Db, ids: seq<Id>, batch: seq<Write>)
    requires |batch| == |ids|
    requires forall i :: 0 <= i < |ids| ==> batch[i] == SetTaskOrder(ids[i], i)
    ensures ApplyBatch(db, batch) ==
            if forall i :: 0 <= i < |ids| ==> ids[i] in db.tasks
            then Some(TasksReordered(db, ids)) else None
    decreases |ids|
  {
    if |ids| == 0 {
      assert TasksReordered(db, ids).tasks == db.tasks;
    } else {
      var n := |ids| - 1;
      var pre := ids[..n];
      ReorderSubTasksCommit(db, pre, batch[..n]);
      assert batch == batch[..n] + [batch[n]];
      ApplyBatchSnoc(db, batch[..n], batch[n]);
      assert ids == pre + [ids[n]];
      if forall i :: 0 <= i < n ==> pre[i] in db.tasks {
        if ids[n] in db.tasks {
          TasksReorderedSnoc(db, pre, ids[n]);
        }
      } else {
        var i :| 0 <= i < n && pre[i] !in db.tasks;
        assert ids[i] !in db.tasks;
      }
    }
  }

  // ---------------------------------------------------------------------
  // updateTaskInFirestore (hooks/useFirestore.ts:194-206)
  // ---------------------------------------------------------------------

  /** One `updateTaskInFirestore(taskId, record)` call: `id` is stripped
      from the record before the merge, so the stored document keeps its
      own id whatever the record says; a missing document rejects the call. */
  function UpdateTaskDoc(db: Db, taskId: Id, record: Task): (r: Option<Db>)
    ensures r.Some? <==> taskId in db.tasks
    ensures r.Some? ==> r.value.tasks.Keys == db.tasks.Keys
    ensures r.Some? ==> r.value.tasks[taskId] == record.(id := taskId)
    ensures WellKeyed(db) && r.Some? ==> WellKeyed(r.value)
  {
    if taskId in db.tasks then Some(db.(tasks := db.tasks[taskId := record.(id := taskId)])) else None
  }

  /** A full-record update of one task, as the aggregator issues them. */
  datatype TaskUpdate = TaskUpdate(taskId: Id, record: Task)

  /** Fire-and-forget updates issued one after another: each is applied in
      issue order, and one that is rejected does not stop the others. */
  function ApplyTaskUpdates(db: Db, us: seq<TaskUpdate>): (r: Db)
    ensures r.tasks.Keys == db.tasks.Keys
    ensures r.concerns == db.concerns && r.steps == db.steps && r.memos == db.memos
    decreases |us|
  {
    if us == [] then db
    else
      var next := match UpdateTaskDoc(db, us[0].taskId, us[0].record)
                  case Some(d) => d
                  case None => db;
      ApplyTaskUpdates(next, us[1..])
  }

  /** The last update in `us` aimed at `taskId`, if any. */
  function LastUpdateOf(us: seq<TaskUpdate>, taskId: Id): Option<Task>
  {
    if us == [] then None
    else if us[|us| - 1].taskId == taskId then Some(us[|us| - 1].record)
    else LastUpdateOf(us[..|us| - 1], taskId)
  }

  lemma {:induction false} ApplyTaskUpdatesSnoc(db: Db, us: seq<TaskUpdate>, u: TaskUpdate)
    ensures ApplyTaskUpdates(db, us + [u]) ==
            var d := ApplyTaskUpdates(db, us);
            match UpdateTaskDoc(d, u.taskId, u.record) case Some(d') => d' case None => d
    decreases |us|
  {
    if us != [] {
      assert (us + [u])[1..] == us[1..] + [u];
      var next := match UpdateTaskDoc(db, us[0].taskId, us[0].record)
                  case Some(d) => d
                  case None => db;
      ApplyTaskUpdatesSnoc(next, us[1..], u);
    } else {
      assert [] + [u] == [u];
    }
  }

  /** Last write wins: after the updates, each existing task holds the
      last record written to it (under its own id), or is untouched. */
  lemma {:induction false} ApplyTaskUpdatesAt(db: Db, us: seq<TaskUpdate>, k: Id)
    requires k in db.tasks
    ensures ApplyTaskUpdates(db, us).tasks[k] ==
            match LastUpdateOf(us, k) case Some(t) => t.(id := k) case None => db.tasks[k]
    decreases |us|
  {
    if us != [] {
      var n := |us| - 1;
      assert us == us[..n] + [us[n]];
      ApplyTaskUpdatesSnoc(db, us[..n], us[n]);
      ApplyTaskUpdatesAt(db, us[..n], k);
    }
  }

  /** Issuing the same full-record updates twice leaves the store as
      issuing them once: the recomputation is idempotent. */
  lemma ApplyTaskUpdatesIdempotent(db: Db, us: seq<TaskUpdate>)
    ensures ApplyTaskUpdates(ApplyTaskUpdates(db, us), us) == ApplyTaskUpdates(db, us)
  {
    var once := ApplyTaskUpdates(db, us);
    var twice := ApplyTaskUpdates(once, us);
    forall k | k in db.tasks ensures twice.tasks[k] == once.tasks[k] {
      ApplyTaskUpdatesAt(db, us, k);
      ApplyTaskUpdatesAt(once, us, k);
    }
    assert twice.tasks == once.tasks;
  }

  // ---------------------------------------------------------------------
  // deriveTaskFromConcernInFirestore (hooks/useFirestore.ts:462-515)
  // addAnalysisLogToFirestore (hooks/useFirestore.ts:517-542)
  // ---------------------------------------------------------------------

  /** The title prefix of a task derived from a concern. */
  const DerivedTitlePrefix: string := "[고민 해결] "

  /** The text of the creation log entry of a derived task. */
  function DerivedNote(concernTitle: string): string
  {
    "'" + concernTitle + "' 고민에서 파생된 과제입니다."
  }

  /** The task deriveTaskFromConcernInFirestore adds; `newId` is the id
      the store generates. */
  function DerivedTask(concern: Concern, newId: Id, now: string): (t: Task)
    ensures t.id == newId && t.relatedConcernId == Some(concern.id)
    ensures t.parentTaskId == None && t.category == ToDo && t.order == 0
    ensures t.status == TaskStatus.Pending && t.progressPercent == 0
    ensures t.title == DerivedTitlePrefix + concern.title && t.description == concern.resolutionAction
    ensures t.progressLog == [LogEntry(now, DerivedNote(concern.title))]
  {
    Task(newId, None, Some(concern.id), DerivedTitlePrefix + concern.title, concern.resolutionAction,
         ToDo, TaskStatus.Pending, 0, [LogEntry(now, DerivedNote(concern.title))], 0)
  }

  /** `[...(concern.analysisLog || []), entry]`. */
  function AppendLog(log: Option<seq<LogEntry>>, entry: LogEntry): (r: seq<LogEntry>)
    ensures |r| >= 1 && r[|r| - 1] == entry
    ensures r[..|r| - 1] == (if log.Some? then log.value else [])
  {
    (if log.Some? then log.value else []) + [entry]
  }

  /** The store, updated in place by the source's persistence calls. */
  class Store {
    var db: Db

    constructor (initial: Db)
      ensures db == initial
    {
      db := initial;
    }

    /** `batch.commit()`: all of the batch or nothing. */
    method Commit(batch: seq<Write>) returns (ok: bool)
      modifies this
      ensures ok <==> ApplyBatch(old(db), batch).Some?
      ensures ok ==> Some(db) == ApplyBatch(old(db), batch)
      ensures !ok ==> db == old(db)
    {
      var r := ApplyBatch(db, batch);
      ok := r.Some?;
      if ok {
        db := r.value;
      }
    }

    /** deleteTaskInFirestore: the task, its direct children, the steps of
        all of them and the memos of those steps go in one commit. */
    method DeleteTask(taskId: Id)
      modifies this
      ensures db == TaskDeleted(old(db), taskId)
    {
      var batch := DeleteTaskBatch(db, taskId);
      CascadeCommit(db, taskId, batch);
      var ok := Commit(batch);
    }

    /** deleteConcernInFirestore: the concern goes, and the tasks that
        referenced it lose the reference. */
    method DeleteConcern(concernId: Id)
      modifies this
      ensures db == ConcernDeleted(old(db), concernId)
    {
      var batch := DeleteConcernBatch(db, concernId);
      ConcernDeleteCommit(db, concernId, batch);
      var ok := Commit(batch);
    }

    /** deleteStepInFirestore: the step and its memos. */
    method DeleteStep(taskId: Id, stepId: Id)
      modifies this
      ensures db == StepDeleted(old(db), taskId, stepId)
    {
      var batch := DeleteStepBatch(db, taskId, stepId);
      StepDeleteCommit(db, taskId, stepId, batch);
      var ok := Commit(batch);
    }

    /** reorderStepsInFirestore: `order := index` for each listed step, or
        no change at all when one of them is missing. */
    method ReorderSteps(taskId: Id, steps: seq<Step>) returns (ok: bool)
      modifies this
      ensures ok <==> forall i :: 0 <= i < |steps| ==> (taskId, steps[i].id) in old(db).steps
      ensures ok ==> db == StepsReordered(old(db), taskId, StepIdsOf(steps))
      ensures !ok ==> db == old(db)
    {
      var batch := ReorderStepsBatch(taskId, steps);
      ReorderStepsCommit(db, taskId, StepIdsOf(steps), batch);
      ok := Commit(batch);
    }

    /** reorderSubTasksInFirestore: `order := index` for each listed task. */
    method ReorderSubTasks(tasks: seq<Task>) returns (ok: bool)
      modifies this
      ensures ok <==> forall i :: 0 <= i < |tasks| ==> tasks[i].id in old(db).tasks
      ensures ok ==> db == TasksReordered(old(db), TaskIdsOf(tasks))
      ensures !ok ==> db == old(db)
    {
      var batch := ReorderSubTasksBatch(tasks);
      ReorderSubTasksCommit(db, TaskIdsOf(tasks), batch);
      ok := Commit(batch);
    }

    /** updateTaskInFirestore. */
    method UpdateTask(taskId: Id, record: Task) returns (ok: bool)
      modifies this
      ensures ok <==> taskId in old(db).tasks
      ensures ok ==> db == UpdateTaskDoc(old(db), taskId, record).value
      ensures !ok ==> db == old(db)
    {
      var r := UpdateTaskDoc(db, taskId, record);
      ok := r.Some?;
      if ok {
        db := r.value;
      }
    }

    /** deriveTaskFromConcernInFirestore: the task is added first, on its
        own; the concern's status change is a separate batch, so when the
        concern is missing the call fails but the task stays. */
    method DeriveTaskFromConcern(concern: Concern, newId: Id, now: string)
      returns (r: Option<Task>)
      requires newId !in db.tasks
      modifies this
      ensures db.tasks == old(db).tasks[newId := DerivedTask(concern, newId, now)]
      ensures db.steps == old(db).steps && db.memos == old(db).memos
      ensures r.Some? <==> concern.id in old(db).concerns
      ensures r.Some? ==> r.value == DerivedTask(concern, newId, now)
      ensures r.Some? ==>
        db.concerns == old(db).concerns[concern.id := old(db).concerns[concern.id].(status := SolutionDerived)]
      ensures r.None? ==> db.concerns == old(db).concerns
    {
      var task := DerivedTask(concern, newId, now);
      db := db.(tasks := db.tasks[newId := task]);
      var ok := Commit([SetConcernStatus(concern.id, SolutionDerived)]);
      r := if ok then Some(task) else None;
    }

    /** addAnalysisLogToFirestore: a missing concern fails before any
        write; otherwise exactly one entry is appended. */
    method AddAnalysisLog(concernId: Id, entry: string, now: string) returns (ok: bool)
      modifies this
      ensures ok <==> concernId in old(db).concerns
      ensures !ok ==> db == old(db)
      ensures ok ==> db == old(db).(concerns := old(db).concerns[concernId :=
        old(db).concerns[concernId].(analysisLog := Some(AppendLog(old(db).concerns[concernId].analysisLog, LogEntry(now, entry))))])
    {
      ok := concernId in db.concerns;
      if ok {
        var c := db.concerns[concernId];
        db := db.(concerns := db.concerns[concernId := c.(analysisLog := Some(AppendLog(c.analysisLog, LogEntry(now, entry))))]);
      }
    }
  }

  function StepIdsOf(steps: seq<Step>): (ids: seq<Id>)
    ensures |ids| == |steps| && forall i :: 0 <= i < |steps| ==> ids[i] == steps[i].id
  {
    seq(|steps|, i requires 0 <= i < |steps| => steps[i].id)
  }

  function TaskIdsOf(tasks: seq<Task>): (ids: seq<Id>)
    ensures |ids| == |tasks| && forall i :: 0 <= i < |tasks| ==> ids[i] == tasks[i].id
  {
    seq(|tasks|, i requires 0 <= i < |tasks| => tasks[i].id)
  }
}
