// The board of App.tsx: the three columns of top-level tasks, the
// refresh of the open item when the lists change, and the two handlers
// App passes to the detail modal.
module App {
  import opened Types
  import opened Ordering
  import opened Firestore
  import opened Progress
  import opened UseData

  // ---------------------------------------------------------------------
  // Columns (App.tsx:30-35)
  // ---------------------------------------------------------------------

  /** The key of `(a, b) => a.order - b.order`. */
  function OrderKey(t: Task): SortKey
  {
    SortKey(0, t.order)
  }

  /** `tasks.filter(t => t.category === category && !t.parentTaskId)` */
  function TopLevelIn(tasks: seq<Task>, category: TaskCategory): (r: seq<Task>)
    ensures forall t :: t in r <==> t in tasks && t.category == category && !HasParent(t)
  {
    if |tasks| == 0 then []
    else (if tasks[0].category == category && !HasParent(tasks[0]) then [tasks[0]] else [])
         + TopLevelIn(tasks[1..], category)
  }

  /** The filter keeps every copy of a top-level task of the category and
      no copy of any other task. */
  lemma {:induction false} TopLevelCount(tasks: seq<Task>, category: TaskCategory, t: Task)
    ensures multiset(TopLevelIn(tasks, category))[t] ==
      (if t.category == category && !HasParent(t) then multiset(tasks)[t] else 0)
  {
    if |tasks| > 0 {
      TopLevelCount(tasks[1..], category, t);
      assert tasks == [tasks[0]] + tasks[1..];
    }
  }

  /** One column of the board: `projects`, `nowTasks` or `todoTasks`. */
  function Column(tasks: seq<Task>, category: TaskCategory): (r: seq<Task>)
    ensures multiset(r) == multiset(TopLevelIn(tasks, category))
  {
    SortBy(TopLevelIn(tasks, category), OrderKey)
  }

  /** A column holds exactly the top-level tasks of its category, each as
      often as in the list, in ascending `order`. */
  lemma ColumnSpec(tasks: seq<Task>, category: TaskCategory)
    ensures forall t :: t in Column(tasks, category) <==> t in tasks && t.category == category && !HasParent(t)
    ensures forall t ::
              multiset(Column(tasks, category))[t] ==
              (if t.category == category && !HasParent(t) then multiset(tasks)[t] else 0)
    ensures forall i, j :: 0 <= i < j < |Column(tasks, category)| ==>
      Column(tasks, category)[i].order <= Column(tasks, category)[j].order
  {
    var c := Column(tasks, category);
    forall t: Task
      ensures multiset(c)[t] == (if t.category == category && !HasParent(t) then multiset(tasks)[t] else 0)
    {
      TopLevelCount(tasks, category, t);
    }
    forall t ensures t in c <==> t in TopLevelIn(tasks, category) {
      assert t in c <==> t in multiset(c);
    }
    forall i, j | 0 <= i < j < |c| ensures c[i].order <= c[j].order {
      assert KeyLe(OrderKey(c[i]), OrderKey(c[j]));
    }
  }

  /** No task shows in two columns, and no sub-task shows in any. */
  lemma ColumnsDisjoint(tasks: seq<Task>, t: Task, a: TaskCategory, b: TaskCategory)
    requires t in Column(tasks, a) && t in Column(tasks, b)
    ensures a == b && !HasParent(t)
  {
    ColumnSpec(tasks, a);
    ColumnSpec(tasks, b);
  }

  /** Every top-level task shows in the column of its category. */
  lemma TopLevelShown(tasks: seq<Task>, t: Task)
    requires t in tasks && !HasParent(t)
    ensures t in Column(tasks, t.category)
  {
    ColumnSpec(tasks, t.category);
  }

  /** A task derived from a concern lands in the To-Do column. */
  lemma DerivedTaskInToDo(tasks: seq<Task>, concern: Concern, newId: Id, now: string)
    ensures DerivedTask(concern, newId, now) in Column(tasks + [DerivedTask(concern, newId, now)], ToDo)
  {
    var d := DerivedTask(concern, newId, now);
    assert d in tasks + [d];
    TopLevelShown(tasks + [d], d);
  }

  // ---------------------------------------------------------------------
  // Selection refresh (App.tsx:17-28)
  // ---------------------------------------------------------------------

  /** The open item after the lists change: its current version, looked
      up by id in the list of its own kind, or nothing once it is gone. */
  function RefreshSelection(selected: Option<Item>, tasks: seq<Task>, concerns: seq<Concern>): (r: Option<Item>)
    ensures selected.None? ==> r.None?
    ensures r.Some? ==> selected.Some? && r.value.TaskItem? == selected.value.TaskItem?
  {
    match selected
    case None => None
    case Some(TaskItem(t)) =>
      (match FindTask(tasks, t.id) case Some(u) => Some(TaskItem(u)) case None => None)
    case Some(ConcernItem(c)) =>
      (match FindConcern(concerns, c.id) case Some(u) => Some(ConcernItem(u)) case None => None)
  }

  /** The refresh keeps the item's kind and id, takes the version in the
      list, and drops the item exactly when no element of its kind has
      its id any more. */
  lemma RefreshSelectionSpec(item: Item, tasks: seq<Task>, concerns: seq<Concern>)
    ensures var r := RefreshSelection(Some(item), tasks, concerns);
      && (item.TaskItem? ==>
            (r.None? <==> forall t :: t in tasks ==> t.id != item.task.id)
            && (r.Some? ==> r.value.task in tasks && r.value.task.id == item.task.id))
      && (item.ConcernItem? ==>
            (r.None? <==> forall c :: c in concerns ==> c.id != item.concern.id)
            && (r.Some? ==> r.value.concern in concerns && r.value.concern.id == item.concern.id))
  {
  }

  /** Refreshing again without a change to the lists changes nothing. */
  lemma RefreshSelectionIdempotent(selected: Option<Item>, tasks: seq<Task>, concerns: seq<Concern>)
    ensures var r := RefreshSelection(selected, tasks, concerns);
      RefreshSelection(r, tasks, concerns) == r
  {
    var r := RefreshSelection(selected, tasks, concerns);
    match r
    case None =>
    case Some(TaskItem(u)) =>
      assert FindTask(tasks, u.id) == Some(u);
    case Some(ConcernItem(u)) =>
      assert FindConcern(concerns, u.id) == Some(u);
  }

  // ---------------------------------------------------------------------
  // handleDeleteItem (App.tsx:37-44)
  // ---------------------------------------------------------------------

  /** Deletes the item through the store by its kind and closes the modal. */
  method HandleDeleteItem(store: Store, item: Item) returns (selected: Option<Item>)
    modifies store
    ensures selected.None?
    ensures item.TaskItem? ==> store.db == TaskDeleted(old(store.db), item.task.id)
    ensures item.ConcernItem? ==> store.db == ConcernDeleted(old(store.db), item.concern.id)
  {
    match item {
      case TaskItem(t) =>
        store.DeleteTask(t.id);
      case ConcernItem(c) =>
        store.DeleteConcern(c.id);
    }
    selected := None;
  }

  /** The deleted task is gone from the store, and so are its children. */
  lemma DeletedTaskGone(db: Db, taskId: Id)
    ensures taskId !in TaskDeleted(db, taskId).tasks
    ensures forall k :: k in db.tasks && db.tasks[k].parentTaskId == Some(taskId) ==> k !in TaskDeleted(db, taskId).tasks
  {
    assert taskId in DoomedTasks(db, taskId);
  }

  // ---------------------------------------------------------------------
  // handleAddSubTask (App.tsx:46-54)
  // ---------------------------------------------------------------------

  /** The draft App builds for a new sub-task: no description, the
      parent's category (To-Do when the parent is not found). */
  function SubTaskDraft(tasks: seq<Task>, parentTaskId: Id, title: string): (d: TaskDraft)
    ensures d.title == title && d.description == "" && d.parentTaskId == Some(parentTaskId)
    ensures d.category == match FindTask(tasks, parentTaskId)
                          case Some(p) => p.category
                          case None => ToDo
  {
    var category := match FindTask(tasks, parentTaskId)
                    case Some(p) => p.category
                    case None => ToDo;
    TaskDraft(title, "", category, Some(parentTaskId))
  }

  /** The siblings of a new sub-task are the parent's children. */
  lemma {:induction false} SiblingsAreChildren(tasks: seq<Task>, parentTaskId: Id)
    ensures SiblingsOf(tasks, Some(parentTaskId)) == ChildTasks(tasks, parentTaskId)
  {
    if tasks != [] {
      SiblingsAreChildren(tasks[1..], parentTaskId);
    }
  }

  /** The new sub-task joins the parent's children, with the number of
      children before the add as its `order`, open and at 0%; with a
      non-empty parent id it shows in no column of the board. */
  lemma SubTaskAdded(tasks: seq<Task>, parentTaskId: Id, title: string, newId: Id, now: string)
    ensures var t := NewTask(tasks, SubTaskDraft(tasks, parentTaskId, title), newId, now);
      && t in ChildTasks(tasks + [t], parentTaskId)
      && t.order == |ChildTasks(tasks, parentTaskId)|
      && t.status == TaskStatus.Pending && t.progressPercent == 0
    ensures var t := NewTask(tasks, SubTaskDraft(tasks, parentTaskId, title), newId, now);
      parentTaskId != "" ==> forall c :: t !in Column(tasks + [t], c)
  {
    var t := NewTask(tasks, SubTaskDraft(tasks, parentTaskId, title), newId, now);
    SiblingsAreChildren(tasks, parentTaskId);
    assert t in tasks + [t];
    forall c ensures parentTaskId != "" ==> t !in Column(tasks + [t], c) {
      ColumnSpec(tasks + [t], c);
    }
  }
}
