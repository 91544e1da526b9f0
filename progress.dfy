// The progress aggregator of hooks/useData.ts (updateTaskProgress): a pure
// function of a snapshot of tasks and steps that yields the task updates
// the source issues, in issue order.
module Progress {
  import opened Types
  import opened Firestore

  /** `Math.round(num / den)` for `den > 0`: the nearest integer, halves
      rounded up. Integer division here floors, so this is exact. */
  function RoundDiv(num: int, den: int): (r: int)
    requires den > 0
    ensures 2 * den * r <= 2 * num + den < 2 * den * (r + 1)
  {
    (2 * num + den) / (2 * den)
  }

  /** `steps.filter(s => s.parentTaskId === taskId)` */
  function StepsOf(steps: seq<Step>, taskId: Id): (r: seq<Step>)
    ensures forall s :: s in r <==> s in steps && s.parentTaskId == taskId
  {
    if |steps| == 0 then []
    else (if steps[0].parentTaskId == taskId then [steps[0]] else []) + StepsOf(steps[1..], taskId)
  }

  /** `tasks.filter(t => t.parentTaskId === parentId)` */
  function ChildTasks(tasks: seq<Task>, parentId: Id): (r: seq<Task>)
    ensures forall t :: t in r <==> t in tasks && t.parentTaskId == Some(parentId)
  {
    if |tasks| == 0 then []
    else (if tasks[0].parentTaskId == Some(parentId) then [tasks[0]] else []) + ChildTasks(tasks[1..], parentId)
  }

  /** Number of completed steps. */
  function CountCompleted(steps: seq<Step>): (k: nat)
    ensures k <= |steps|
    ensures k == 0 <==> forall s :: s in steps ==> s.status != StepStatus.Completed
    ensures k == |steps| <==> forall s :: s in steps ==> s.status == StepStatus.Completed
  {
    if |steps| == 0 then 0
    else (if steps[0].status == StepStatus.Completed then 1 else 0) + CountCompleted(steps[1..])
  }

  /** `tasks.reduce((sum, t) => sum + t.progressPercent, 0)` */
  function SumProgress(tasks: seq<Task>): int
  {
    if |tasks| == 0 then 0 else tasks[0].progressPercent + SumProgress(tasks[1..])
  }

  predicate PercentInRange(tasks: seq<Task>)
  {
    forall t :: t in tasks ==> 0 <= t.progressPercent <= 100
  }

  lemma {:induction false} SumProgressBounds(tasks: seq<Task>)
    requires PercentInRange(tasks)
    ensures 0 <= SumProgress(tasks) <= 100 * |tasks|
  {
    if |tasks| > 0 {
      assert PercentInRange(tasks[1..]) by {
        forall t | t in tasks[1..] ensures 0 <= t.progressPercent <= 100 { assert t in tasks; }
      }
      SumProgressBounds(tasks[1..]);
      assert tasks[0] in tasks;
    }
  }

  lemma MulCancelLess(a: int, x: int, y: int)
    requires a > 0 && a * x < a * y
    ensures x < y
  {
  }

  /** `Math.round((completed / total) * 100)` */
  function StepPercent(completed: nat, total: nat): (p: int)
    requires 0 < total && completed <= total
    ensures 0 <= p <= 100
    ensures 2 * total * p <= 200 * completed + total < 2 * total * (p + 1)
    ensures completed == 0 ==> p == 0
    ensures completed == total ==> p == 100
  {
    var p := RoundDiv(100 * completed, total);
    PercentBounds(completed, total, p);
    p
  }

  lemma PercentBounds(completed: nat, total: nat, p: int)
    requires 0 < total && completed <= total
    requires 2 * total * p <= 200 * completed + total < 2 * total * (p + 1)
    ensures 0 <= p <= 100
    ensures completed == 0 ==> p == 0
    ensures completed == total ==> p == 100
  {
    assert 2 * total * p < 2 * total * 101 by {
      assert 200 * completed <= 200 * total;
    }
    MulCancelLess(2 * total, p, 101);
    assert 2 * total * (-1) < 2 * total * (p + 1);
    MulCancelLess(2 * total, -1, p + 1);
    if completed == 0 {
      assert 2 * total * p < 2 * total * 1;
      MulCancelLess(2 * total, p, 1);
    }
    if completed == total {
      assert 2 * total * 100 < 2 * total * (p + 1);
      MulCancelLess(2 * total, 100, p + 1);
    }
  }

  /** `Math.round(totalProgress / tasks.length)`: the rounded mean. */
  function MeanPercent(tasks: seq<Task>): (p: int)
    requires |tasks| > 0
    ensures 2 * |tasks| * p <= 2 * SumProgress(tasks) + |tasks| < 2 * |tasks| * (p + 1)
  {
    RoundDiv(SumProgress(tasks), |tasks|)
  }

  /** With every child within 0..100, so is the mean. */
  lemma MeanPercentBounds(tasks: seq<Task>)
    requires |tasks| > 0 && PercentInRange(tasks)
    ensures 0 <= MeanPercent(tasks) <= 100
  {
    var n := |tasks|;
    var p := MeanPercent(tasks);
    SumProgressBounds(tasks);
    assert 2 * n * p < 2 * n * 101 by {
      assert 2 * n * 101 == 202 * n;
    }
    MulCancelLess(2 * n, p, 101);
    assert 2 * n * 0 < 2 * n * (p + 1);
    MulCancelLess(2 * n, 0, p + 1);
  }

  /** The pair (`newProgress`, `newStatus`) the source computes. */
  datatype Outcome = Outcome(progress: int, status: TaskStatus)

  /** Sub-task branch: `newProgress` starts at 0 and `newStatus` at the
      current status; steps, when there are any, decide both. */
  function SubTaskOutcome(current: TaskStatus, childSteps: seq<Step>): (r: Outcome)
    ensures 0 <= r.progress <= 100
    ensures r.status == TaskStatus.Completed ==> current == TaskStatus.Completed
    ensures r.status == InProgress ==> current == InProgress || 0 < CountCompleted(childSteps) < |childSteps|
  {
    if |childSteps| == 0 then Outcome(0, current)
    else
      var k := CountCompleted(childSteps);
      var p := StepPercent(k, |childSteps|);
      if k > 0 && p < 100 then Outcome(p, InProgress)
      else if k == 0 then Outcome(p, TaskStatus.Pending)
      else Outcome(p, current)
  }

  /** Project branch: the rounded mean of the children, 0 without
      children; the status is never touched. */
  function ProjectOutcome(current: TaskStatus, children: seq<Task>): (r: Outcome)
    ensures r.status == current
    ensures |children| == 0 ==> r.progress == 0
    ensures |children| > 0 ==>
      2 * |children| * r.progress <= 2 * SumProgress(children) + |children| < 2 * |children| * (r.progress + 1)
    ensures PercentInRange(children) ==> 0 <= r.progress <= 100
  {
    if |children| == 0 then Outcome(0, current)
    else
      var p := MeanPercent(children);
      assert PercentInRange(children) ==> 0 <= p <= 100 by {
        if PercentInRange(children) {
          MeanPercentBounds(children);
        }
      }
      Outcome(p, current)
  }

  /** The Sub-task rule: progress is the rounded share of completed steps
      (0 without steps), the status goes to Pending with none completed and
      to InProgress while the rounded share is below 100, and is otherwise
      kept; it is never raised to Completed. */
  lemma SubTaskOutcomeSpec(current: TaskStatus, childSteps: seq<Step>)
    ensures 0 <= SubTaskOutcome(current, childSteps).progress <= 100
    ensures |childSteps| == 0 ==> SubTaskOutcome(current, childSteps) == Outcome(0, current)
    ensures |childSteps| > 0 ==>
      SubTaskOutcome(current, childSteps).progress == StepPercent(CountCompleted(childSteps), |childSteps|)
    ensures |childSteps| > 0 && CountCompleted(childSteps) == 0 ==>
      SubTaskOutcome(current, childSteps).status == TaskStatus.Pending
    ensures |childSteps| > 0 && CountCompleted(childSteps) > 0 ==>
      var o := SubTaskOutcome(current, childSteps);
      o.status == if o.progress < 100 then InProgress else current
    ensures SubTaskOutcome(current, childSteps).status == TaskStatus.Completed ==> current == TaskStatus.Completed
  {
    var n := |childSteps|;
    if n > 0 {
      var k := CountCompleted(childSteps);
      var p := StepPercent(k, n);
      SubTaskOutcomeCases(current, childSteps, k, p);
    }
  }

  /** The sub-task branch with steps, by cases on the count and percentage. */
  lemma SubTaskOutcomeCases(current: TaskStatus, childSteps: seq<Step>, k: nat, p: int)
    requires |childSteps| > 0 && k == CountCompleted(childSteps) && p == StepPercent(k, |childSteps|)
    ensures SubTaskOutcome(current, childSteps) ==
      if k > 0 && p < 100 then Outcome(p, InProgress)
      else if k == 0 then Outcome(p, TaskStatus.Pending)
      else Outcome(p, current)
  {
  }

  /** Rounding can reach 100 before every step is done; the status is then
      left as it was, so a Pending sub-task with 199 of 200 steps done
      stays Pending. */
  lemma RoundedFullKeepsStatus(childSteps: seq<Step>)
    requires |childSteps| == 200 && CountCompleted(childSteps) == 199
    ensures SubTaskOutcome(TaskStatus.Pending, childSteps) == Outcome(100, TaskStatus.Pending)
  {
    assert StepPercent(199, 200) == 100;
  }

  /** Un-completing a step of a Completed sub-task demotes it. */
  lemma UncheckDemotes(childSteps: seq<Step>)
    requires |childSteps| > 0
    requires exists s :: s in childSteps && s.status != StepStatus.Completed
    requires 200 * (|childSteps| - CountCompleted(childSteps)) > |childSteps|
    ensures SubTaskOutcome(TaskStatus.Completed, childSteps).status != TaskStatus.Completed
  {
    var n := |childSteps|;
    var k := CountCompleted(childSteps);
    var p := StepPercent(k, n);
    assert 2 * n * p < 2 * n * 100 by {
      assert 2 * n * p <= 200 * k + n;
      assert 200 * k + n < 200 * n;
    }
    MulCancelLess(2 * n, p, 100);
  }

  /** The updates updateTaskProgress(taskId) issues against the snapshot:
      the task itself with recomputed progress and status, then, for a
      sub-task whose parent is in the snapshot, the parent re-averaged from
      the snapshot values of its children. */
  function RecomputeUpdates(tasks: seq<Task>, steps: seq<Step>, taskId: Id): (r: seq<TaskUpdate>)
    ensures r == [] <==> FindTask(tasks, taskId).None?
    ensures |r| <= 2
    ensures r != [] ==> r[0].taskId == taskId
    ensures |r| == 2 ==> var t := FindTask(tasks, taskId).value;
      HasParent(t) && r[1].taskId == t.parentTaskId.value
  {
    match FindTask(tasks, taskId)
    case None => []
    case Some(t) =>
      var o := OutcomeOf(tasks, steps, t);
      [TaskUpdate(taskId, t.(progressPercent := o.progress, status := o.status))] + ParentCascade(tasks, t)
  }

  /** The branch on the parent link: steps decide a sub-task, children a
      project. */
  function OutcomeOf(tasks: seq<Task>, steps: seq<Step>, t: Task): Outcome
  {
    if HasParent(t) then SubTaskOutcome(t.status, StepsOf(steps, t.id))
    else ProjectOutcome(t.status, ChildTasks(tasks, t.id))
  }

  /** The cascade to the parent (the sibling list holds `t` itself). */
  function ParentCascade(tasks: seq<Task>, t: Task): (r: seq<TaskUpdate>)
    requires t in tasks
    ensures |r| <= 1
    ensures r != [] <==> HasParent(t) && FindTask(tasks, t.parentTaskId.value).Some?
    ensures r != [] ==> r[0].taskId == t.parentTaskId.value
  {
    if !HasParent(t) then []
    else match FindTask(tasks, t.parentTaskId.value)
      case None => []
      case Some(parent) =>
        var siblings := ChildTasks(tasks, parent.id);
        assert t in siblings;
        [TaskUpdate(parent.id, parent.(progressPercent := MeanPercent(siblings)))]
  }

  /** What one recompute writes: nothing for an id missing from the
      snapshot; otherwise the task record with only progress and status
      replaced (by the sub-task rule, or for a project by the rounded mean
      of its children, 0 without children), then at most one parent record
      with only progress replaced, averaged over a non-empty sibling list. */
  lemma RecomputeShape(tasks: seq<Task>, steps: seq<Step>, taskId: Id)
    ensures var us := RecomputeUpdates(tasks, steps, taskId);
      match FindTask(tasks, taskId)
      case None => us == []
      case Some(t) =>
        && 1 <= |us| <= 2
        && us[0].taskId == taskId
        && us[0].record.(progressPercent := t.progressPercent, status := t.status) == t
        && (HasParent(t) ==> 0 <= us[0].record.progressPercent <= 100)
        && (HasParent(t) ==> Outcome(us[0].record.progressPercent, us[0].record.status)
                             == SubTaskOutcome(t.status, StepsOf(steps, taskId)))
        && (!HasParent(t) ==> us[0].record.status == t.status)
        && (!HasParent(t) && |ChildTasks(tasks, taskId)| == 0 ==> us[0].record.progressPercent == 0)
        && (!HasParent(t) && |ChildTasks(tasks, taskId)| > 0 ==>
              us[0].record.progressPercent == MeanPercent(ChildTasks(tasks, taskId)))
        && (|us| == 2 <==> HasParent(t) && FindTask(tasks, t.parentTaskId.value).Some?)
        && (|us| == 2 ==>
              var parent := FindTask(tasks, t.parentTaskId.value).value;
              var siblings := ChildTasks(tasks, parent.id);
              && us[1].taskId == parent.id == t.parentTaskId.value
              && t in siblings
              && us[1].record == parent.(progressPercent := MeanPercent(siblings)))
  {
    match FindTask(tasks, taskId)
    case None =>
    case Some(t) =>
      if HasParent(t) {
        SubTaskOutcomeSpec(t.status, StepsOf(steps, taskId));
      }
  }

  /** The worked scenario: a project whose two sub-tasks stand at 100% and
      0% in the snapshot is re-averaged to 50%. */
  lemma ScenarioProjectMean(p: Task, s1: Task, s2: Task, steps: seq<Step>)
    requires p.id == "P" && p.parentTaskId == None
    requires s1.id == "S1" && s1.parentTaskId == Some("P") && s1.progressPercent == 100
    requires s2.id == "S2" && s2.parentTaskId == Some("P") && s2.progressPercent == 0
    ensures RecomputeUpdates([p, s1, s2], steps, "P")[0].record.progressPercent == 50
  {
    var tasks := [p, s1, s2];
    assert ChildTasks(tasks, "P") == [s1, s2] by {
      assert ChildTasks(tasks[2..], "P") == [s2];
      assert ChildTasks(tasks[1..], "P") == [s1, s2];
    }
    assert [s1, s2][1..] == [s2] && [s2][1..] == [];
    assert SumProgress([s2]) == 0;
    assert SumProgress([s1, s2]) == 100;
  }

  /** The parent is averaged from the snapshot, so the sub-task's own new
      value is not in it: a sub-task at 0% in the snapshot whose only step
      is now done is written at 100%, while its parent is written at 0%. */
  lemma CascadeUsesSnapshotValue(p: Task, s1: Task, step: Step)
    requires p.id == "P" && p.parentTaskId == None
    requires s1.id == "S1" && s1.parentTaskId == Some("P") && s1.progressPercent == 0
    requires step.parentTaskId == "S1" && step.status == StepStatus.Completed
    ensures var us := RecomputeUpdates([p, s1], [step], "S1");
      |us| == 2 && us[0].record.progressPercent == 100 && us[1].record.progressPercent == 0
  {
    var tasks := [p, s1];
    assert FindTask(tasks, "S1") == Some(s1);
    assert FindTask(tasks, "P") == Some(p);
    assert StepsOf([step], "S1") == [step];
    assert ChildTasks(tasks, "P") == [s1] by {
      assert ChildTasks(tasks[1..], "P") == [s1];
    }
    assert [s1][1..] == [];
    assert SumProgress([s1]) == 0;
  }
}
