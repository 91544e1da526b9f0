// Entities shared by the whole model: the enums and records of types.ts,
// plus the Option wrapper that stands for JavaScript's `null`.
module Types {

  /** `null` / absent value. */
  datatype Option<T> = None | Some(value: T)

  /** Document ids and all free text are plain strings. */
  type Id = string

  datatype TaskCategory = Project | Now | ToDo

  datatype TaskStatus = Pending | InProgress | Completed

  datatype StepStatus = Pending | Completed

  datatype ConcernStatus = Analyzing | SolutionDerived | Resolved

  /** One entry of a progress or analysis log. */
  datatype LogEntry = LogEntry(timestamp: string, log: string)

  datatype Step = Step(
    id: Id,
    parentTaskId: Id,
    title: string,
    status: StepStatus,
    order: int)

  datatype Memo = Memo(
    id: Id,
    parentStepId: Id,
    content: string,
    timestamp: string)

  /** A Project when `parentTaskId` is null, a Sub-task otherwise. */
  datatype Task = Task(
    id: Id,
    parentTaskId: Option<Id>,
    relatedConcernId: Option<Id>,
    title: string,
    description: string,
    category: TaskCategory,
    status: TaskStatus,
    progressPercent: int,
    progressLog: seq<LogEntry>,
    order: int)

  /** `analysisLog` is optional: a stored document may lack the field. */
  datatype Concern = Concern(
    id: Id,
    title: string,
    description: string,
    status: ConcernStatus,
    analysisLog: Option<seq<LogEntry>>,
    resolutionAction: string)

  /** The item shown in a modal: the source tells the two apart by probing
      for `progressPercent`; here the tag says it. */
  datatype Item = TaskItem(task: Task) | ConcernItem(concern: Concern)

  /** JavaScript truthiness of an optional id: neither null nor "". */
  predicate Truthy(id: Option<Id>)
  {
    id.Some? && id.value != ""
  }

  /** The test `if (task.parentTaskId)`. */
  predicate HasParent(t: Task)
  {
    Truthy(t.parentTaskId)
  }

  /** `tasks.find(t => t.id === id)`: the first task with that id. */
  function FindTask(tasks: seq<Task>, id: Id): (r: Option<Task>)
    ensures r.Some? ==> r.value in tasks && r.value.id == id
    ensures r.None? <==> forall t :: t in tasks ==> t.id != id
  {
    if |tasks| == 0 then None
    else if tasks[0].id == id then Some(tasks[0])
    else FindTask(tasks[1..], id)
  }

  /** `concerns.find(c => c.id === id)`. */
  function FindConcern(concerns: seq<Concern>, id: Id): (r: Option<Concern>)
    ensures r.Some? ==> r.value in concerns && r.value.id == id
    ensures r.None? <==> forall c :: c in concerns ==> c.id != id
  {
    if |concerns| == 0 then None
    else if concerns[0].id == id then Some(concerns[0])
    else FindConcern(concerns[1..], id)
  }
}
