// The creation form of components/CreationModal.tsx: when it may be
// submitted and what it hands to the data layer.
module CreationModal {
  import opened Types
  import opened Text
  import opened UseData
  import opened App

  /** `mode: 'task' | 'concern'` */
  datatype Mode = TaskMode | ConcernMode

  /** The form's state. */
  datatype Form = Form(title: string, description: string, category: TaskCategory, resolutionAction: string)

  /** A freshly opened form: empty fields, category Now. */
  function InitialForm(): (f: Form)
    ensures f.category == Now && f.title == "" && f.description == "" && f.resolutionAction == ""
  {
    Form("", "", Now, "")
  }

  /** `title.trim() !== '' && description.trim() !== ''` */
  predicate IsFormValid(f: Form)
  {
    Trim(f.title) != "" && Trim(f.description) != ""
  }

  /** The form is valid exactly when neither title nor description is all
      white space; the resolution action may be; a fresh form is not. */
  lemma IsFormValidSpec(f: Form)
    ensures IsFormValid(f) <==> !IsBlank(f.title) && !IsBlank(f.description)
    ensures !IsFormValid(InitialForm())
  {
    TrimBlank(f.title);
    TrimBlank(f.description);
  }

  /** What a submit does: nothing, or one add call. */
  datatype Submission = NoCall | AddTaskCall(task: TaskDraft) | AddConcernCall(concern: ConcernDraft)

  /** handleSubmit: an invalid form calls nothing; otherwise the trimmed
      fields go to addTask (top level, the chosen category) or to
      addConcern. */
  function HandleSubmit(mode: Mode, f: Form): (r: Submission)
    ensures r.NoCall? <==> !IsFormValid(f)
    ensures r.AddTaskCall? <==> IsFormValid(f) && mode == TaskMode
    ensures r.AddTaskCall? ==> r.task == TaskDraft(Trim(f.title), Trim(f.description), f.category, None)
    ensures r.AddConcernCall? <==> IsFormValid(f) && mode == ConcernMode
    ensures r.AddConcernCall? ==>
      r.concern == ConcernDraft(Trim(f.title), Trim(f.description), Trim(f.resolutionAction))
  {
    if !IsFormValid(f) then NoCall
    else match mode
      case TaskMode => AddTaskCall(TaskDraft(Trim(f.title), Trim(f.description), f.category, None))
      case ConcernMode => AddConcernCall(ConcernDraft(Trim(f.title), Trim(f.description), Trim(f.resolutionAction)))
  }

  /** Submitted text is trimmed and the title and description are not
      empty. */
  lemma HandleSubmitTrimmed(mode: Mode, f: Form)
    ensures HandleSubmit(mode, f).AddTaskCall? ==>
      var d := HandleSubmit(mode, f).task;
      d.title != "" && d.description != "" && Trim(d.title) == d.title && Trim(d.description) == d.description
    ensures HandleSubmit(mode, f).AddConcernCall? ==>
      var d := HandleSubmit(mode, f).concern;
      && d.title != "" && d.description != ""
      && Trim(d.title) == d.title && Trim(d.description) == d.description
      && Trim(d.resolutionAction) == d.resolutionAction
  {
    TrimIdempotent(f.title);
    TrimIdempotent(f.description);
    TrimIdempotent(f.resolutionAction);
  }

  /** A task created from the form is top level, shows in the column of
      the chosen category, and takes as its `order` the number of
      tasks whose parent is null before the add. */
  lemma SubmittedTaskShown(mode: Mode, f: Form, tasks: seq<Task>, newId: Id, now: string)
    requires HandleSubmit(mode, f).AddTaskCall?
    ensures var t := NewTask(tasks, HandleSubmit(mode, f).task, newId, now);
      && t in Column(tasks + [t], f.category)
      && t.order == |SiblingsOf(tasks, None)|
  {
    var t := NewTask(tasks, HandleSubmit(mode, f).task, newId, now);
    assert t in tasks + [t];
    TopLevelShown(tasks + [t], t);
  }
}
