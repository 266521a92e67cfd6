/** The party's task list: adding a task or saving an edited one from the task form,
    ticking a task off, deleting one, and the assignee's name shown beside it. Each
    operation yields the new list the view hands to `onUpdateTasks`. */
module Tasks {
  import opened Wrappers
  import opened Lists
  import opened Text
  import opened Types

  /** The task form's three text fields; an empty one means "not set". */
  datatype TaskForm = TaskForm(description: string, assignedTo: string, deadline: string)

  /** `s || undefined`: an empty field is absent. */
  function OptionalField(s: string): (r: Option<string>)
    ensures r.None? <==> s == ""
    ensures r.Some? ==> r.value == s
  {
    if s == "" then None else Some(s)
  }

  /** The edit-load's `x || ''` undoes `OptionalField` for every value a task can get from
      the form, so opening a task and saving it again leaves the field as it was. */
  lemma FieldRoundTrip(x: Option<string>, s: string)
    ensures x != Some("") ==> OptionalField(x.GetOr("")) == x
    ensures OptionalField(s).GetOr("") == s
  {
  }

  /** The task after its edit is saved: new description (trimmed), assignee and deadline;
      same id and completion. */
  function Edited(t: Task, form: TaskForm): Task
  {
    t.(description := Trim(form.description),
       assignedTo := OptionalField(form.assignedTo),
       deadline := OptionalField(form.deadline))
  }

  /** The edit branch of `handleSubmit`: every task with the edited id is rewritten. */
  function EditTask(tasks: seq<Task>, editingId: string, form: TaskForm): seq<Task>
  {
    UpdateWhere(tasks, (t: Task) => t.id == editingId, (t: Task) => Edited(t, form))
  }

  /** The add branch of `handleSubmit`: a new, open task is appended under `newId`. */
  function AddTask(tasks: seq<Task>, form: TaskForm, newId: string): seq<Task>
  {
    tasks + [Task(newId, Trim(form.description), OptionalField(form.assignedTo), OptionalField(form.deadline), false)]
  }

  /** `handleSubmit`: nothing happens for a blank description or while a submission is in
      progress; otherwise the task being edited is saved (an id that is null or empty edits
      nothing, as it is falsy) or a new task is added. */
  function SubmitTask(tasks: seq<Task>, form: TaskForm, editingId: Option<string>, isSubmitting: bool, newId: string)
    : Option<seq<Task>>
  {
    if Trim(form.description) == "" || isSubmitting then None
    else if editingId.Some? && editingId.value != "" then Some(EditTask(tasks, editingId.value, form))
    else Some(AddTask(tasks, form, newId))
  }

  /** The submission updates the list exactly when the description is not blank and no
      submission is in progress; the saved description is never blank. */
  lemma SubmitGuard(tasks: seq<Task>, form: TaskForm, editingId: Option<string>, isSubmitting: bool, newId: string)
    ensures var r := SubmitTask(tasks, form, editingId, isSubmitting, newId);
      && (r.Some? <==> !isSubmitting && exists k | 0 <= k < |form.description| :: !IsSpace(form.description[k]))
      && (r.Some? ==> |r.value| >= |tasks|)
  {
    TrimEmptyIffBlank(form.description);
  }

  /** Saving an edit changes only the tasks with the edited id: each gets the trimmed
      description and the optional fields, and keeps its id and completion; the length and
      every other task stay as they were. */
  lemma EditMeaning(tasks: seq<Task>, editingId: string, form: TaskForm)
    ensures var r := EditTask(tasks, editingId, form);
      && |r| == |tasks|
      && forall i | 0 <= i < |tasks| ::
           if tasks[i].id == editingId then
             && r[i].id == tasks[i].id && r[i].completed == tasks[i].completed
             && r[i].description == Trim(form.description)
             && r[i].assignedTo == OptionalField(form.assignedTo)
             && r[i].deadline == OptionalField(form.deadline)
             && (r[i].assignedTo.None? <==> form.assignedTo == "")
             && (r[i].deadline.None? <==> form.deadline == "")
           else r[i] == tasks[i]
  {
  }

  /** Adding appends exactly one task, open, under the new id, with the trimmed description
      (which neither starts nor ends with white space) and the form's optional fields; the
      earlier tasks stay as they were. */
  lemma AddMeaning(tasks: seq<Task>, form: TaskForm, newId: string)
    requires Trim(form.description) != ""
    ensures var r := AddTask(tasks, form, newId);
      && |r| == |tasks| + 1 && r[..|tasks|] == tasks
      && r[|tasks|] == Task(newId, Trim(form.description), OptionalField(form.assignedTo), OptionalField(form.deadline), false)
      && r[|tasks|].description != ""
      && !IsSpace(r[|tasks|].description[0])
      && !IsSpace(r[|tasks|].description[|r[|tasks|].description| - 1])
  {
    assert AddTask(tasks, form, newId)[..|tasks|] == tasks;
  }

  /** The form filled in from a task when its edit starts: the description as it is, the
      optional fields with `|| ''`. */
  function LoadedForm(t: Task): TaskForm
  {
    TaskForm(t.description, t.assignedTo.GetOr(""), t.deadline.GetOr(""))
  }

  /** A task saved from the form, reopened for editing and saved again without changes, is
      left exactly as it was. */
  lemma {:induction false} ReopenedTaskUnchanged(t: Task, form: TaskForm)
    requires t.description == Trim(form.description)
    requires t.assignedTo == OptionalField(form.assignedTo) && t.deadline == OptionalField(form.deadline)
    ensures Edited(t, LoadedForm(t)) == t
  {
    TrimIdempotent(form.description);
    FieldRoundTrip(t.assignedTo, form.assignedTo);
    FieldRoundTrip(t.deadline, form.deadline);
  }

  /** `toggleTaskCompletion`. */
  function ToggleTask(tasks: seq<Task>, id: string): seq<Task>
  {
    UpdateWhere(tasks, (t: Task) => t.id == id, (t: Task) => t.(completed := !t.completed))
  }

  /** Toggling flips the completion of the tasks with the id and of nothing else, keeps
      every other field of every task, and keeps the length. */
  lemma ToggleMeaning(tasks: seq<Task>, id: string)
    ensures var r := ToggleTask(tasks, id);
      && |r| == |tasks|
      && forall i | 0 <= i < |tasks| ::
           && r[i] == tasks[i].(completed := r[i].completed)
           && (r[i].completed <==> (tasks[i].completed != (tasks[i].id == id)))
  {
  }

  /** Toggling twice restores the list. */
  lemma ToggleTwice(tasks: seq<Task>, id: string)
    ensures ToggleTask(ToggleTask(tasks, id), id) == tasks
  {
    var r := ToggleTask(ToggleTask(tasks, id), id);
    assert forall i | 0 <= i < |tasks| :: r[i] == tasks[i];
  }

  /** `deleteTask`. */
  function DeleteTask(tasks: seq<Task>, id: string): seq<Task>
  {
    Without(tasks, (t: Task) => t.id == id)
  }

  /** Deleting removes exactly the tasks with the id: the others remain, each as often as
      before and in the same order. */
  lemma DeleteMeaning(tasks: seq<Task>, id: string, before: seq<Task>, after: seq<Task>)
    requires tasks == before + after
    ensures forall t: Task :: t in DeleteTask(tasks, id) <==> t in tasks && t.id != id
    ensures forall t: Task | t.id != id :: multiset(DeleteTask(tasks, id))[t] == multiset(tasks)[t]
    ensures DeleteTask(tasks, id) == DeleteTask(before, id) + DeleteTask(after, id)
  {
    WithoutAppend(before, after, (t: Task) => t.id == id);
    WithoutMeaning(tasks, (t: Task) => t.id == id);
  }

  /** `getFriendName(task.assignedTo || '')`: the assignee's name, or 'Unassigned' when there
      is none, it is no friend, or the friend's name is empty. */
  function AssigneeName(friends: seq<Friend>, assignedTo: Option<string>): (r: string)
    ensures r != "Unassigned" ==> r != "" && exists i | 0 <= i < |friends| ::
      friends[i].id == assignedTo.GetOr("") && friends[i].name == r
  {
    DisplayName(friends, assignedTo.GetOr(""), "Unassigned")
  }

  /** A task with no assignee, or whose assignee is no friend, shows 'Unassigned'. */
  lemma UnassignedName(friends: seq<Friend>, assignedTo: Option<string>)
    requires assignedTo.None? ==> forall i | 0 <= i < |friends| :: friends[i].id != ""
    requires assignedTo.Some? ==> forall i | 0 <= i < |friends| :: friends[i].id != assignedTo.value
    ensures AssigneeName(friends, assignedTo) == "Unassigned"
  {
  }
}
