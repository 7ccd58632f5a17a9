/** The dashboard's logic: the filtered projection of the task list, the
    counters, the edit form built from a task, and the submit dispatch. */
module Dashboard {
  import opened Outcomes
  import opened Sequences
  import opened Records
  import opened EntityStore
  import TaskStore

  const CompletedFilter: string := "completed"
  const PendingFilter: string := "pending"

  /** Whether `t` is shown under `filter`; any value other than the two
      named ones (in practice "all") shows every task. */
  predicate Shown(filter: string, t: Task) {
    if filter == CompletedFilter then t.completed
    else if filter == PendingFilter then !t.completed
    else true
  }

  /** The tasks listed under `filter`, in list order. */
  function FilterTasks(tasks: seq<Task>, filter: string): (r: seq<Task>)
    ensures forall t :: t in r <==> t in tasks && Shown(filter, t)
    ensures forall t :: multiset(r)[t] == if Shown(filter, t) then multiset(tasks)[t] else 0
    ensures filter == CompletedFilter ==> forall k :: 0 <= k < |r| ==> r[k].completed
    ensures filter == PendingFilter ==> forall k :: 0 <= k < |r| ==> !r[k].completed
  {
    var r := Filter(tasks, t => Shown(filter, t));
    assert forall k :: 0 <= k < |r| ==> r[k] in r;
    r
  }

  /** Filtering preserves relative order: it distributes over concatenation. */
  lemma FilterTasksKeepsOrder(a: seq<Task>, b: seq<Task>, filter: string)
    ensures FilterTasks(a + b, filter) == FilterTasks(a, filter) + FilterTasks(b, filter)
  {
    FilterAppend(a, b, t => Shown(filter, t));
  }

  /** Any filter other than "completed" and "pending" shows the whole list. */
  lemma FilterOtherShowsAll(tasks: seq<Task>, filter: string)
    requires filter != CompletedFilter && filter != PendingFilter
    ensures FilterTasks(tasks, filter) == tasks
  {
    FilterKeepsAll(tasks, t => Shown(filter, t));
  }

  /** The completed and pending views share no task and together hold every
      task exactly as often as the list does. */
  lemma CompletedPendingPartition(tasks: seq<Task>)
    ensures forall t :: !(t in FilterTasks(tasks, CompletedFilter) && t in FilterTasks(tasks, PendingFilter))
    ensures multiset(FilterTasks(tasks, CompletedFilter)) + multiset(FilterTasks(tasks, PendingFilter)) == multiset(tasks)
  {
    FilterPartition(tasks, t => Shown(CompletedFilter, t), t => Shown(PendingFilter, t));
  }

  /** Repeating a filter changes nothing: the view under a filter is
      already entirely shown under it. */
  lemma FilterTasksIdempotent(tasks: seq<Task>, filter: string)
    ensures FilterTasks(FilterTasks(tasks, filter), filter) == FilterTasks(tasks, filter)
  {
    FilterIdempotent(tasks, t => Shown(filter, t));
  }

  /** The number of completed tasks, counted one by one. */
  function CountCompleted(tasks: seq<Task>): nat {
    if tasks == [] then 0
    else (if tasks[0].completed then 1 else 0) + CountCompleted(tasks[1..])
  }

  /** The completed view has exactly as many tasks as are completed. */
  lemma {:induction false} CompletedViewCounts(tasks: seq<Task>)
    ensures |FilterTasks(tasks, CompletedFilter)| == CountCompleted(tasks)
  {
    if tasks != [] {
      CompletedViewCounts(tasks[1..]);
      assert tasks == [tasks[0]] + tasks[1..];
      FilterTasksKeepsOrder([tasks[0]], tasks[1..], CompletedFilter);
      assert [tasks[0]][1..] == [];
    }
  }

  datatype Stats = Stats(total: nat, completed: nat, pending: nat)

  /** The three counters shown above the list: every task is counted once,
      as completed or as pending. */
  function ComputeStats(tasks: seq<Task>): (s: Stats)
    ensures s.total == |tasks|
    ensures s.completed == CountCompleted(tasks)
    ensures s.pending == |tasks| - CountCompleted(tasks)
    ensures s.completed + s.pending == s.total
    ensures s.completed == 0 <==> forall k :: 0 <= k < |tasks| ==> !tasks[k].completed
    ensures s.pending == 0 <==> forall k :: 0 <= k < |tasks| ==> tasks[k].completed
  {
    var done, open := FilterTasks(tasks, CompletedFilter), FilterTasks(tasks, PendingFilter);
    CompletedPendingPartition(tasks);
    CompletedViewCounts(tasks);
    assert |multiset(done)| + |multiset(open)| == |multiset(tasks)|;
    assert forall k :: 0 <= k < |tasks| ==> tasks[k] in tasks;
    assert |done| > 0 ==> done[0] in done;
    assert |open| > 0 ==> open[0] in open;
    Stats(|tasks|, |done|, |open|)
  }

  /** The modal's form fields, all text. */
  datatype TaskForm = TaskForm(title: string, description: string, dueDate: string, category: string)

  const EmptyForm := TaskForm("", "", "", "")

  /** The dashboard's editing state: whether the modal is open, which task
      is being edited (None when creating), and the form. */
  datatype Editor = Editor(modalOpen: bool, editing: Option<Task>, form: TaskForm)

  /** The form opened for `task`. `formatted` is the date formatter's
      answer for a present due date (None when it throws). */
  function EditForm(task: Task, formatted: Option<string>): (f: TaskForm)
    ensures f.title == task.title
    ensures task.description.None? ==> f.description == ""
    ensures task.description.Some? ==> f.description == task.description.value
    ensures (task.dueDate.None? || task.dueDate == Some("") || formatted.None?) ==> f.dueDate == ""
    ensures task.dueDate.Some? && task.dueDate.value != "" && formatted.Some? ==> f.dueDate == formatted.value
    ensures task.category.Embedded? ==> f.category == task.category.category.id
    ensures !task.category.Embedded? ==> f.category == ""
  {
    var date := if task.dueDate.Some? && task.dueDate.value != "" && formatted.Some? then formatted.value else "";
    TaskForm(
      task.title,
      match task.description case Some(d) => d case None => "",
      date,
      match task.category case Embedded(c) => c.id case _ => "")
  }

  /** handleEdit: remember the task, fill the form from it, open the modal. */
  function HandleEdit(e: Editor, task: Task, formatted: Option<string>): (r: Editor)
    ensures r.modalOpen && r.editing == Some(task)
    ensures r.form == EditForm(task, formatted)
  {
    Editor(true, Some(task), EditForm(task, formatted))
  }

  /** The call handleSubmit makes. */
  datatype SubmitCall = CreateCall(draft: TaskForm) | UpdateCall(id: Id, patch: TaskForm)

  function SubmitRequest(e: Editor): (c: SubmitCall)
    ensures c.UpdateCall? <==> e.editing.Some?
    ensures c.UpdateCall? ==> c.id == e.editing.value.id && c.patch == e.form
    ensures c.CreateCall? ==> c.draft == e.form
  {
    match e.editing
    case Some(t) => UpdateCall(t.id, e.form)
    case None => CreateCall(e.form)
  }

  /** handleSubmit: update the task being edited or create a new one; on
      success close the modal and reset the form, on failure (already
      reported by the hook) keep the editor as it was. */
  function HandleSubmit(e: Editor, s: Store<Task>, outcome: Outcome<Task>): (r: (Editor, Store<Task>))
    ensures outcome.Ok? ==> r.0 == Editor(false, None, EmptyForm)
    ensures outcome.Err? ==> r.0 == e && r.1 == s
    ensures e.editing.Some? ==> r.1 == TaskStore.UpdateTask(s, e.editing.value.id, outcome).store
    ensures e.editing.None? ==> r.1 == TaskStore.CreateTask(s, outcome).store
  {
    var reply :=
      match SubmitRequest(e)
      case UpdateCall(id, _) => TaskStore.UpdateTask(s, id, outcome)
      case CreateCall(_) => TaskStore.CreateTask(s, outcome);
    if reply.result.Ok? then (Editor(false, None, EmptyForm), reply.store)
    else (e, reply.store)
  }

  /** Editing a task and then submitting updates that task with the form
      built from it. */
  lemma EditThenSubmitUpdates(e: Editor, t: Task, formatted: Option<string>)
    ensures SubmitRequest(HandleEdit(e, t, formatted)) == UpdateCall(t.id, EditForm(t, formatted))
  {
  }

  /** After a successful submit the editor is back to creating, with an
      empty form. */
  lemma SubmitOkThenCreates(e: Editor, s: Store<Task>, rec: Task)
    ensures SubmitRequest(HandleSubmit(e, s, Ok(rec)).0) == CreateCall(EmptyForm)
  {
  }

  /** After a failed submit, submitting again sends the same request. */
  lemma SubmitErrRetriesSame(e: Editor, s: Store<Task>, message: string)
    ensures SubmitRequest(HandleSubmit(e, s, Err(message)).0) == SubmitRequest(e)
    ensures HandleSubmit(e, s, Err(message)).1 == s
  {
  }

  /** The "new task" button: open the modal, keeping whatever editing
      state and form the editor already holds. */
  function OpenModal(e: Editor): (r: Editor)
    ensures r.modalOpen
    ensures r.editing == e.editing && r.form == e.form
  {
    e.(modalOpen := true)
  }

  /** The modal's close and cancel paths: close it and reset the form and
      the editing state, whatever they were. */
  function CloseModal(e: Editor): (r: Editor)
    ensures !r.modalOpen && r.editing.None? && r.form == EmptyForm
  {
    Editor(false, None, EmptyForm)
  }

  /** Closing the modal leaves the editor just as a successful submit does,
      so opening it again starts a create of an empty form. */
  lemma CloseLikeSubmitOk(e: Editor, s: Store<Task>, rec: Task)
    ensures CloseModal(e) == HandleSubmit(e, s, Ok(rec)).0
    ensures SubmitRequest(OpenModal(CloseModal(e))) == CreateCall(EmptyForm)
  {
  }
}
