/** The task hook: the shared store bookkeeping on tasks, plus the toggle
    that reissues a task through update with `completed` flipped. */
module TaskStore {
  import opened Outcomes
  import opened Sequences
  import opened Records
  import opened EntityStore

  /** The hook's state on mount: no tasks, loading. */
  function InitialTasks(): (s: Store<Task>)
    ensures s.items == [] && s.loading
  {
    Init()
  }

  /** fetchTasks, from issue to settlement. */
  function FetchTasks(s: Store<Task>, outcome: Outcome<seq<Task>>): (r: Store<Task>)
    ensures !r.loading
    ensures outcome.Ok? ==> r.items == outcome.value
    ensures outcome.Err? ==> r.items == s.items
  {
    Fetch(s, outcome)
  }

  /** createTask: prepends and returns the created task, or rethrows. */
  function CreateTask(s: Store<Task>, outcome: Outcome<Task>): (r: Reply<Task, Task>)
    ensures r.result == outcome
    ensures outcome.Ok? ==> r.store.items == [outcome.value] + s.items && r.store.loading == s.loading
    ensures outcome.Err? ==> r.store == s
  {
    Create(s, outcome)
  }

  /** updateTask: replaces every task whose id is `id`, or rethrows. */
  function UpdateTask(s: Store<Task>, id: Id, outcome: Outcome<Task>): (r: Reply<Task, Task>)
    ensures r.result == outcome
    ensures outcome.Ok? ==> |r.store.items| == |s.items| && r.store.loading == s.loading
    ensures outcome.Ok? ==> forall i :: 0 <= i < |s.items| ==>
      r.store.items[i] == if s.items[i].id == id then outcome.value else s.items[i]
    ensures outcome.Err? ==> r.store == s
  {
    Update(s, TaskId, id, outcome)
  }

  /** deleteTask: drops every task whose id is `id`, or rethrows. */
  function DeleteTask(s: Store<Task>, id: Id, outcome: Outcome<()>): (r: Reply<Task, ()>)
    ensures r.result == outcome
    ensures outcome.Ok? ==> forall t :: t in r.store.items <==> t in s.items && t.id != id
    ensures outcome.Ok? ==>
      forall t :: multiset(r.store.items)[t] == (if t.id == id then 0 else multiset(s.items)[t])
    ensures outcome.Ok? ==> r.store.loading == s.loading
    ensures outcome.Err? ==> r.store == s
  {
    Delete(s, TaskId, id, outcome)
  }

  /** Deleting the same task id twice is deleting it once. */
  lemma DeleteTaskIdempotent(s: Store<Task>, id: Id)
    ensures var once := DeleteTask(s, id, Ok(())).store;
            DeleteTask(once, id, Ok(())).store == once
  {
    DeleteIdempotent(s, TaskId, id);
  }

  /** The task toggleTask sends to update: the first task with id `id`,
      every field copied and `completed` negated; None when no task has
      that id, in which case no call is made. */
  function TogglePatch(tasks: seq<Task>, id: Id): (p: Option<Task>)
    ensures p.None? <==> forall k :: 0 <= k < |tasks| ==> tasks[k].id != id
    ensures p.Some? ==>
      exists i :: (0 <= i < |tasks| && tasks[i].id == id
        && (forall j :: 0 <= j < i ==> tasks[j].id != id)
        && p.value == tasks[i].(completed := !tasks[i].completed))
  {
    match FindIndex(tasks, (t: Task) => t.id == id)
    case None => None
    case Some(i) => Some(tasks[i].(completed := !tasks[i].completed))
  }

  /** The outcome of a toggle: the store, the update request sent (if
      any), and what the toggle resolves to. */
  datatype ToggleReply = ToggleReply(store: Store<Task>, sent: Option<Task>, result: Outcome<()>)

  /** toggleTask: no call and no change for an unknown id; otherwise one
      update call with the flipped task, whose failure is rethrown. */
  function ToggleTask(s: Store<Task>, id: Id, outcome: Outcome<Task>): (r: ToggleReply)
    ensures r.sent == TogglePatch(s.items, id)
    ensures r.sent.None? ==> r.store == s && r.result == Ok(())
    ensures r.sent.Some? ==> r.store == UpdateTask(s, id, outcome).store
    ensures r.sent.Some? && outcome.Err? ==> r.result == Err(outcome.message)
    ensures outcome.Ok? ==> r.result == Ok(())
  {
    match TogglePatch(s.items, id)
    case None => ToggleReply(s, None, Ok(()))
    case Some(p) =>
      var reply := UpdateTask(s, id, outcome);
      ToggleReply(reply.store, Some(p), if outcome.Ok? then Ok(()) else Err(outcome.message))
  }

  /** The server's answer when it stores the request as sent. */
  function Echo(sent: Option<Task>): Outcome<Task> {
    match sent
    case Some(t) => Ok(t)
    case None => Err("")
  }

  /** A toggle confirmed verbatim flips exactly the `completed` flag of
      the task with that id (ids distinct) and leaves the others alone. */
  lemma ToggleFlipsOne(s: Store<Task>, i: nat)
    requires DistinctKeys(s.items, TaskId)
    requires i < |s.items|
    ensures var id := s.items[i].id;
            var after := ToggleTask(s, id, Echo(TogglePatch(s.items, id))).store.items;
            |after| == |s.items|
            && after[i] == s.items[i].(completed := !s.items[i].completed)
            && forall j :: 0 <= j < |s.items| && j != i ==> after[j] == s.items[j]
  {
    var id := s.items[i].id;
    var p := TogglePatch(s.items, id);
    assert s.items[i].id == id;
    var k :| 0 <= k < |s.items| && s.items[k].id == id
      && (forall j :: 0 <= j < k ==> s.items[j].id != id)
      && p.value == s.items[k].(completed := !s.items[k].completed);
    assert TaskId(s.items[k]) == TaskId(s.items[i]);
    assert k == i;
  }

  /** Two toggles of the same id, each confirmed verbatim, restore the
      list (ids distinct). */
  lemma ToggleTwiceRestores(s: Store<Task>, id: Id)
    requires DistinctKeys(s.items, TaskId)
    ensures var s1 := ToggleTask(s, id, Echo(TogglePatch(s.items, id))).store;
            ToggleTask(s1, id, Echo(TogglePatch(s1.items, id))).store.items == s.items
  {
    var s1 := ToggleTask(s, id, Echo(TogglePatch(s.items, id))).store;
    var s2 := ToggleTask(s1, id, Echo(TogglePatch(s1.items, id))).store;
    if i :| 0 <= i < |s.items| && s.items[i].id == id {
      ToggleFlipsOne(s, i);
      UpdateKeepsKeys(s, TaskId, id, s.items[i].(completed := !s.items[i].completed));
      ToggleFlipsOne(s1, i);
      assert s2.items == s.items;
    }
  }

  /** The end-to-end walk-through: fetch one pending task, create a second,
      then toggle the first with the server confirming. */
  lemma Scenario()
    ensures
      var milk := Task("1", "Buy milk", None, None, false, NoCategory);
      var rent := Task("2", "Pay rent", None, None, false, NoCategory);
      var s1 := FetchTasks(InitialTasks(), Ok([milk]));
      var s2 := CreateTask(s1, Ok(rent)).store;
      var sent := TogglePatch(s2.items, "1");
      var s3 := ToggleTask(s2, "1", Echo(sent)).store;
      && s1.items == [milk] && !s1.loading
      && s2.items == [rent, milk]
      && sent == Some(milk.(completed := true))
      && s3.items == [rent, milk.(completed := true)]
  {
    var milk := Task("1", "Buy milk", None, None, false, NoCategory);
    var rent := Task("2", "Pay rent", None, None, false, NoCategory);
    var s2 := Store([rent, milk], false);
    assert s2.items[0].id != "1" && s2.items[1].id == "1";
    var s3 := ToggleTask(s2, "1", Echo(TogglePatch(s2.items, "1"))).store;
    assert s3.items == [rent, milk.(completed := true)];
  }
}
