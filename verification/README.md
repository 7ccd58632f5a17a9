# Task manager client state, modelled in Dafny

This project models the logic of a task-management web client. The
client keeps two server-backed lists. One holds tasks; it is kept by the
`useTasks` hook. The other holds categories; it is kept by the
`useCategories` hook. The model also covers the dashboard's filtered view
and counters, the dashboard's edit and submit logic, and the checks the
registration form makes before it calls `register`.

Remote calls are not modelled as I/O. Each call appears as the value it
settles to: `Outcome<T> = Ok(value) | Err(message)` (module `Outcomes`).
Every operation is a pure function from the current state and that
outcome to the new state and to what the caller sees.

Modules:

- `Sequences`: the list transforms behind `Array.prototype.filter`, `map`
  and `find`, and their lemmas (order, partition, idempotence, distinct
  keys).
- `Records`: the `Task` and `Category` records. A task's `category` is
  absent, a bare id, or an embedded category.
- `EntityStore`: the bookkeeping both hooks share. It holds a list keyed
  by `_id` plus a `loading` flag, with fetch, create, update and delete.
  Every mutation is applied only after the call succeeds. Sequences of
  calls are modelled too (`Op`, `Run`).
- `TaskStore` and `CategoryStore`: the two hooks. Only `TaskStore` has the
  toggle.
- `Dashboard`: the filter by `completed`, the counters, the edit form,
  and the create/update dispatch.
- `Register`: the email check, the minimum password length, and the
  gating of `register`.

Behaviour that follows the code as written:

- `updateTask` replaces *every* element whose `_id` matches, not only one.
- `deleteTask` removes every element whose `_id` matches. It "removes
  exactly one" only when ids are distinct (`EntityStore.DeleteRemovesOne`).
- A failed fetch is swallowed. It is reported only as a notification and
  is not rethrown.
- In the edit form, `task.category?._id || ''` yields `''` when the task
  holds a bare category id rather than an embedded category, because a
  string has no `_id`. `Dashboard.EditForm` states this as written.

## Model

| member | source | states |
|---|---|---|
| TaskStore.InitialTasks | src/hooks/useTasks.js:6-7 | on mount the task list is empty and `loading` is true |
| EntityStore.BeginFetch | src/hooks/useTasks.js:11 | while a fetch is pending, `loading` is true and the list is kept |
| TaskStore.FetchTasks | src/hooks/useTasks.js:9-19 | a successful fetch replaces the list with exactly the returned tasks; a failed one keeps the old list; `loading` is false after either |
| TaskStore.CreateTask | src/hooks/useTasks.js:21-31 | success puts the created task in front of the old list and returns it; failure leaves the store untouched and rethrows the same error |
| TaskStore.UpdateTask | src/hooks/useTasks.js:33-45 | success keeps length and order, turns every task with the given id into the returned task and keeps every other task; failure leaves the store untouched and rethrows |
| TaskStore.DeleteTask | src/hooks/useTasks.js:47-56 | success keeps exactly the tasks whose id differs from the given one; failure leaves the store untouched and rethrows |
| TaskStore.DeleteTaskIdempotent | src/hooks/useTasks.js:50 | deleting the same task id a second time changes nothing |
| TaskStore.TogglePatch | src/hooks/useTasks.js:58-61 | no request exists iff no task has the id; otherwise the request is the first task with that id, every field copied and `completed` negated |
| TaskStore.ToggleTask | src/hooks/useTasks.js:58-63 | an unknown id makes no call and changes nothing; otherwise exactly one update call is made with that request, the store changes as that update does, and a failure is rethrown |
| TaskStore.ToggleFlipsOne | src/hooks/useTasks.js:58-63 | with distinct ids and the server storing the request as sent, a toggle flips only `completed` of that one task and leaves every other task as it was |
| TaskStore.ToggleTwiceRestores | src/hooks/useTasks.js:58-63 | with distinct ids, two toggles of the same id, each stored as sent, give back the original list |
| TaskStore.Scenario | src/hooks/useTasks.js:9-63 | fetch `[milk]`, create `rent`, toggle `"1"`: the lists are `[milk]`, then `[rent, milk]`, then `[rent, milk with completed true]`, and `loading` is off after the fetch |
| EntityStore.DeleteKeepsOrder | src/hooks/useTasks.js:50 | delete keeps the remaining records in their original order, because removal distributes over concatenation |
| EntityStore.DeleteAbsent | src/hooks/useTasks.js:50 | deleting an id that no record carries leaves the store unchanged |
| EntityStore.DeleteRemovesOne | src/hooks/useTasks.js:47-51 | with distinct ids, deleting the id of the record at position i yields the list with just that position removed |
| EntityStore.DeleteKeepsDistinct | src/hooks/useTasks.js:47-51 | if ids were distinct before a delete, they are distinct after it |
| EntityStore.UpdateAbsent | src/hooks/useTasks.js:36-38 | updating an id that no record carries leaves the store unchanged |
| EntityStore.UpdateIdempotent | src/hooks/useTasks.js:36-38 | applying the same successful update twice is the same as applying it once |
| EntityStore.UpdateKeepsKeys | src/hooks/useTasks.js:36-38 | when the returned record keeps the id it was updated under, every position keeps its id, and distinct ids stay distinct |
| EntityStore.CreateKeepsDistinct | src/hooks/useTasks.js:24 | creating a record whose id is not yet held keeps ids distinct |
| EntityStore.CreateThenDelete | src/hooks/useTasks.js:21-56 | deleting a just-created record with a fresh id restores the store exactly |
| EntityStore.RunKeepsDistinct | src/hooks/useTasks.js:9-56 | for any sequence of fetch, create, update and delete calls, ids stay distinct as long as the server respects identities |
| CategoryStore.InitialCategories | src/hooks/useCategories.js:6-7 | on mount the category list is empty and `loading` is true |
| CategoryStore.FetchCategories | src/hooks/useCategories.js:9-19 | a successful fetch replaces the list; a failed one keeps it; `loading` ends false |
| CategoryStore.CreateCategory | src/hooks/useCategories.js:21-31 | success prepends the created category and returns it; failure leaves the store untouched and rethrows |
| CategoryStore.UpdateCategory | src/hooks/useCategories.js:33-45 | success keeps length and order and replaces exactly the categories with the given id; failure leaves the store untouched and rethrows |
| CategoryStore.DeleteCategory | src/hooks/useCategories.js:47-56 | success keeps exactly the categories with another id; failure leaves the store untouched and rethrows |
| CategoryStore.DeleteCategoryIdempotent | src/hooks/useCategories.js:50 | deleting the same category id twice is the same as deleting it once |
| CategoryStore.DeleteCategoryRemovesOne | src/hooks/useCategories.js:47-51 | with distinct ids, deleting a category's id removes exactly that category and keeps the rest in order |
| Dashboard.FilterTasks | src/pages/Dashboard.jsx:34-38 | `'completed'` keeps exactly the completed tasks and `'pending'` exactly the pending ones, each as often as in the list |
| Dashboard.FilterTasksKeepsOrder | src/pages/Dashboard.jsx:34-38 | filtering keeps relative order, because it distributes over concatenation |
| Dashboard.FilterOtherShowsAll | src/pages/Dashboard.jsx:37 | any other filter value, `'all'` included, shows the whole list unchanged |
| Dashboard.CompletedPendingPartition | src/pages/Dashboard.jsx:34-36 | the completed and pending views share no task, and together they hold every task exactly once per occurrence |
| Dashboard.ComputeStats | src/pages/Dashboard.jsx:91-95 | `total` is the list length, `completed` is the number of completed tasks counted one by one, `pending` is the rest, so `completed + pending == total`; `completed` is 0 iff no task is completed; `pending` is 0 iff every task is |
| Dashboard.CompletedViewCounts | src/pages/Dashboard.jsx:93 | the `'completed'` view holds exactly as many tasks as the list has completed tasks |
| Dashboard.FilterTasksIdempotent | src/pages/Dashboard.jsx:34-38 | filtering a filtered view again by the same value changes nothing |
| Dashboard.EditForm | src/pages/Dashboard.jsx:67-81 | the form copies the title; the description is `''` when absent; the due date is `''` when absent or when formatting fails; the category is the embedded category's id, otherwise `''` |
| Dashboard.HandleEdit | src/pages/Dashboard.jsx:65-83 | editing a task records it as the task being edited, fills the form from it and opens the modal |
| Dashboard.SubmitRequest | src/pages/Dashboard.jsx:43-47 | submitting calls update with the edited task's id when a task is being edited, and create with the form otherwise |
| Dashboard.EditThenSubmitUpdates | src/pages/Dashboard.jsx:40-83 | editing task `t` and then submitting sends an update of `t`'s id carrying the form built from `t` |
| Dashboard.SubmitOkThenCreates | src/pages/Dashboard.jsx:40-63 | right after a successful submit no task is being edited and the form is empty, so the request the editor would send from that state is a create of the empty form |
| Dashboard.OpenModal | src/pages/Dashboard.jsx:228-230 | the new-task button opens the modal and keeps the editing state and form as they were |
| Dashboard.CloseModal | src/pages/Dashboard.jsx:365-368 | closing the modal (its close handler, and the cancel button at 422-425) closes it, clears the task being edited and empties the form |
| Dashboard.CloseLikeSubmitOk | src/pages/Dashboard.jsx:40-63 | closing the modal leaves the editor exactly as a successful submit does, so reopening it prepares a create of an empty form |
| Dashboard.SubmitErrRetriesSame | src/pages/Dashboard.jsx:40-53 | after a failed submit the store is unchanged and submitting again sends the same request to the same task |
| Dashboard.HandleSubmit | src/pages/Dashboard.jsx:40-63 | the store changes exactly as that update or create does; the modal closes and the form resets only on success; on failure the editor is kept |
| Register.EmailCheckMatchesPattern | src/pages/Register.jsx:22-23 | the email check accepts exactly the strings matched by `^[^\s@]+@[^\s@]+\.[^\s@]+$` (non-empty local part, `@`, then a `.` with at least one character on each side) |
| Register.NoAtRejected | src/pages/Register.jsx:22-23 | an email without `@` is rejected |
| Register.TwoAtsRejected | src/pages/Register.jsx:22-23 | an email with two `@` is rejected |
| Register.WhitespaceRejected | src/pages/Register.jsx:22-23 | an email with a whitespace character anywhere is rejected |
| Register.EmailExamples | src/pages/Register.jsx:22 | `a@b.c` passes; `a@b.`, `a@.c` and `@b.c` fail |
| Register.HandleSubmit | src/pages/Register.jsx:18-45 | `register` is called iff the email is valid and the password has at least 6 characters; an invalid email reports only the email error, whatever the password; a valid email with a short password reports the password error; the call's failure message falls back to the default when empty; `loading` is false once everything settles |

## Left out

- Notifications (toasts), `window.confirm`, and navigation after
  registering: these are side effects with no result to state. Because
  `handleDelete` on the dashboard is only `confirm` followed by the
  delete call, it is covered by `TaskStore.DeleteTask`.
- The remote task, category and auth services: these do network I/O
  that is not available here. Each call is an `Outcome` parameter.
- Date handling. `date-fns` formatting appears in the model only as its
  answer: the `formatted` parameter of `Dashboard.EditForm`. The
  overdue/soon colouring depends on the wall clock.
- The percentage bar widths: they are floating point.
- React scheduling. This covers overlapping calls racing on the same
  record and the stale `tasks` closure that `toggleTask` reads. Each call
  is treated as atomic on the list.
- Markup, styling, animation and icons, and the login page: these are
  presentation only.
- The category page (src/pages/Categories.jsx): its submit, reset and
  edit handlers have the same shape as the dashboard's editor. They work
  on a `{name, color}` form whose reset colour is `'#3B82F6'`, and the
  calls they make are `CategoryStore`'s. That editor is not modelled.
- The email-verification page (src/pages/VerifyEmail.jsx): apart from
  the missing-token error, its status and message are just the result of
  an auth call that is not part of this model.
- Register.HandleSubmit: models `handleSubmit` only once the browser's
  built-in form validation has passed. The name, email and password
  inputs are `required`, and the email input is `type="email"`
  (src/pages/Register.jsx:98-160). When one of those fails, the browser
  blocks the submit and `handleSubmit` never runs. That happens for an
  empty name or password, or for an address the regex accepts but HTML
  does not, such as `a@b_c.d`. HTML email syntax is not modelled.
  Separately, the password length here is the length of a `seq<char>`.
  JavaScript's `.length` counts UTF-16 code units, so the two differ for
  characters outside the Basic Multilingual Plane.
- Dashboard.HandleSubmit: the request payload is the form as typed. How
  the server turns that payload into the returned task is not modelled.
  Typing into the form (the `onChange` handlers) is not modelled either.
  The title input is given `required` (src/pages/Dashboard.jsx:373-378).
  If `Input` forwards `required` to the native input, the browser blocks
  any submit with an empty title before `handleSubmit` runs. The source
  of `Input` is not part of this model.
