/** The records the server hands to the client. */
module Records {
  import opened Outcomes

  /** A server-assigned identifier (the `_id` field). */
  type Id = string

  datatype Category = Category(id: Id, name: string, color: string)

  /** What a task's `category` field holds: nothing, a bare category id,
      or an embedded category snapshot. */
  datatype CategoryRef = NoCategory | CategoryId(ref: Id) | Embedded(category: Category)

  /** A task; `dueDate` is kept as the server's date text. */
  datatype Task = Task(
    id: Id,
    title: string,
    description: Option<string>,
    dueDate: Option<string>,
    completed: bool,
    category: CategoryRef)

  function TaskId(t: Task): Id { t.id }

  function CategoryKey(c: Category): Id { c.id }
}
