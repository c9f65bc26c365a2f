/** Entities shared by the board: task records, columns, attribute filters.
    A task record is a JavaScript object whose keys may each be absent, so
    every field is an Option; `None` stands for a missing key. */
module BoardTypes {

  datatype Option<+T> = None | Some(value: T)

  type TaskId = string
  type ColumnId = string

  /** Creation time and due date are opaque instants: the board never compares them. */
  type Timestamp = int

  datatype Priority = Low | Medium | High | Urgent

  datatype Task = Task(
    id: Option<TaskId>,
    title: Option<string>,
    description: Option<string>,
    status: Option<ColumnId>,
    priority: Option<Priority>,
    assignee: Option<string>,
    tags: Option<seq<string>>,
    dueDate: Option<Timestamp>,
    createdAt: Option<Timestamp>)

  /** The empty object `{}`; spreading `undefined` contributes nothing either. */
  const NoFields: Task := Task(None, None, None, None, None, None, None, None, None)

  /** A record holding only the `status` key. */
  function StatusOnly(status: ColumnId): Task {
    NoFields.(status := Some(status))
  }

  /** One key of an object spread: a key present on the right wins. */
  function Pick<T>(left: Option<T>, right: Option<T>): Option<T> {
    if right.Some? then right else left
  }

  /** `{ ...left, ...right }` on task records. */
  function Spread(left: Task, right: Task): Task {
    Task(
      Pick(left.id, right.id),
      Pick(left.title, right.title),
      Pick(left.description, right.description),
      Pick(left.status, right.status),
      Pick(left.priority, right.priority),
      Pick(left.assignee, right.assignee),
      Pick(left.tags, right.tags),
      Pick(left.dueDate, right.dueDate),
      Pick(left.createdAt, right.createdAt))
  }

  /** `{}` is a unit of spread on both sides. */
  lemma SpreadUnit(t: Task)
    ensures Spread(t, NoFields) == t
    ensures Spread(NoFields, t) == t
  {
  }

  /** Spreading the same patch twice is spreading it once. */
  lemma SpreadIdempotent(base: Task, patch: Task)
    ensures Spread(Spread(base, patch), patch) == Spread(base, patch)
  {
  }

  /** Nested spreads may be regrouped. */
  lemma SpreadAssociative(a: Task, b: Task, c: Task)
    ensures Spread(Spread(a, b), c) == Spread(a, Spread(b, c))
  {
  }

  /** `r` is `base` overwritten key by key with `patch`: every key `patch`
      holds takes `patch`'s value, every key it lacks keeps `base`'s. */
  predicate Overlays(r: Task, base: Task, patch: Task) {
    && r.id == (if patch.id.Some? then patch.id else base.id)
    && r.title == (if patch.title.Some? then patch.title else base.title)
    && r.description == (if patch.description.Some? then patch.description else base.description)
    && r.status == (if patch.status.Some? then patch.status else base.status)
    && r.priority == (if patch.priority.Some? then patch.priority else base.priority)
    && r.assignee == (if patch.assignee.Some? then patch.assignee else base.assignee)
    && r.tags == (if patch.tags.Some? then patch.tags else base.tags)
    && r.dueDate == (if patch.dueDate.Some? then patch.dueDate else base.dueDate)
    && r.createdAt == (if patch.createdAt.Some? then patch.createdAt else base.createdAt)
  }

  /** A key the right side lacks keeps the left side's value; a key it has,
      takes the right side's; and that pins the spread down. */
  lemma SpreadKeys(left: Task, right: Task)
    ensures Overlays(Spread(left, right), left, right)
    ensures forall r :: Overlays(r, left, right) ==> r == Spread(left, right)
  {
  }

  datatype Column = Column(id: ColumnId, title: string, taskIds: seq<TaskId>)

  /** The `filters` object: a key is present when its Option is `Some`. */
  datatype Filters = Filters(
    assignee: Option<string>,
    priority: Option<Priority>,
    tags: Option<seq<string>>)

  /** `{}`, the filters the board starts with. */
  const NoFilters: Filters := Filters(None, None, None)

  /** `Object.keys(filters).length === 0`. */
  predicate HasNoKeys(f: Filters) {
    f.assignee.None? && f.priority.None? && f.tags.None?
  }
}
