/** The copy-on-write updaters of the board hook: each takes the previous
    value of a state cell (`columns` or `tasks`) and returns its next value.
    Columns are looked up by id; nothing here checks that ids are unique,
    that a task exists, or that an index points at the task being moved. */
module BoardUpdates {
  import opened BoardTypes
  import opened TaskUtils

  /** `columns.find(col => col.id === id)`, as the position of the first match. */
  function FindColumn(columns: seq<Column>, id: ColumnId): (r: Option<nat>)
    ensures r.Some? ==> r.value < |columns| && columns[r.value].id == id
    ensures r.Some? ==> forall k :: 0 <= k < r.value ==> columns[k].id != id
    ensures r.None? ==> forall k :: 0 <= k < |columns| ==> columns[k].id != id
  {
    if columns == [] then None
    else if columns[0].id == id then Some(0)
    else
      match FindColumn(columns[1..], id)
      case None => None
      case Some(k) => Some(k + 1)
  }

  // ------------------------------------------------------ moveTaskInColumn

  /** Every column `columnId` names can be reordered from `fromIndex`. */
  predicate ReorderIndexValid(columns: seq<Column>, columnId: ColumnId, fromIndex: nat) {
    forall k :: 0 <= k < |columns| && columns[k].id == columnId ==> fromIndex < |columns[k].taskIds|
  }

  /** The `columns` updater of `moveTaskInColumn`: the column whose id
      matches gets its ids reordered; every other column, and the order of
      the columns, stay as they were. */
  function ReorderInColumn(columns: seq<Column>, columnId: ColumnId, fromIndex: nat, toIndex: nat)
    : (r: seq<Column>)
    requires ReorderIndexValid(columns, columnId, fromIndex)
    ensures |r| == |columns|
    ensures forall k :: 0 <= k < |r| ==> r[k].id == columns[k].id && r[k].title == columns[k].title
    ensures forall k :: 0 <= k < |r| && columns[k].id != columnId ==> r[k] == columns[k]
    ensures forall k :: 0 <= k < |r| && columns[k].id == columnId ==>
              r[k].taskIds == ReorderTasks(columns[k].taskIds, fromIndex, toIndex)
  {
    seq(|columns|, k requires 0 <= k < |columns| =>
      if columns[k].id == columnId
      then columns[k].(taskIds := ReorderTasks(columns[k].taskIds, fromIndex, toIndex))
      else columns[k])
  }

  // ----------------------------------------- moveTaskBetweenColumnsHandler

  /** When both columns are found, the source index lies inside the source column. */
  predicate MoveIndexValid(columns: seq<Column>, sourceColumnId: ColumnId,
                           destinationColumnId: ColumnId, sourceIndex: nat) {
    var s := FindColumn(columns, sourceColumnId);
    s.Some? && FindColumn(columns, destinationColumnId).Some? ==> sourceIndex < |columns[s.value].taskIds|
  }

  /** The `columns` updater of `moveTaskBetweenColumnsHandler`. If either
      column is missing nothing changes. Otherwise every column with the
      source id receives the source list without the moved id, every other
      column with the destination id receives the destination list with it,
      and all other columns stay as they were. A column with both ids takes
      the source branch, so a move within one column loses the task. */
  function MoveAcrossColumns(columns: seq<Column>, sourceColumnId: ColumnId, destinationColumnId: ColumnId,
                             sourceIndex: nat, destinationIndex: nat): (r: seq<Column>)
    requires MoveIndexValid(columns, sourceColumnId, destinationColumnId, sourceIndex)
    ensures (FindColumn(columns, sourceColumnId).None? || FindColumn(columns, destinationColumnId).None?)
              ==> r == columns
    ensures |r| == |columns|
    ensures forall k :: 0 <= k < |r| ==> r[k].id == columns[k].id && r[k].title == columns[k].title
    ensures forall k :: 0 <= k < |r| && columns[k].id != sourceColumnId && columns[k].id != destinationColumnId
              ==> r[k] == columns[k]
    ensures FindColumn(columns, sourceColumnId).Some? && FindColumn(columns, destinationColumnId).Some? ==>
              var moved := MoveTaskBetweenColumns(columns[FindColumn(columns, sourceColumnId).value].taskIds,
                                                  columns[FindColumn(columns, destinationColumnId).value].taskIds,
                                                  sourceIndex, destinationIndex);
              forall k :: 0 <= k < |r| ==>
                (columns[k].id == sourceColumnId ==> r[k].taskIds == moved.source) &&
                (columns[k].id == destinationColumnId && columns[k].id != sourceColumnId ==>
                   r[k].taskIds == moved.destination)
  {
    var s := FindColumn(columns, sourceColumnId);
    var d := FindColumn(columns, destinationColumnId);
    if s.None? || d.None? then columns
    else
      var moved := MoveTaskBetweenColumns(columns[s.value].taskIds, columns[d.value].taskIds,
                                          sourceIndex, destinationIndex);
      seq(|columns|, k requires 0 <= k < |columns| =>
        if columns[k].id == sourceColumnId then columns[k].(taskIds := moved.source)
        else if columns[k].id == destinationColumnId then columns[k].(taskIds := moved.destination)
        else columns[k])
  }

  /** `prevTasks[taskId]`: spreading a missing entry contributes no keys. */
  function Lookup(tasks: map<TaskId, Task>, taskId: TaskId): Task {
    if taskId in tasks then tasks[taskId] else NoFields
  }

  /** The `tasks` updater of `moveTaskBetweenColumnsHandler`: entry `taskId`
      gets `status` set and keeps its other keys; an entry that did not exist
      is created holding the status alone; no other entry changes. */
  function WithStatus(tasks: map<TaskId, Task>, taskId: TaskId, status: ColumnId)
    : (r: map<TaskId, Task>)
    ensures r.Keys == tasks.Keys + {taskId}
    ensures taskId in tasks ==> r[taskId] == tasks[taskId].(status := Some(status))
    ensures taskId !in tasks ==> r[taskId] == StatusOnly(status)
    ensures forall id :: id in tasks && id != taskId ==> r[id] == tasks[id]
  {
    tasks[taskId := Spread(Lookup(tasks, taskId), StatusOnly(status))]
  }

  // ------------------------------------------------------------ createTask

  /** `{ id: freshId, createdAt: now, ...taskData, status: columnId }`:
      the status is always the target column, while `taskData` may replace
      the generated id and creation time and supplies every other key. */
  function NewTask(columnId: ColumnId, taskData: Task, freshId: TaskId, now: Timestamp): (t: Task)
    ensures t.status == Some(columnId)
    ensures t.id == (if taskData.id.Some? then taskData.id else Some(freshId))
    ensures t.createdAt == (if taskData.createdAt.Some? then taskData.createdAt else Some(now))
    ensures t.(id := taskData.id, status := taskData.status, createdAt := taskData.createdAt) == taskData
  {
    var stamped := NoFields.(id := Some(freshId), createdAt := Some(now));
    Spread(Spread(stamped, taskData), StatusOnly(columnId))
  }

  /** The key the new task is stored under, `newTask.id`. */
  function NewTaskKey(columnId: ColumnId, taskData: Task, freshId: TaskId, now: Timestamp): TaskId {
    NewTask(columnId, taskData, freshId, now).id.value
  }

  /** The `columns` updater of `createTask`: every column with the target id
      gets `taskId` appended at its end; the other columns stay as they were. */
  function AppendToColumn(columns: seq<Column>, columnId: ColumnId, taskId: TaskId): (r: seq<Column>)
    ensures |r| == |columns|
    ensures forall k :: 0 <= k < |r| ==> r[k].id == columns[k].id && r[k].title == columns[k].title
    ensures forall k :: 0 <= k < |r| && columns[k].id != columnId ==> r[k] == columns[k]
    ensures forall k :: 0 <= k < |r| && columns[k].id == columnId ==>
              |r[k].taskIds| == |columns[k].taskIds| + 1 &&
              r[k].taskIds[..|columns[k].taskIds|] == columns[k].taskIds &&
              r[k].taskIds[|columns[k].taskIds|] == taskId
  {
    seq(|columns|, k requires 0 <= k < |columns| =>
      if columns[k].id == columnId then columns[k].(taskIds := columns[k].taskIds + [taskId])
      else columns[k])
  }

  // ------------------------------------------------------------ updateTask

  /** The `tasks` updater of `updateTask`: entry `taskId` becomes the old
      entry (or nothing) overwritten key by key with `updates`; no other
      entry changes. */
  function UpdateEntry(tasks: map<TaskId, Task>, taskId: TaskId, updates: Task): (r: map<TaskId, Task>)
    ensures r.Keys == tasks.Keys + {taskId}
    ensures forall id :: id in tasks && id != taskId ==> r[id] == tasks[id]
    ensures updates == NoFields && taskId in tasks ==> r == tasks
    ensures Overlays(r[taskId], Lookup(tasks, taskId), updates)
    ensures Spread(r[taskId], updates) == r[taskId]
  {
    SpreadIdempotent(Lookup(tasks, taskId), updates);
    SpreadUnit(Lookup(tasks, taskId));
    SpreadKeys(Lookup(tasks, taskId), updates);
    tasks[taskId := Spread(Lookup(tasks, taskId), updates)]
  }

  // ------------------------------------------------------------ deleteTask

  /** `ids.filter(id => id !== taskId)`: every occurrence of `taskId` goes,
      everything else stays, in order. */
  function Without(ids: seq<TaskId>, taskId: TaskId): (r: seq<TaskId>)
    ensures forall x :: x in r <==> x in ids && x != taskId
    ensures IsSubsequence(r, ids)
    ensures taskId !in ids ==> r == ids
  {
    if ids == [] then []
    else
      var rest := Without(ids[1..], taskId);
      if ids[0] == taskId then rest
      else
        assert ([ids[0]] + rest)[1..] == rest;
        [ids[0]] + rest
  }

  /** Removing an id drops all its copies and keeps every other id as often as it was. */
  lemma {:induction false} WithoutCounts(ids: seq<TaskId>, taskId: TaskId)
    ensures multiset(Without(ids, taskId)) == multiset(ids)[taskId := 0]
    decreases |ids|
  {
    if ids != [] {
      WithoutCounts(ids[1..], taskId);
      assert ids == [ids[0]] + ids[1..];
    }
  }

  /** The `columns` updater of `deleteTask`: every column loses the id and
      keeps the rest of its list. */
  function StripTask(columns: seq<Column>, taskId: TaskId): (r: seq<Column>)
    ensures |r| == |columns|
    ensures forall k :: 0 <= k < |r| ==>
              r[k] == columns[k].(taskIds := Without(columns[k].taskIds, taskId))
  {
    seq(|columns|, k requires 0 <= k < |columns| =>
      columns[k].(taskIds := Without(columns[k].taskIds, taskId)))
  }

  /** Deleting an id no column holds leaves the columns as they were. */
  lemma StripAbsentTask(columns: seq<Column>, taskId: TaskId)
    requires forall k :: 0 <= k < |columns| ==> taskId !in columns[k].taskIds
    ensures StripTask(columns, taskId) == columns
  {
  }

  // ------------------------------------------------------ getFilteredTasks

  /** The hook's tag test: beyond the list helper's test, the task must
      have tags at all, so a task without tags fails even an empty filter. */
  predicate BoardTagsMatch(t: Task, f: Filters) {
    f.tags.None? || (t.tags.Some? && forall tag :: tag in f.tags.value ==> tag in t.tags.value)
  }

  predicate BoardMatches(t: Task, searchTerm: string, f: Filters)
    requires Searchable(t, searchTerm)
  {
    SearchMatches(t, searchTerm) && AssigneeMatches(t, f) && PriorityMatches(t, f) && BoardTagsMatch(t, f)
  }

  /** The hook's tag test and the list helper's agree except on a task
      without tags facing an empty tag filter. */
  lemma TagTestsDiffer(t: Task, f: Filters)
    ensures BoardTagsMatch(t, f) != TagsMatch(t, f) <==> t.tags.None? && f.tags == Some([])
  {
    if t.tags.None? && f.tags.Some? && f.tags.value != [] {
      assert f.tags.value[0] in f.tags.value;
    }
  }

  /** Every stored task the search would read has a title. */
  predicate SearchableIds(ids: seq<TaskId>, tasks: map<TaskId, Task>, searchTerm: string) {
    forall id :: id in ids && id in tasks ==> Searchable(tasks[id], searchTerm)
  }

  /** The filter callback of `getFilteredTasks`: keeps the ids that have a
      task record and whose record matches, in their original order. */
  function KeepMatching(ids: seq<TaskId>, tasks: map<TaskId, Task>, searchTerm: string, f: Filters)
    : (r: seq<TaskId>)
    requires SearchableIds(ids, tasks, searchTerm)
    ensures IsSubsequence(r, ids)
    ensures forall id :: id in r ==> id in ids && id in tasks && BoardMatches(tasks[id], searchTerm, f)
    ensures forall id :: id in ids && id in tasks && BoardMatches(tasks[id], searchTerm, f) ==> id in r
  {
    if ids == [] then []
    else
      var rest := KeepMatching(ids[1..], tasks, searchTerm, f);
      if ids[0] in tasks && BoardMatches(tasks[ids[0]], searchTerm, f) then
        assert ([ids[0]] + rest)[1..] == rest;
        [ids[0]] + rest
      else rest
  }

  /** The filter keeps every copy of a matching id and no copy of any other. */
  lemma {:induction false} KeepMatchingCounts(ids: seq<TaskId>, tasks: map<TaskId, Task>, searchTerm: string, f: Filters)
    requires SearchableIds(ids, tasks, searchTerm)
    ensures forall id :: multiset(KeepMatching(ids, tasks, searchTerm, f))[id] ==
              if id in ids && id in tasks && BoardMatches(tasks[id], searchTerm, f) then multiset(ids)[id] else 0
    decreases |ids|
  {
    if ids != [] {
      KeepMatchingCounts(ids[1..], tasks, searchTerm, f);
      assert ids == [ids[0]] + ids[1..];
      forall id
        ensures multiset(KeepMatching(ids, tasks, searchTerm, f))[id] ==
                  if id in ids && id in tasks && BoardMatches(tasks[id], searchTerm, f) then multiset(ids)[id] else 0
      {
        if id !in ids {
          assert id !in ids[1..];
        }
      }
    }
  }

  /** `getFilteredTasks` over the current `tasks`, `searchTerm` and
      `filters`: with no search term and no filter keys the list comes back
      as it is (ids without a record included); otherwise it is narrowed to
      the ids whose record matches. */
  function VisibleIds(ids: seq<TaskId>, tasks: map<TaskId, Task>, searchTerm: string, f: Filters)
    : (r: seq<TaskId>)
    requires SearchableIds(ids, tasks, searchTerm)
    ensures searchTerm == [] && HasNoKeys(f) ==> r == ids
    ensures IsSubsequence(r, ids)
    ensures !(searchTerm == [] && HasNoKeys(f)) ==>
              forall id :: id in r ==> id in ids && id in tasks && BoardMatches(tasks[id], searchTerm, f)
    ensures forall id :: id in ids && id in tasks && BoardMatches(tasks[id], searchTerm, f) ==> id in r
  {
    if searchTerm == [] && HasNoKeys(f) then
      SubsequenceOfItself(ids);
      ids
    else KeepMatching(ids, tasks, searchTerm, f)
  }

  /** Narrowing keeps every copy of a matching id and no copy of any other. */
  lemma VisibleIdsCounts(ids: seq<TaskId>, tasks: map<TaskId, Task>, searchTerm: string, f: Filters)
    requires SearchableIds(ids, tasks, searchTerm)
    requires !(searchTerm == [] && HasNoKeys(f))
    ensures forall id :: multiset(VisibleIds(ids, tasks, searchTerm, f))[id] ==
              if id in ids && id in tasks && BoardMatches(tasks[id], searchTerm, f) then multiset(ids)[id] else 0
  {
    KeepMatchingCounts(ids, tasks, searchTerm, f);
  }
}
