/** The board state the kanban hook keeps: the columns, the task records,
    the search term and the attribute filters, with the operations the
    board offers on them. Each operation replaces fields with the result of
    the matching updater function; the board's consistency (see
    `BoardInvariant.Wellformed`) is kept whenever the arguments describe a
    real move, a fresh key or a harmless patch. */
module KanbanBoard {
  import opened BoardTypes
  import opened TaskUtils
  import opened BoardUpdates
  import opened BoardInvariant

  class Board {
    var columns: seq<Column>
    var tasks: map<TaskId, Task>
    var searchTerm: string
    var filters: Filters

    /** The board's consistency over its current fields. */
    ghost predicate Valid()
      reads this
    {
      Wellformed(columns, tasks)
    }

    /** A board over the given columns and records, with no search term
        and no filters. */
    constructor (initialColumns: seq<Column>, initialTasks: map<TaskId, Task>)
      ensures columns == initialColumns && tasks == initialTasks
      ensures searchTerm == [] && filters == NoFilters
    {
      columns := initialColumns;
      tasks := initialTasks;
      searchTerm := [];
      filters := NoFilters;
    }

    method SetSearchTerm(term: string)
      modifies this
      ensures searchTerm == term
      ensures columns == old(columns) && tasks == old(tasks) && filters == old(filters)
    {
      searchTerm := term;
    }

    method SetFilters(f: Filters)
      modifies this
      ensures filters == f
      ensures columns == old(columns) && tasks == old(tasks) && searchTerm == old(searchTerm)
    {
      filters := f;
    }

    /** Moves the id at `fromIndex` of column `columnId` to `toIndex` of the
        same column. */
    method MoveTaskInColumn(columnId: ColumnId, fromIndex: nat, toIndex: nat)
      requires ReorderIndexValid(columns, columnId, fromIndex)
      modifies this
      ensures columns == ReorderInColumn(old(columns), columnId, fromIndex, toIndex)
      ensures tasks == old(tasks) && searchTerm == old(searchTerm) && filters == old(filters)
      ensures old(Valid()) ==> Valid()
    {
      if Valid() {
        ReorderKeepsWellformed(columns, tasks, columnId, fromIndex, toIndex);
      }
      columns := ReorderInColumn(columns, columnId, fromIndex, toIndex);
    }

    /** Moves the id at `sourceIndex` of one column to `destinationIndex`
        of another and sets the task's status to the destination. The status
        is written even when a column is missing and the columns stay as
        they were. */
    method MoveTaskBetweenColumnsHandler(taskId: TaskId, sourceColumnId: ColumnId, destinationColumnId: ColumnId,
                                         sourceIndex: nat, destinationIndex: nat)
      requires MoveIndexValid(columns, sourceColumnId, destinationColumnId, sourceIndex)
      modifies this
      ensures columns == MoveAcrossColumns(old(columns), sourceColumnId, destinationColumnId,
                                           sourceIndex, destinationIndex)
      ensures tasks == WithStatus(old(tasks), taskId, destinationColumnId)
      ensures searchTerm == old(searchTerm) && filters == old(filters)
      ensures old(Valid()) && sourceColumnId != destinationColumnId
              && old(FindColumn(columns, sourceColumnId)).Some?
              && old(FindColumn(columns, destinationColumnId)).Some?
              && old(columns[FindColumn(columns, sourceColumnId).value].taskIds[sourceIndex]) == taskId
              ==> Valid()
    {
      var s := FindColumn(columns, sourceColumnId);
      var d := FindColumn(columns, destinationColumnId);
      if Valid() && sourceColumnId != destinationColumnId && s.Some? && d.Some?
         && columns[s.value].taskIds[sourceIndex] == taskId {
        MoveKeepsWellformed(columns, tasks, taskId, sourceColumnId, destinationColumnId,
                            sourceIndex, destinationIndex);
      }
      columns := MoveAcrossColumns(columns, sourceColumnId, destinationColumnId, sourceIndex, destinationIndex);
      tasks := WithStatus(tasks, taskId, destinationColumnId);
    }

    /** Stores a new task in column `columnId` and appends its id to that
        column. `freshId` stands for the generated `task-<milliseconds>` id
        and `now` for the creation time; `taskData` may override both. */
    method CreateTask(columnId: ColumnId, taskData: Task, freshId: TaskId, now: Timestamp)
      returns (newTask: Task)
      modifies this
      ensures newTask == NewTask(columnId, taskData, freshId, now)
      ensures newTask.status == Some(columnId) && newTask.id.Some?
      ensures tasks == old(tasks)[newTask.id.value := newTask]
      ensures columns == AppendToColumn(old(columns), columnId, newTask.id.value)
      ensures searchTerm == old(searchTerm) && filters == old(filters)
      ensures old(Valid()) && old(FindColumn(columns, columnId)).Some? && newTask.id.value !in old(tasks)
              ==> Valid()
    {
      newTask := NewTask(columnId, taskData, freshId, now);
      var key := newTask.id.value;
      if Valid() && FindColumn(columns, columnId).Some? && key !in tasks {
        CreateKeepsWellformed(columns, tasks, columnId, taskData, freshId, now);
      }
      tasks := tasks[key := newTask];
      columns := AppendToColumn(columns, columnId, key);
    }

    /** Spreads `updates` over the record stored under `taskId`. */
    method UpdateTask(taskId: TaskId, updates: Task)
      modifies this
      ensures tasks == UpdateEntry(old(tasks), taskId, updates)
      ensures columns == old(columns) && searchTerm == old(searchTerm) && filters == old(filters)
      ensures old(Valid()) && taskId in old(tasks)
              && (updates.id.None? || updates.id == Some(taskId))
              && (updates.status.None? || updates.status == old(tasks[taskId].status))
              ==> Valid()
    {
      if Valid() && taskId in tasks && (updates.id.None? || updates.id == Some(taskId))
         && (updates.status.None? || updates.status == tasks[taskId].status) {
        UpdateKeepsWellformed(columns, tasks, taskId, updates);
      }
      tasks := UpdateEntry(tasks, taskId, updates);
    }

    /** Removes the record stored under `taskId` and the id from every column. */
    method DeleteTask(taskId: TaskId)
      modifies this
      ensures tasks == old(tasks) - {taskId}
      ensures columns == StripTask(old(columns), taskId)
      ensures searchTerm == old(searchTerm) && filters == old(filters)
      ensures old(Valid()) ==> Valid()
    {
      if Valid() {
        DeleteKeepsWellformed(columns, tasks, taskId);
      }
      tasks := tasks - {taskId};
      columns := StripTask(columns, taskId);
    }

    /** The ids of `columnTasks` the board shows under the current search
        term and filters, in their original order. */
    function GetFilteredTasks(columnTasks: seq<TaskId>): (r: seq<TaskId>)
      reads this
      requires SearchableIds(columnTasks, tasks, searchTerm)
      ensures IsSubsequence(r, columnTasks)
      ensures searchTerm == [] && HasNoKeys(filters) ==> r == columnTasks
      ensures !(searchTerm == [] && HasNoKeys(filters)) ==>
                forall id :: id in r <==> id in columnTasks && id in tasks && BoardMatches(tasks[id], searchTerm, filters)
      ensures !(searchTerm == [] && HasNoKeys(filters)) ==>
                forall id :: multiset(r)[id] ==
                  if id in columnTasks && id in tasks && BoardMatches(tasks[id], searchTerm, filters)
                  then multiset(columnTasks)[id] else 0
    {
      if !(searchTerm == [] && HasNoKeys(filters)) then
        VisibleIdsCounts(columnTasks, tasks, searchTerm, filters);
        VisibleIds(columnTasks, tasks, searchTerm, filters)
      else
        VisibleIds(columnTasks, tasks, searchTerm, filters)
    }
  }
}
