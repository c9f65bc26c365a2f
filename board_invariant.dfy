/** The consistency of a board: every stored task sits in exactly one
    column at exactly one position, no column lists an id without a task,
    every task's `status` is the id of the column holding it, and every
    task's `id` key is the key it is stored under. The hook never checks any
    of this; the lemmas below say which updates keep it and under which
    conditions on their arguments. */
module BoardInvariant {
  import opened BoardTypes
  import opened TaskUtils
  import opened BoardUpdates

  /** All ids the columns hold, counted with their multiplicity. */
  ghost function AllIds(columns: seq<Column>): multiset<TaskId> {
    if columns == [] then multiset{} else multiset(columns[0].taskIds) + AllIds(columns[1..])
  }

  /** The number of ids the columns hold. */
  function TotalLength(columns: seq<Column>): nat {
    if columns == [] then 0 else |columns[0].taskIds| + TotalLength(columns[1..])
  }

  ghost predicate DistinctColumnIds(columns: seq<Column>) {
    forall i, j :: 0 <= i < j < |columns| ==> columns[i].id != columns[j].id
  }

  ghost predicate StatusMatches(columns: seq<Column>, tasks: map<TaskId, Task>) {
    forall i, x :: 0 <= i < |columns| && x in columns[i].taskIds ==>
      x in tasks && tasks[x].status == Some(columns[i].id)
  }

  ghost predicate Wellformed(columns: seq<Column>, tasks: map<TaskId, Task>) {
    && DistinctColumnIds(columns)
    && AllIds(columns) == multiset(tasks.Keys)
    && (forall id :: id in tasks ==> tasks[id].id == Some(id))
    && StatusMatches(columns, tasks)
  }

  // ------------------------------------------------------ counting lemmas

  lemma {:induction false} AllIdsConcat(a: seq<Column>, b: seq<Column>)
    ensures AllIds(a + b) == AllIds(a) + AllIds(b)
    decreases |a|
  {
    if a == [] {
      assert a + b == b;
    } else {
      assert (a + b)[0] == a[0];
      assert (a + b)[1..] == a[1..] + b;
      AllIdsConcat(a[1..], b);
      calc {
        AllIds(a + b);
        multiset(a[0].taskIds) + AllIds(a[1..] + b);
        multiset(a[0].taskIds) + (AllIds(a[1..]) + AllIds(b));
        AllIds(a) + AllIds(b);
      }
    }
  }

  /** Replacing one column changes the total by exactly that column's ids. */
  lemma {:induction false} AllIdsUpdate(columns: seq<Column>, i: nat, c: Column)
    requires i < |columns|
    ensures AllIds(columns[i := c]) + multiset(columns[i].taskIds) == AllIds(columns) + multiset(c.taskIds)
  {
    var before, after := columns[..i], columns[i + 1..];
    assert columns == before + ([columns[i]] + after);
    assert columns[i := c] == before + ([c] + after);
    AllIdsConcat(before, [columns[i]] + after);
    AllIdsConcat(before, [c] + after);
    assert ([columns[i]] + after)[1..] == after;
    assert ([c] + after)[1..] == after;
  }

  /** Columns that hold the same ids, position by position, hold the same ids in all. */
  lemma {:induction false} AllIdsPointwise(a: seq<Column>, b: seq<Column>)
    requires |a| == |b|
    requires forall i :: 0 <= i < |a| ==> multiset(a[i].taskIds) == multiset(b[i].taskIds)
    ensures AllIds(a) == AllIds(b)
    decreases |a|
  {
    if a != [] {
      AllIdsPointwise(a[1..], b[1..]);
    }
  }

  /** Two columns that trade ids between themselves leave the total alone. */
  lemma {:induction false} AllIdsTwo(a: seq<Column>, b: seq<Column>, p: nat, q: nat)
    requires |a| == |b| && p < |a| && q < |a| && p != q
    requires forall i :: 0 <= i < |a| && i != p && i != q ==> multiset(a[i].taskIds) == multiset(b[i].taskIds)
    requires multiset(a[p].taskIds) + multiset(a[q].taskIds) == multiset(b[p].taskIds) + multiset(b[q].taskIds)
    ensures AllIds(a) == AllIds(b)
  {
    var a1 := a[p := b[p]];
    var a2 := a1[q := b[q]];
    AllIdsUpdate(a, p, b[p]);
    AllIdsUpdate(a1, q, b[q]);
    var ap, aq, bp, bq := multiset(a[p].taskIds), multiset(a[q].taskIds), multiset(b[p].taskIds), multiset(b[q].taskIds);
    var t, t1, t2 := AllIds(a), AllIds(a1), AllIds(a2);
    assert t1 + ap == t + bp;
    assert t2 + aq == t1 + bq;
    forall x
      ensures t2[x] == t[x]
    {
      assert (t1 + ap)[x] == (t + bp)[x];
      assert (t2 + aq)[x] == (t1 + bq)[x];
      assert (ap + aq)[x] == (bp + bq)[x];
    }
    assert t2 == t;
    AllIdsPointwise(a2, b);
  }

  /** A column's ids are part of the total. */
  lemma {:induction false} AllIdsHasColumn(columns: seq<Column>, i: nat, x: TaskId)
    requires i < |columns|
    ensures AllIds(columns)[x] >= multiset(columns[i].taskIds)[x]
  {
    var emptied := columns[i].(taskIds := []);
    AllIdsUpdate(columns, i, emptied);
    assert multiset(emptied.taskIds) == multiset{};
    assert (AllIds(columns[i := emptied]) + multiset(columns[i].taskIds))[x]
        == (AllIds(columns) + multiset(emptied.taskIds))[x];
  }

  /** Two different columns' ids are both part of the total. */
  lemma {:induction false} AllIdsHasTwoColumns(columns: seq<Column>, i: nat, j: nat, x: TaskId)
    requires i < |columns| && j < |columns| && i != j
    ensures AllIds(columns)[x] >= multiset(columns[i].taskIds)[x] + multiset(columns[j].taskIds)[x]
  {
    var emptied := columns[i].(taskIds := []);
    AllIdsUpdate(columns, i, emptied);
    assert multiset(emptied.taskIds) == multiset{};
    assert (AllIds(columns[i := emptied]) + multiset(columns[i].taskIds))[x]
        == (AllIds(columns) + multiset(emptied.taskIds))[x];
    AllIdsHasColumn(columns[i := emptied], j, x);
  }

  /** A well-formed board holds each stored id once, in one column. */
  lemma {:induction false} HeldOnce(columns: seq<Column>, tasks: map<TaskId, Task>, i: nat, x: TaskId)
    requires Wellformed(columns, tasks)
    requires i < |columns| && x in columns[i].taskIds
    ensures multiset(columns[i].taskIds)[x] == 1
    ensures forall j :: 0 <= j < |columns| && j != i ==> x !in columns[j].taskIds
  {
    AllIdsHasColumn(columns, i, x);
    forall j | 0 <= j < |columns| && j != i
      ensures x !in columns[j].taskIds
    {
      AllIdsHasTwoColumns(columns, i, j, x);
    }
  }

  lemma {:induction false} AllIdsSize(columns: seq<Column>)
    ensures |AllIds(columns)| == TotalLength(columns)
    decreases |columns|
  {
    if columns != [] {
      AllIdsSize(columns[1..]);
    }
  }

  /** On a well-formed board the columns hold as many ids as there are tasks. */
  lemma {:induction false} WellformedCounts(columns: seq<Column>, tasks: map<TaskId, Task>)
    requires Wellformed(columns, tasks)
    ensures TotalLength(columns) == |tasks|
  {
    AllIdsSize(columns);
    assert |multiset(tasks.Keys)| == |tasks.Keys|;
  }

  // --------------------------------------------------------- the updaters

  /** Reordering inside a column keeps a board well-formed. */
  lemma {:induction false} ReorderKeepsWellformed(columns: seq<Column>, tasks: map<TaskId, Task>,
                                                  columnId: ColumnId, fromIndex: nat, toIndex: nat)
    requires Wellformed(columns, tasks)
    requires ReorderIndexValid(columns, columnId, fromIndex)
    ensures Wellformed(ReorderInColumn(columns, columnId, fromIndex, toIndex), tasks)
  {
    var r := ReorderInColumn(columns, columnId, fromIndex, toIndex);
    forall i | 0 <= i < |r|
      ensures r[i].id == columns[i].id && multiset(r[i].taskIds) == multiset(columns[i].taskIds)
    {
      if columns[i].id == columnId {
        ReorderPermutes(columns[i].taskIds, fromIndex, toIndex);
      }
    }
    SameIdsKeepWellformed(columns, r, tasks);
  }

  /** Columns with the same ids, each holding the same ids as before in
      some order, keep a board well-formed. */
  lemma {:induction false} SameIdsKeepWellformed(columns: seq<Column>, r: seq<Column>, tasks: map<TaskId, Task>)
    requires Wellformed(columns, tasks)
    requires |r| == |columns|
    requires forall i :: 0 <= i < |r| ==>
               r[i].id == columns[i].id && multiset(r[i].taskIds) == multiset(columns[i].taskIds)
    ensures Wellformed(r, tasks)
  {
    AllIdsPointwise(r, columns);
    forall i, x | 0 <= i < |r| && x in r[i].taskIds
      ensures x in tasks && tasks[x].status == Some(r[i].id)
    {
      assert x in multiset(r[i].taskIds);
      assert x in columns[i].taskIds;
    }
  }

  /** Two columns of a board with distinct column ids have different ids. */
  lemma DistinctAt(columns: seq<Column>, i: nat, j: nat)
    requires DistinctColumnIds(columns)
    requires i < |columns| && j < |columns| && i != j
    ensures columns[i].id != columns[j].id
  {
    if i < j {
      assert columns[i].id != columns[j].id;
    } else {
      assert columns[j].id != columns[i].id;
    }
  }

  lemma SameColumnIds(columns: seq<Column>, r: seq<Column>)
    requires DistinctColumnIds(columns)
    requires |r| == |columns| && forall i :: 0 <= i < |r| ==> r[i].id == columns[i].id
    ensures DistinctColumnIds(r)
  {
    forall i, j | 0 <= i < j < |r|
      ensures r[i].id != r[j].id
    {
      assert columns[i].id != columns[j].id;
    }
  }

  /** A move between two different columns of a well-formed board, whose
      source index really holds the task being moved, keeps the board
      well-formed once the task's status is set to the destination. */
  lemma {:induction false} MoveKeepsWellformed(columns: seq<Column>, tasks: map<TaskId, Task>, taskId: TaskId,
                                               sourceColumnId: ColumnId, destinationColumnId: ColumnId,
                                               sourceIndex: nat, destinationIndex: nat)
    requires Wellformed(columns, tasks)
    requires sourceColumnId != destinationColumnId
    requires FindColumn(columns, sourceColumnId).Some? && FindColumn(columns, destinationColumnId).Some?
    requires sourceIndex < |columns[FindColumn(columns, sourceColumnId).value].taskIds|
    requires columns[FindColumn(columns, sourceColumnId).value].taskIds[sourceIndex] == taskId
    ensures Wellformed(MoveAcrossColumns(columns, sourceColumnId, destinationColumnId, sourceIndex, destinationIndex),
                       WithStatus(tasks, taskId, destinationColumnId))
  {
    var s, d := FindColumn(columns, sourceColumnId).value, FindColumn(columns, destinationColumnId).value;
    var r := MoveAcrossColumns(columns, sourceColumnId, destinationColumnId, sourceIndex, destinationIndex);
    MoveConserves(columns[s].taskIds, columns[d].taskIds, sourceIndex, destinationIndex);
    MoveShape(columns, sourceColumnId, destinationColumnId, sourceIndex, destinationIndex);
    TradeKeepsWellformed(columns, tasks, r, taskId, s, d);
  }

  /** Two different columns trading one task, the one column losing it and
      the other gaining it, keep a board well-formed once the task's status
      names the column that gained it. */
  lemma {:induction false} TradeKeepsWellformed(columns: seq<Column>, tasks: map<TaskId, Task>, r: seq<Column>,
                                                taskId: TaskId, s: nat, d: nat)
    requires Wellformed(columns, tasks)
    requires |r| == |columns| && s < |r| && d < |r| && s != d
    requires forall i :: 0 <= i < |r| ==> r[i].id == columns[i].id
    requires forall i :: 0 <= i < |r| && i != s && i != d ==> r[i] == columns[i]
    requires taskId in columns[s].taskIds
    requires multiset(r[s].taskIds) + multiset{taskId} == multiset(columns[s].taskIds)
    requires multiset(r[d].taskIds) == multiset(columns[d].taskIds) + multiset{taskId}
    ensures Wellformed(r, WithStatus(tasks, taskId, columns[d].id))
  {
    var tasks' := WithStatus(tasks, taskId, columns[d].id);
    SameColumnIds(columns, r);
    AllIdsTwo(columns, r, s, d);
    HeldOnce(columns, tasks, s, taskId);
    assert tasks'.Keys == tasks.Keys;
    forall x | x in r[s].taskIds
      ensures x in columns[s].taskIds && x != taskId
    {
      assert x in multiset(r[s].taskIds);
      assert (multiset(r[s].taskIds) + multiset{taskId})[x] == multiset(columns[s].taskIds)[x];
      assert x in multiset(columns[s].taskIds);
      assert (multiset(r[s].taskIds) + multiset{taskId})[taskId] == multiset(columns[s].taskIds)[taskId];
      assert multiset(r[s].taskIds)[taskId] == 0;
    }
    forall x | x in r[d].taskIds
      ensures x == taskId || x in columns[d].taskIds
    {
      assert x in multiset(r[d].taskIds);
    }
    MoveKeepsStatus(columns, tasks, r, taskId, s, d);
  }

  /** Which columns a move between two different columns of a board with
      distinct column ids rewrites, and how. */
  lemma {:induction false} MoveShape(columns: seq<Column>, sourceColumnId: ColumnId, destinationColumnId: ColumnId,
                                     sourceIndex: nat, destinationIndex: nat)
    requires DistinctColumnIds(columns)
    requires sourceColumnId != destinationColumnId
    requires FindColumn(columns, sourceColumnId).Some? && FindColumn(columns, destinationColumnId).Some?
    requires sourceIndex < |columns[FindColumn(columns, sourceColumnId).value].taskIds|
    ensures var s, d := FindColumn(columns, sourceColumnId).value, FindColumn(columns, destinationColumnId).value;
            var r := MoveAcrossColumns(columns, sourceColumnId, destinationColumnId, sourceIndex, destinationIndex);
            var moved := MoveTaskBetweenColumns(columns[s].taskIds, columns[d].taskIds, sourceIndex, destinationIndex);
            && |r| == |columns| && s != d
            && (forall i :: 0 <= i < |r| ==> r[i].id == columns[i].id)
            && r[s].taskIds == moved.source && r[d].taskIds == moved.destination
            && (forall i :: 0 <= i < |r| && i != s && i != d ==> r[i] == columns[i])
  {
    var s, d := FindColumn(columns, sourceColumnId).value, FindColumn(columns, destinationColumnId).value;
    var r := MoveAcrossColumns(columns, sourceColumnId, destinationColumnId, sourceIndex, destinationIndex);
    forall i | 0 <= i < |columns| && i != s && i != d
      ensures r[i] == columns[i]
    {
      DistinctAt(columns, i, s);
      DistinctAt(columns, i, d);
    }
  }

  /** The status part of the move: the moved task now reports its new
      column, every other task stays where its status says. */
  lemma {:induction false} MoveKeepsStatus(columns: seq<Column>, tasks: map<TaskId, Task>, r: seq<Column>,
                                           taskId: TaskId, s: nat, d: nat)
    requires StatusMatches(columns, tasks)
    requires |r| == |columns| && s < |r| && d < |r| && s != d
    requires forall i :: 0 <= i < |r| ==> r[i].id == columns[i].id
    requires forall i :: 0 <= i < |r| && i != s && i != d ==> r[i] == columns[i]
    requires forall j :: 0 <= j < |columns| && j != s ==> taskId !in columns[j].taskIds
    requires forall x :: x in r[s].taskIds ==> x in columns[s].taskIds && x != taskId
    requires forall x :: x in r[d].taskIds ==> x == taskId || x in columns[d].taskIds
    requires taskId in tasks
    ensures StatusMatches(r, WithStatus(tasks, taskId, columns[d].id))
  {
    var tasks' := WithStatus(tasks, taskId, columns[d].id);
    forall i, x | 0 <= i < |r| && x in r[i].taskIds
      ensures x in tasks' && tasks'[x].status == Some(r[i].id)
    {
      if i != d && i != s {
        assert x in columns[i].taskIds;
      }
    }
  }

  /** A move whose source and destination are the same column drops the
      moved task from that column: its id is then held by no column while
      its record stays, so the board is no longer well-formed. */
  lemma {:induction false} SameColumnMoveLosesTask(columns: seq<Column>, tasks: map<TaskId, Task>, columnId: ColumnId,
                                                   sourceIndex: nat, destinationIndex: nat)
    requires Wellformed(columns, tasks)
    requires FindColumn(columns, columnId).Some?
    requires sourceIndex < |columns[FindColumn(columns, columnId).value].taskIds|
    ensures var c := FindColumn(columns, columnId).value;
            var r := MoveAcrossColumns(columns, columnId, columnId, sourceIndex, destinationIndex);
            && r[c].taskIds == RemoveAt(columns[c].taskIds, sourceIndex)
            && columns[c].taskIds[sourceIndex] !in AllIds(r)
            && !Wellformed(r, WithStatus(tasks, columns[c].taskIds[sourceIndex], columnId))
  {
    var c := FindColumn(columns, columnId).value;
    var r := MoveAcrossColumns(columns, columnId, columnId, sourceIndex, destinationIndex);
    var x := columns[c].taskIds[sourceIndex];
    var removed := RemoveAt(columns[c].taskIds, sourceIndex);
    assert r[c].taskIds == removed;
    assert r == columns[c := r[c]] by {
      forall i | 0 <= i < |r| && i != c
        ensures r[i] == columns[i]
      {
        DistinctAt(columns, i, c);
      }
    }
    AllIdsUpdate(columns, c, r[c]);
    RemoveAtCounts(columns[c].taskIds, sourceIndex);
    HeldOnce(columns, tasks, c, x);
    assert (AllIds(r) + multiset(columns[c].taskIds))[x] == (AllIds(columns) + multiset(removed))[x];
    assert (multiset(removed) + multiset{x})[x] == multiset(columns[c].taskIds)[x];
    assert AllIds(columns)[x] == 1 by {
      assert x in columns[c].taskIds;
      assert x in tasks;
    }
    assert AllIds(r)[x] == 0;
    assert x in WithStatus(tasks, x, columnId).Keys;
  }

  /** Creating a task under an unused key in an existing column keeps a
      board well-formed. */
  lemma {:induction false} CreateKeepsWellformed(columns: seq<Column>, tasks: map<TaskId, Task>, columnId: ColumnId,
                                                 taskData: Task, freshId: TaskId, now: Timestamp)
    requires Wellformed(columns, tasks)
    requires FindColumn(columns, columnId).Some?
    requires NewTaskKey(columnId, taskData, freshId, now) !in tasks
    ensures var key := NewTaskKey(columnId, taskData, freshId, now);
            Wellformed(AppendToColumn(columns, columnId, key),
                       tasks[key := NewTask(columnId, taskData, freshId, now)])
  {
    var key := NewTaskKey(columnId, taskData, freshId, now);
    var c := FindColumn(columns, columnId).value;
    var r := AppendToColumn(columns, columnId, key);
    var tasks' := tasks[key := NewTask(columnId, taskData, freshId, now)];
    assert r == columns[c := r[c]] by {
      forall i | 0 <= i < |r| && i != c
        ensures r[i] == columns[i]
      {
        DistinctAt(columns, i, c);
      }
    }
    assert r[c].taskIds == columns[c].taskIds + [key];
    SameColumnIds(columns, r);
    AllIdsUpdate(columns, c, r[c]);
    assert multiset(r[c].taskIds) == multiset(columns[c].taskIds) + multiset{key};
    assert AllIds(r) == AllIds(columns) + multiset{key} by {
      forall y
        ensures AllIds(r)[y] == (AllIds(columns) + multiset{key})[y]
      {
        assert (AllIds(r) + multiset(columns[c].taskIds))[y] == (AllIds(columns) + multiset(r[c].taskIds))[y];
      }
    }
    assert multiset(tasks'.Keys) == multiset(tasks.Keys) + multiset{key} by {
      assert tasks'.Keys == tasks.Keys + {key};
    }
    CreateKeepsStatus(columns, tasks, r, c, key, NewTask(columnId, taskData, freshId, now));
  }

  /** The status part of a create: the new id sits in the column its record names. */
  lemma {:induction false} CreateKeepsStatus(columns: seq<Column>, tasks: map<TaskId, Task>, r: seq<Column>,
                                             c: nat, key: TaskId, t: Task)
    requires StatusMatches(columns, tasks)
    requires key !in tasks
    requires |r| == |columns| && c < |r|
    requires forall i :: 0 <= i < |r| && i != c ==> r[i] == columns[i]
    requires r[c].id == columns[c].id && r[c].taskIds == columns[c].taskIds + [key]
    requires t.status == Some(columns[c].id)
    ensures StatusMatches(r, tasks[key := t])
  {
    var tasks' := tasks[key := t];
    forall i, x | 0 <= i < |r| && x in r[i].taskIds
      ensures x in tasks' && tasks'[x].status == Some(r[i].id)
    {
      if x != key {
        assert x in columns[i].taskIds;
      }
    }
  }

  /** Updating a stored task keeps a board well-formed when the update
      leaves its `id` and `status` as they are. */
  lemma {:induction false} UpdateKeepsWellformed(columns: seq<Column>, tasks: map<TaskId, Task>, taskId: TaskId, updates: Task)
    requires Wellformed(columns, tasks)
    requires taskId in tasks
    requires updates.id.None? || updates.id == Some(taskId)
    requires updates.status.None? || updates.status == tasks[taskId].status
    ensures Wellformed(columns, UpdateEntry(tasks, taskId, updates))
  {
    var tasks' := UpdateEntry(tasks, taskId, updates);
    assert tasks'.Keys == tasks.Keys;
  }

  /** Deleting a task keeps a board well-formed: the record and every
      occurrence of its id go together. */
  lemma {:induction false} DeleteKeepsWellformed(columns: seq<Column>, tasks: map<TaskId, Task>, taskId: TaskId)
    requires Wellformed(columns, tasks)
    ensures Wellformed(StripTask(columns, taskId), tasks - {taskId})
  {
    var r := StripTask(columns, taskId);
    var tasks' := tasks - {taskId};
    assert DistinctColumnIds(r) by {
      forall i, j | 0 <= i < j < |r|
        ensures r[i].id != r[j].id
      {
        assert r[i].id == columns[i].id && r[j].id == columns[j].id;
      }
    }
    StripAllIds(columns, taskId);
    KeysWithout(tasks, taskId);
    StripKeepsStatus(columns, tasks, taskId);
  }

  /** On a well-formed board, deleting an id that has no record changes
      neither the records nor the columns. */
  lemma DeleteAbsentChangesNothing(columns: seq<Column>, tasks: map<TaskId, Task>, taskId: TaskId)
    requires Wellformed(columns, tasks)
    requires taskId !in tasks
    ensures StripTask(columns, taskId) == columns && tasks - {taskId} == tasks
  {
    forall k | 0 <= k < |columns|
      ensures taskId !in columns[k].taskIds
    {
    }
    StripAbsentTask(columns, taskId);
  }

  lemma KeysWithout(tasks: map<TaskId, Task>, taskId: TaskId)
    ensures multiset((tasks - {taskId}).Keys) == multiset(tasks.Keys)[taskId := 0]
  {
    var tasks' := tasks - {taskId};
    forall x
      ensures multiset(tasks'.Keys)[x] == multiset(tasks.Keys)[taskId := 0][x]
    {
      assert x in tasks'.Keys <==> x in tasks.Keys && x != taskId;
    }
  }

  lemma {:induction false} StripKeepsStatus(columns: seq<Column>, tasks: map<TaskId, Task>, taskId: TaskId)
    requires StatusMatches(columns, tasks)
    ensures StatusMatches(StripTask(columns, taskId), tasks - {taskId})
  {
    var r := StripTask(columns, taskId);
    var tasks' := tasks - {taskId};
    forall i, x | 0 <= i < |r| && x in r[i].taskIds
      ensures x in tasks' && tasks'[x].status == Some(r[i].id)
    {
      assert r[i].taskIds == Without(columns[i].taskIds, taskId);
    }
  }

  lemma {:induction false} StripAllIds(columns: seq<Column>, taskId: TaskId)
    ensures AllIds(StripTask(columns, taskId)) == AllIds(columns)[taskId := 0]
    decreases |columns|
  {
    if columns != [] {
      StripAllIds(columns[1..], taskId);
      WithoutCounts(columns[0].taskIds, taskId);
      assert StripTask(columns, taskId)[1..] == StripTask(columns[1..], taskId);
    }
  }

  // ---------------------------------------------------- concrete scenarios

  /** `todo = [t1, t2]`, `doing = []`: moving t1 from todo to the top of
      doing leaves `todo = [t2]`, `doing = [t1]`. */
  lemma MoveExample()
    ensures MoveAcrossColumns([Column("todo", "To do", ["t1", "t2"]), Column("doing", "Doing", [])],
                              "todo", "doing", 0, 0)
         == [Column("todo", "To do", ["t2"]), Column("doing", "Doing", ["t1"])]
  {
    var columns := [Column("todo", "To do", ["t1", "t2"]), Column("doing", "Doing", [])];
    assert FindColumn(columns, "todo") == Some(0);
    assert FindColumn(columns[1..], "doing") == Some(0);
    assert FindColumn(columns, "doing") == Some(1);
    var moved := MoveTaskBetweenColumns(["t1", "t2"], [], 0, 0);
    assert moved.source == ["t2"];
    assert moved.destination == ["t1"];
    var r := MoveAcrossColumns(columns, "todo", "doing", 0, 0);
    assert r[0] == Column("todo", "To do", ["t2"]);
    assert r[1] == Column("doing", "Doing", ["t1"]);
  }
}
