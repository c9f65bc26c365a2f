# Kanban board state engine in Dafny

This project models the state engine of the `kanban-component` React
package. It covers three pieces:

- The list helpers of `src/utils/task.utils.js`. `reorderTasks` moves an id inside one list. `moveTaskBetweenColumns` moves an id from one list to another. `filterTasks` keeps the tasks that match a search term and attribute filters. `getInitials` turns a name into at most two capitals.
- The board hook of `src/hooks/useKanbanBoard.js`. It is modelled as the class `KanbanBoard.Board`, with fields `columns`, `tasks`, `searchTerm` and `filters`. Each handler is one method. It replaces fields with the value of an updater function from `BoardUpdates`.
- The drag session of `src/hooks/useDragAndDrop.js`. It is modelled as the class `DragAndDrop.DragSession`, which holds one `dragState` record and has the four handlers.

A task record is a JavaScript object whose keys may be absent. So every
field of `BoardTypes.Task` is an `Option`. `BoardTypes.Spread` is object
spread (`{ ...a, ...b }`): a key present on the right wins.

The hook validates nothing. Its consistency is therefore a separate
predicate, `BoardInvariant.Wellformed`. It requires four things:

- column ids are distinct;
- every stored task sits in exactly one column, once;
- no column lists an id without a record;
- every record's `status` is the id of the column holding it, and its `id` is its key.

The lemmas of `BoardInvariant` say which calls keep this predicate and
under which conditions on the arguments. The Board methods carry those
conditions as `old(Valid()) && … ==> Valid()` postconditions.

Files:

- `board_types.dfy`: module `BoardTypes`, the shared entities.
- `task_utils.dfy`: module `TaskUtils`, the list helpers.
- `board_updates.dfy`: module `BoardUpdates`, the hook's pure updaters.
- `board_invariant.dfy`: module `BoardInvariant`, board consistency and the lemmas about it.
- `kanban_board.dfy`: module `KanbanBoard`, the `Board` class.
- `drag_and_drop.dfy`: module `DragAndDrop`, the drag session.

### Notes on the code's behaviour

The code validates little. The model keeps each of these behaviours as the code has it:

- Moving "between columns" with the same source and destination column does not reorder. The source branch of the column map wins, so the task's id disappears from the board. `BoardInvariant.SameColumnMoveLosesTask` proves this.
- The cross-column move does not check that the source position holds `taskId`. Consistency is kept only when it does (`BoardInvariant.MoveKeepsWellformed`).
- If a column is missing, the move leaves the columns alone but still writes the status.
- `createTask` lets `taskData` replace the generated `id` and `createdAt`.
- `updateTask` lets `updates` replace `id` and `status`.
- No operation reports an error. Out-of-range start indices are excluded by preconditions.
- The reorder inserts at `toIndex` in the list as it stands once the moved id has been taken out.
- The drag handlers are unguarded. A second `start` replaces the first drag, and `over` while idle records a target (`DragAndDrop.HoverWhileIdle`). End and cancel always reset.

## Model

| member | source | states |
|---|---|---|
| BoardTypes.SpreadUnit | src/hooks/useKanbanBoard.js:58-62 | spreading `{}` (or a missing record) on either side changes nothing |
| BoardTypes.SpreadIdempotent | src/hooks/useKanbanBoard.js:92 | applying the same patch twice equals applying it once |
| BoardTypes.SpreadAssociative | src/hooks/useKanbanBoard.js:68-73 | nested spreads regroup freely, so `{id, createdAt, ...taskData, status}` is one left-to-right overlay |
| BoardTypes.Spread | src/hooks/useKanbanBoard.js:58-62 | object spread on task records; its key-by-key meaning is stated by `SpreadKeys` |
| BoardTypes.SpreadKeys | src/hooks/useKanbanBoard.js:68-73 | for each of the nine keys, a key present on the right wins and a key absent on the right keeps the left value; this determines the spread completely |
| TaskUtils.Clamp | src/utils/task.utils.js:73 | the position splice acts on is the requested index, or the list end when the index is past it |
| TaskUtils.RemoveAt | src/utils/task.utils.js:72 | `splice(i, 1)` on a copy: one shorter, elements before `i` kept, later ones shifted down by one |
| TaskUtils.RemoveAtCounts | src/utils/task.utils.js:72 | the removed element is exactly `s[i]`; the multiset loses that one element |
| TaskUtils.InsertAt | src/utils/task.utils.js:73 | `splice(j, 0, x)` on a copy: `x` at the clamped position, the prefix kept, the rest shifted up by one |
| TaskUtils.InsertAtCounts | src/utils/task.utils.js:73 | the multiset gains exactly `x` |
| TaskUtils.ReorderTasks | src/utils/task.utils.js:70-75 | same length; `s[startIndex]` lands at the clamped `endIndex`; elements outside the two indices keep their positions; those between them shift by one toward the vacated slot |
| TaskUtils.ReorderPermutes | src/utils/task.utils.js:70-75 | the reordered list is a permutation of the input (same multiset) |
| TaskUtils.ReorderSameIndex | src/utils/task.utils.js:72-73 | `reorderTasks(s, i, i) == s` |
| TaskUtils.ReorderInverse | src/utils/task.utils.js:70-75 | moving from `j` back to `i` undoes moving from `i` to `j`, for all in-range `i`, `j` |
| TaskUtils.ReorderExample | src/utils/task.utils.js:70-75 | `[t1, t2, t3]` reordered from 0 to 1 is `[t2, t1, t3]` |
| TaskUtils.MoveTaskBetweenColumns | src/utils/task.utils.js:80-91 | the source is the input without exactly position `sourceIndex`, in order; the destination gains `source[sourceIndex]` at `destIndex`, or at the end when `destIndex` is past it, and is otherwise unchanged in order |
| TaskUtils.MoveConserves | src/utils/task.utils.js:80-91 | the source loses one occurrence of the moved id, the destination gains it, and the combined multiset and length are preserved |
| TaskUtils.Lower | src/utils/task.utils.js:99-100 | `toLowerCase` on ASCII: same length, every capital becomes its small letter, every other character unchanged |
| TaskUtils.Upper | src/utils/task.utils.js:20 | `toUpperCase` on ASCII: same length, every small letter becomes its capital, every other character unchanged |
| TaskUtils.Includes | src/utils/task.utils.js:99-100 | the empty term is always included; an included term is no longer than the text |
| TaskUtils.IncludesIffOccurs | src/utils/task.utils.js:99-100 | the substring scan answers true exactly when the term occurs at some offset |
| TaskUtils.SearchMatches | src/utils/task.utils.js:98-100 | an empty term passes; otherwise the lower-cased title or description must include the lower-cased term; a missing description does not match |
| TaskUtils.SearchMatchesIffOccurs | src/utils/task.utils.js:98-100 | the search accepts a task exactly when the term is empty or occurs, ignoring ASCII case, at some offset of the title or the description |
| TaskUtils.AssigneeMatches | src/utils/task.utils.js:102 | no assignee filter, or an empty-string one (falsy), passes; otherwise the assignee must be equal |
| TaskUtils.PriorityMatches | src/utils/task.utils.js:103 | no priority filter passes; otherwise the priority must be equal |
| TaskUtils.TagsMatch | src/utils/task.utils.js:104 | no tag filter passes; otherwise every filter tag must be among the task's tags, and a task without tags fails any tag it is asked for |
| TaskUtils.Matches | src/utils/task.utils.js:98-106 | the conjunction of the search, assignee, priority and tag tests |
| TaskUtils.FilterTasks | src/utils/task.utils.js:96-108 | the result is an order-preserving subsequence of the input; a task is in it if and only if it is in the input and matches search AND assignee AND priority AND tags |
| TaskUtils.FilterTasksCounts | src/utils/task.utils.js:96-108 | every copy of a matching task is kept and no copy of any other: the result's count of each task is its input count when it matches, 0 otherwise |
| TaskUtils.FilterTasksEmptyQuery | src/utils/task.utils.js:96-108 | an empty search term with `{}` filters returns the whole input |
| TaskUtils.UntaggedFailsTagFilter | src/utils/task.utils.js:104 | a task without tags fails every non-empty tag filter |
| TaskUtils.EmptyTagFilterPasses | src/utils/task.utils.js:104 | an empty tag list lets every task through |
| TaskUtils.Split | src/utils/task.utils.js:17 | splitting at single spaces yields at least one piece and no piece contains a space; with `JoinSplit` this determines the split |
| TaskUtils.Join | src/utils/task.utils.js:17 | joins pieces with single spaces, the inverse of `split(' ')` as `JoinSplit` states |
| TaskUtils.JoinSplit | src/utils/task.utils.js:17 | the pieces joined with spaces give back the name, so the split loses nothing |
| TaskUtils.FirstLetters | src/utils/task.utils.js:18-19 | the first character of each piece, with an empty piece (whose `part[0]` is `undefined`) writing nothing |
| TaskUtils.FirstLettersOfLaterPieces | src/utils/task.utils.js:17-19 | the first letters of the pieces after the first are the non-spaces that follow a space |
| TaskUtils.FirstLettersAreWordStarts | src/utils/task.utils.js:17-19 | `split(' ').map(p => p[0]).join('')` is exactly the letters that begin a word; empty pieces contribute nothing |
| TaskUtils.GetInitials | src/utils/task.utils.js:14-22 | `'??'` for a missing or empty name; otherwise the upper-cased first letters of the words, truncated to two |
| TaskUtils.InitialsExample | src/utils/task.utils.js:14-22 | `"a b"` gives `"AB"` |
| BoardUpdates.FindColumn | src/hooks/useKanbanBoard.js:32-33 | `find` returns the first column with the id, or nothing when no column has it |
| BoardUpdates.ReorderInColumn | src/hooks/useKanbanBoard.js:11-21 | only columns whose id matches change, and only their `taskIds`, which become `reorderTasks(taskIds, fromIndex, toIndex)`; column order, ids and titles are kept |
| BoardUpdates.MoveAcrossColumns | src/hooks/useKanbanBoard.js:31-54 | a missing source or destination leaves the columns unchanged; otherwise source columns get the shortened list, other destination columns the extended one, and all other columns are untouched |
| BoardUpdates.Lookup | src/hooks/useKanbanBoard.js:60 | `prevTasks[taskId]`: the stored record, or `{}` when there is none, since spreading `undefined` adds no key |
| BoardUpdates.WithStatus | src/hooks/useKanbanBoard.js:57-63 | entry `taskId` gets `status` set and keeps its other keys (or is created holding only the status); no other entry changes |
| BoardUpdates.NewTask | src/hooks/useKanbanBoard.js:68-73 | the new record's status is always the column; its id and creation time come from `taskData` when given, otherwise from the generated values; every other key is `taskData`'s |
| BoardUpdates.AppendToColumn | src/hooks/useKanbanBoard.js:77-83 | the new id is appended to the end of the matching columns only |
| BoardUpdates.UpdateEntry | src/hooks/useKanbanBoard.js:90-93 | only entry `taskId` changes; it takes every key `updates` holds and keeps the old value of every key `updates` lacks (an absent entry counts as `{}`); an empty patch on a stored entry changes nothing |
| BoardUpdates.Without | src/hooks/useKanbanBoard.js:107 | filtering out an id keeps exactly the other ids, in order; an absent id leaves the list unchanged |
| BoardUpdates.WithoutCounts | src/hooks/useKanbanBoard.js:107 | every occurrence of the id is removed and no other id is lost |
| BoardUpdates.StripTask | src/hooks/useKanbanBoard.js:104-109 | every column keeps its id and title and loses the deleted id from its list |
| BoardUpdates.TagTestsDiffer | src/hooks/useKanbanBoard.js:128-129 | the hook's tag test differs from the list helper's exactly on a task without tags facing an empty tag filter |
| BoardUpdates.BoardTagsMatch | src/hooks/useKanbanBoard.js:128-129 | no tag filter passes; otherwise the task must have tags and every filter tag must be among them, so a task without tags fails even an empty tag filter |
| BoardUpdates.BoardMatches | src/hooks/useKanbanBoard.js:122-131 | the conjunction of the search, assignee, priority and hook-specific tag tests |
| BoardUpdates.KeepMatching | src/hooks/useKanbanBoard.js:118-132 | keeps, in order, exactly the ids that have a record and whose record matches search, assignee, priority and tags |
| BoardUpdates.KeepMatchingCounts | src/hooks/useKanbanBoard.js:118-132 | every copy of a matching id is kept and no copy of any other id |
| BoardTypes.HasNoKeys | src/hooks/useKanbanBoard.js:114 | `Object.keys(filters).length === 0`: none of the three filter keys is present |
| BoardUpdates.VisibleIds | src/hooks/useKanbanBoard.js:113-133 | with no search term and no filter keys the input comes back unchanged; otherwise an order-preserving subsequence holding exactly the ids whose record exists and matches |
| BoardUpdates.VisibleIdsCounts | src/hooks/useKanbanBoard.js:118-132 | when a search term or filter key is present, each matching id is kept as often as it is listed, and every other id is dropped |
| BoardInvariant.HeldOnce | src/hooks/useKanbanBoard.js:5-6 | on a consistent board a listed id occurs once in its column and in no other column |
| BoardInvariant.WellformedCounts | src/hooks/useKanbanBoard.js:5-6 | on a consistent board the columns hold as many ids as there are records |
| BoardInvariant.ReorderKeepsWellformed | src/hooks/useKanbanBoard.js:11-21 | reordering inside a column keeps the board consistent |
| BoardInvariant.MoveKeepsWellformed | src/hooks/useKanbanBoard.js:24-64 | a move between two distinct existing columns, whose source position holds `taskId`, keeps the board consistent, status update included |
| BoardInvariant.SameColumnMoveLosesTask | src/hooks/useKanbanBoard.js:45-53 | with source equal to destination the column receives the list without the task, the id is on no column, and the board is no longer consistent |
| BoardInvariant.CreateKeepsWellformed | src/hooks/useKanbanBoard.js:67-85 | creating a task in an existing column under an unused key keeps the board consistent |
| BoardInvariant.UpdateKeepsWellformed | src/hooks/useKanbanBoard.js:89-94 | a patch that keeps the id and the status keeps the board consistent |
| BoardInvariant.DeleteKeepsWellformed | src/hooks/useKanbanBoard.js:97-110 | deleting any id keeps the board consistent |
| BoardInvariant.DeleteAbsentChangesNothing | src/hooks/useKanbanBoard.js:97-110 | on a consistent board, deleting an id without a record changes neither the records nor the columns |
| BoardInvariant.MoveExample | src/hooks/useKanbanBoard.js:37-53 | moving t1 from `todo = [t1, t2]` to the top of an empty `doing` gives `todo = [t2]`, `doing = [t1]` |
| KanbanBoard.Board.constructor | src/hooks/useKanbanBoard.js:4-8 | the board starts with the given columns and records, an empty search term and no filters |
| KanbanBoard.Board.SetSearchTerm | src/hooks/useKanbanBoard.js:7 | sets the search term and nothing else |
| KanbanBoard.Board.SetFilters | src/hooks/useKanbanBoard.js:8 | sets the filters and nothing else |
| KanbanBoard.Board.MoveTaskInColumn | src/hooks/useKanbanBoard.js:11-21 | `columns` becomes the reordered columns; records, search term and filters are unchanged; consistency is kept |
| KanbanBoard.Board.MoveTaskBetweenColumnsHandler | src/hooks/useKanbanBoard.js:24-64 | `columns` becomes the moved columns and `tasks` gets the new status, even when a column is missing; consistency is kept when the columns are distinct and exist and the source position holds `taskId` |
| KanbanBoard.Board.CreateTask | src/hooks/useKanbanBoard.js:67-86 | returns the new record, whose status is the column; stores it under its id; appends the id to that column; consistency is kept for an existing column and an unused key |
| KanbanBoard.Board.UpdateTask | src/hooks/useKanbanBoard.js:89-94 | `tasks` becomes the patched map, which overwrites the keys `updates` holds and keeps the rest; the columns are unchanged; consistency is kept when the patch keeps id and status |
| KanbanBoard.Board.DeleteTask | src/hooks/useKanbanBoard.js:97-110 | removes the record and the id from every column; consistency is kept |
| KanbanBoard.Board.GetFilteredTasks | src/hooks/useKanbanBoard.js:113-133 | an order-preserving subsequence of the column's ids; the whole list when there is no search term and no filter key; otherwise exactly the ids with a matching record, each as often as it is listed |
| DragAndDrop.Idle | src/hooks/useDragAndDrop.js:4-10 | not dragging, with all four other fields empty |
| DragAndDrop.Started | src/hooks/useDragAndDrop.js:12-20 | dragging the given id from the given position, with no hover target |
| DragAndDrop.Hovered | src/hooks/useDragAndDrop.js:22-28 | replaces the hover target and index; the flag, dragged id and start position are unchanged |
| DragAndDrop.HoverAll | src/hooks/useDragAndDrop.js:22-28 | a run of `over` calls applied in order; `HoverAllKeepsDrag` states what it keeps |
| DragAndDrop.HandlersKeepConsistent | src/hooks/useDragAndDrop.js:4-48 | "dragging exactly when a dragged id and a start position are present" holds initially and after start, end and cancel, and `over` preserves it |
| DragAndDrop.HoverAllKeepsDrag | src/hooks/useDragAndDrop.js:12-28 | any run of `over` events keeps the flag, dragged id and start position; the last event's target and index are the ones recorded |
| DragAndDrop.HoverWhileIdle | src/hooks/useDragAndDrop.js:22-28 | `over` while idle records a target although nothing is dragged |
| DragAndDrop.DragSession.constructor | src/hooks/useDragAndDrop.js:4-10 | the session starts idle |
| DragAndDrop.DragSession.HandleDragStart | src/hooks/useDragAndDrop.js:12-20 | installs the started record whatever the previous state, so a second start replaces the first |
| DragAndDrop.DragSession.HandleDragOver | src/hooks/useDragAndDrop.js:22-28 | changes only the hover target and index; keeps the session consistent |
| DragAndDrop.DragSession.HandleDragEnd | src/hooks/useDragAndDrop.js:30-38 | resets to exactly the initial record, so it is idempotent |
| DragAndDrop.DragSession.HandleDragCancel | src/hooks/useDragAndDrop.js:40-48 | resets to exactly the initial record, the same effect as end |

## Left out

- TaskUtils.ReorderTasks: requires `startIndex` inside the list. JavaScript's `splice` with an out-of-range start removes nothing and then inserts `undefined`. Negative indices, which count from the end, are not modelled either: indices are `nat`.
- TaskUtils.MoveTaskBetweenColumns: requires `sourceIndex` inside the source list, for the same reason. Negative indices are not modelled.
- KanbanBoard.Board.MoveTaskInColumn: inherits the in-bounds requirement on `fromIndex` for every column the id matches.
- KanbanBoard.Board.MoveTaskBetweenColumnsHandler: inherits the in-bounds requirement on `sourceIndex` when both columns exist.
- TaskUtils.FilterTasks: requires that every task has a title when the search term is non-empty. JavaScript throws a `TypeError` there, and that exception is not modelled.
- KanbanBoard.Board.GetFilteredTasks: has the same title requirement, for the stored records of the listed ids.
- TaskUtils.GetInitials: takes an optional string. Other falsy or non-string names are not modelled. A model string is a sequence of Unicode scalar values, while JavaScript takes `part[0]` and `slice(0, 2)` over UTF-16 code units. So a character outside the Basic Multilingual Plane counts as one character here, where the source would take or cut half of its surrogate pair.
- Upper- and lower-casing cover ASCII letters only. Unicode case mapping, including mappings that change a string's length, is left out.
- `KanbanBoard.Board.CreateTask` gets the generated id (`task-` followed by `Date.now()`) and the creation time as parameters, because the clock is not modelled. Only the clock is outside the model. A `freshId` already present in `tasks` is representable: `CreateTask` then replaces that record and appends the id to the column a second time.
- Due dates and creation times are opaque integers. `isOverdue`, `formatDate` and `getDueDateColor` (src/utils/task.utils.js:6-65) depend on `date-fns` and the clock, so they are not modelled.
- `getPriorityColor` (src/utils/task.utils.js:27-35) is a CSS class lookup for display, and is not modelled.
- Priorities form a closed set of four values. A task or filter holding any other string is not representable.
- A key explicitly set to `undefined` or `null` in a record, patch or filter object is not distinguished from an absent key. A patch therefore cannot clear a key: `updateTask(id, {assignee: null})`, which clears the assignee in the source, is not representable. Filter objects with extra keys are not representable either.
- React's `useState`/`useCallback` machinery is left out. So is the order in which the two separate state setters of one handler are applied. Each handler is one atomic update of the board.
- The rendering primitives `src/components/primitives/Button.jsx` and `src/components/primitives/Avatar.jsx` are not part of this model.
- Drag positions are a type parameter, and the drag handlers accept any task id. The spread of `dragState` into the hook's return value is not modelled.
