/** The drag session of a board: which task is being dragged, where it
    started, and which column and slot it currently hovers over. The four
    handlers replace the session record; `over` keeps the rest of the
    record and sets the hover target. Positions are whatever the pointer
    layer reports, so their type is a parameter. */
module DragAndDrop {
  import opened BoardTypes

  datatype DragState<P> = DragState(
    isDragging: bool,
    draggedId: Option<TaskId>,
    dropTargetId: Option<ColumnId>,
    dragOverIndex: Option<int>,
    dragStartPosition: Option<P>)

  /** The record the session starts with, and the one end and cancel restore. */
  function Idle<P>(): (st: DragState<P>)
    ensures !st.isDragging && st.draggedId.None? && st.dragStartPosition.None?
    ensures st.dropTargetId.None? && st.dragOverIndex.None?
  {
    DragState(false, None, None, None, None)
  }

  /** The record `start` installs: dragging `id` from `position`, over nothing yet. */
  function Started<P>(id: TaskId, position: P): (st: DragState<P>)
    ensures st.isDragging && st.draggedId == Some(id) && st.dragStartPosition == Some(position)
    ensures st.dropTargetId.None? && st.dragOverIndex.None?
  {
    DragState(true, Some(id), None, None, Some(position))
  }

  /** `{ ...prev, dropTargetId, dragOverIndex }`: the hover target is
      replaced and nothing else changes. `over` does not look at
      `isDragging`, so it applies while idle as well. */
  function Hovered<P>(prev: DragState<P>, targetId: Option<ColumnId>, index: Option<int>): (st: DragState<P>)
    ensures st.dropTargetId == targetId && st.dragOverIndex == index
    ensures st.isDragging == prev.isDragging && st.draggedId == prev.draggedId
    ensures st.dragStartPosition == prev.dragStartPosition
  {
    prev.(dropTargetId := targetId, dragOverIndex := index)
  }

  /** A stream of `over` events, one hover target each. */
  datatype Hover = Hover(targetId: Option<ColumnId>, index: Option<int>)

  /** The record after the `over` events of `events`, in order. */
  function HoverAll<P>(st: DragState<P>, events: seq<Hover>): DragState<P>
    decreases |events|
  {
    if events == [] then st
    else HoverAll(Hovered(st, events[0].targetId, events[0].index), events[1..])
  }

  /** A session record is consistent when a dragged id and a start position
      are present exactly while a drag is in progress. */
  predicate Consistent<P>(st: DragState<P>) {
    && (st.isDragging <==> st.draggedId.Some?)
    && (st.isDragging <==> st.dragStartPosition.Some?)
  }

  /** Every handler keeps a session consistent: start and end install a
      consistent record, and `over` leaves the fields consistency reads alone. */
  lemma HandlersKeepConsistent<P>(st: DragState<P>, id: TaskId, position: P,
                                  targetId: Option<ColumnId>, index: Option<int>)
    ensures Consistent(Idle<P>())
    ensures Consistent(Started(id, position))
    ensures Consistent(st) ==> Consistent(Hovered(st, targetId, index))
  {
  }

  /** Any run of `over` events leaves the dragged task, its start position
      and the dragging flag as they were, and the last event's target is the
      one that counts. */
  lemma {:induction false} HoverAllKeepsDrag<P>(st: DragState<P>, events: seq<Hover>)
    ensures var r := HoverAll(st, events);
      && r.isDragging == st.isDragging && r.draggedId == st.draggedId
      && r.dragStartPosition == st.dragStartPosition
    ensures events == [] ==> HoverAll(st, events) == st
    ensures events != [] ==>
              && HoverAll(st, events).dropTargetId == events[|events| - 1].targetId
              && HoverAll(st, events).dragOverIndex == events[|events| - 1].index
    decreases |events|
  {
    if events != [] {
      var next := Hovered(st, events[0].targetId, events[0].index);
      HoverAllKeepsDrag(next, events[1..]);
      if |events| > 1 {
        assert events[1..][|events[1..]| - 1] == events[|events| - 1];
      }
    }
  }

  /** Hovering while no drag is in progress records a target anyway, so an
      idle session can report a drop target. */
  lemma HoverWhileIdle<P>(targetId: ColumnId, index: int)
    ensures var st := Hovered(Idle<P>(), Some(targetId), Some(index));
      !st.isDragging && st.dropTargetId == Some(targetId) && Consistent(st)
  {
  }

  /** The session object the hook keeps: `dragState` and its four handlers. */
  class DragSession<P> {
    var dragState: DragState<P>

    constructor ()
      ensures dragState == Idle()
      ensures Consistent(dragState)
    {
      dragState := Idle();
    }

    method HandleDragStart(id: TaskId, position: P)
      modifies this
      ensures dragState == Started(id, position)
      ensures Consistent(dragState)
    {
      dragState := Started(id, position);
    }

    method HandleDragOver(targetId: Option<ColumnId>, index: Option<int>)
      modifies this
      ensures dragState == Hovered(old(dragState), targetId, index)
      ensures old(Consistent(dragState)) ==> Consistent(dragState)
    {
      dragState := Hovered(dragState, targetId, index);
    }

    method HandleDragEnd()
      modifies this
      ensures dragState == Idle()
      ensures Consistent(dragState)
    {
      dragState := Idle();
    }

    /** Cancelling installs the same record as ending. */
    method HandleDragCancel()
      modifies this
      ensures dragState == Idle()
      ensures Consistent(dragState)
    {
      dragState := Idle();
    }
  }
}
