/** The board of `src/Components/Kanban.jsx`: two columns, `todo` and
    `done`, and the decision a drag-and-drop turns into. */
module Kanban {
  import opened Wrappers
  import opened Text
  import opened Records

  function PendingColumn(ts: seq<Task>): seq<Task>
  {
    Filter(ts, IsPending)
  }

  function CompletedColumn(ts: seq<Task>): seq<Task>
  {
    Filter(ts, IsCompleted)
  }

  /** The two columns partition the tasks by their completion: nothing is
      lost, nothing is shown twice, and each column holds only its kind. */
  lemma ColumnsPartition(ts: seq<Task>)
    ensures multiset(PendingColumn(ts)) + multiset(CompletedColumn(ts)) == multiset(ts)
    ensures |PendingColumn(ts)| + |CompletedColumn(ts)| == |ts|
    ensures forall t :: t in PendingColumn(ts) <==> t in ts && !t.completed
    ensures forall t :: t in CompletedColumn(ts) <==> t in ts && t.completed
  {
    Partition(ts, IsPending, IsCompleted);
    FilterSpec(ts, IsPending);
    FilterSpec(ts, IsCompleted);
  }

  /** What `onDragEnd` passes to `onUpdateTaskStatus`: the task the card's id
      names (`None` for `undefined`) and its new status. */
  datatype StatusUpdate = StatusUpdate(task: Option<Task>, completed: bool)

  /** `onDragEnd(result)`: a drop outside any column or into the column the
      card came from does nothing; otherwise the card id is parsed (by
      `parseInt` without a radix, read as base 10, as it is for decimal
      ids), the task looked up, and the new status is "completed" exactly for the
      `done` column. */
  function OnDragEnd(ts: seq<Task>, source: string, destination: Option<string>, draggableId: string)
    : Option<StatusUpdate>
  {
    if destination.None? then None
    else if source == destination.value then None
    else
      var task := match ParseInt(draggableId) case None => None case Some(k) => FindTask(ts, k);
      Some(StatusUpdate(task, destination.value == "done"))
  }

  /** A drop yields an update exactly when it lands in another column, and
      the update marks the task completed exactly for the `done` column. */
  lemma DropDecision(ts: seq<Task>, source: string, destination: Option<string>, draggableId: string)
    ensures OnDragEnd(ts, source, destination, draggableId).None?
            <==> destination.None? || destination.value == source
    ensures OnDragEnd(ts, source, destination, draggableId).Some?
            ==> (OnDragEnd(ts, source, destination, draggableId).value.completed <==> destination.value == "done")
  {
  }

  /** A card carries `task.id.toString()`, so with unique ids the drop finds
      the very task that was dragged, and applying the update
      (`handleKanbanUpdate`) moves it to the destination column. */
  lemma DropFindsDraggedTask(ts: seq<Task>, k: nat, source: string, destination: string)
    requires k < |ts|
    requires forall i, j :: 0 <= i < j < |ts| ==> ts[i].id != ts[j].id
    requires source != destination
    ensures var u := OnDragEnd(ts, source, Some(destination), NatToString(ts[k].id));
            u == Some(StatusUpdate(Some(ts[k]), destination == "done"))
    ensures var moved := SetCompletion(ts, ts[k].id, destination == "done");
            moved[k] in (if destination == "done" then CompletedColumn(moved) else PendingColumn(moved))
  {
    ParseIntOfNatToString(ts[k].id);
    FindUnique(ts, k);
    var moved := SetCompletion(ts, ts[k].id, destination == "done");
    FilterSpec(moved, IsPending);
    FilterSpec(moved, IsCompleted);
    assert moved[k] in moved;
  }
}
