/** The daily-plan sidebar of `src/Components/Timetable.jsx`: the fetched
    tasks are shown incomplete first, and the sidebar toggles and deletes
    tasks in its local list. */
module Timetable {
  import opened Records
  import opened Sorting

  /** The comparator `(a, b) => a.is_completed === b.is_completed ? 0 :
      a.is_completed ? 1 : -1` has the sign of `key(a) - key(b)` for this key. */
  function CompletionKey(t: Task): int
  {
    if t.completed then 1 else 0
  }

  /** The list `fetchTasks` stores. */
  function CompletionFirst(ts: seq<Task>): seq<Task>
  {
    SortBy(ts, CompletionKey)
  }

  lemma {:induction false} PendingAreKeyZero(ts: seq<Task>)
    ensures WithKey(ts, CompletionKey, 0) == Filter(ts, IsPending)
    ensures WithKey(ts, CompletionKey, 1) == Filter(ts, IsCompleted)
    decreases |ts|
  {
    if ts != [] {
      PendingAreKeyZero(ts[..|ts| - 1]);
    }
  }

  /** The fetched list is the response reordered so that every incomplete
      task precedes every completed one, each group in response order. */
  lemma CompletionFirstOrder(ts: seq<Task>)
    ensures multiset(CompletionFirst(ts)) == multiset(ts)
    ensures forall i, j :: 0 <= i < j < |CompletionFirst(ts)| && CompletionFirst(ts)[i].completed
                           ==> CompletionFirst(ts)[j].completed
    ensures CompletionFirst(ts) == Filter(ts, IsPending) + Filter(ts, IsCompleted)
  {
    var r := CompletionFirst(ts);
    SortByProperties(ts, CompletionKey);
    forall i, j | 0 <= i < j < |r| && r[i].completed ensures r[j].completed {
      assert CompletionKey(r[i]) <= CompletionKey(r[j]);
    }
    SortedTwoKeys(r, CompletionKey);
    PendingAreKeyZero(ts);
  }

  /** `toggleTask(task)`: the optimistic local update flips the completion of
      the tasks with `task`'s id. */
  function Toggle(ts: seq<Task>, task: Task): (r: seq<Task>)
    ensures |r| == |ts|
  {
    MapWhere(ts, (t: Task) => t.id == task.id, (t: Task) => t.(completed := !task.completed))
  }

  /** Only the tasks with the toggled id change, only in their completion
      flag, which becomes the opposite of the clicked task's. */
  lemma ToggleOnlyTarget(ts: seq<Task>, task: Task)
    ensures forall i :: 0 <= i < |ts| ==>
      Toggle(ts, task)[i].(completed := ts[i].completed) == ts[i]
      && (ts[i].id == task.id ==> Toggle(ts, task)[i].completed == !task.completed)
      && (ts[i].id != task.id ==> Toggle(ts, task)[i] == ts[i])
  {
  }

  /** Clicking a task twice (the second time on its toggled copy) restores
      the list, as long as the ids are unique. */
  lemma ToggleTwice(ts: seq<Task>, k: nat)
    requires k < |ts|
    requires forall i, j :: 0 <= i < j < |ts| ==> ts[i].id != ts[j].id
    ensures Toggle(Toggle(ts, ts[k]), Toggle(ts, ts[k])[k]) == ts
  {
    var once := Toggle(ts, ts[k]);
    assert forall i :: 0 <= i < |ts| && i != k ==> once[i] == ts[i];
  }

  /** `deleteTask(id)`: without confirmation, or when the server refuses,
      the list stays; otherwise the tasks with that id are removed. */
  function DeleteTask(ts: seq<Task>, id: nat, confirmed: bool, deleted: bool): (r: seq<Task>)
    ensures |r| <= |ts|
  {
    if !confirmed || !deleted then ts else Filter(ts, (t: Task) => t.id != id)
  }

  /** After a confirmed deletion no task has that id, and every other task is
      still there as often as before. */
  lemma DeleteTaskSpec(ts: seq<Task>, id: nat)
    ensures forall t: Task :: t in DeleteTask(ts, id, true, true) ==> t.id != id
    ensures forall t: Task :: t.id != id ==> multiset(DeleteTask(ts, id, true, true))[t] == multiset(ts)[t]
  {
    FilterSpec(ts, (t: Task) => t.id != id);
  }
}
