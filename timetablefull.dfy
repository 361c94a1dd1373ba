/** The full-screen planner of `src/Components/TimetableFull.jsx`: tasks
    sorted by due date, drawn as a vertical chain of schedule nodes `t-<id>`,
    edited through those nodes and through the embedded Kanban board. */
module TimetableFull {
  import opened Wrappers
  import opened Text
  import opened Records
  import opened Sorting

  // ---------------------------------------------------------------------------
  // Sorting by due date

  /** `new Date(a.due_date) - new Date(b.due_date)` on timestamps; `new
      Date(null)` is the epoch, 0. */
  function DueKey(t: Task): int
  {
    t.due.GetOr(0)
  }

  /** The order `fetchTasks` and `handleTaskUpdate` store. */
  function ByDueDate(ts: seq<Task>): seq<Task>
  {
    SortBy(ts, DueKey)
  }

  /** The stored list is the same tasks, ascending by due date, with tasks
      due at the same time in their previous order. */
  lemma ByDueDateOrder(ts: seq<Task>)
    ensures multiset(ByDueDate(ts)) == multiset(ts)
    ensures forall i, j :: 0 <= i < j < |ByDueDate(ts)| ==> DueKey(ByDueDate(ts)[i]) <= DueKey(ByDueDate(ts)[j])
    ensures forall k :: WithKey(ByDueDate(ts), DueKey, k) == WithKey(ts, DueKey, k)
  {
    SortByProperties(ts, DueKey);
  }

  // ---------------------------------------------------------------------------
  // The visual schedule

  /** A schedule node: its id, position and the task fields it shows. */
  datatype ScheduleNode = ScheduleNode(id: string, x: int, y: int, title: string,
                                       description: string, due: Option<int>)

  datatype ScheduleEdge = ScheduleEdge(id: string, source: string, target: string)

  /** `` `t-${task.id}` ``. */
  function ScheduleNodeId(t: Task): string
  {
    "t-" + NatToString(t.id)
  }

  /** `` `e-${prevId}-${id}` `` from `prevId` to `id`. */
  function ChainEdge(prev: string, id: string): ScheduleEdge
  {
    ScheduleEdge("e-" + prev + "-" + id, prev, id)
  }

  /** The extra 80 pixels: the day shown for the previous task is set and
      differs from the day of this one. `dayOf` stands for
      `new Date(due).toLocaleDateString()`. */
  predicate DayChanges(prev: Task, cur: Task, dayOf: Option<int> -> string)
  {
    dayOf(prev.due) != "" && dayOf(prev.due) != dayOf(cur.due)
  }

  /** The vertical step from the previous task's node to this one's. */
  function Gap(prev: Task, cur: Task, dayOf: Option<int> -> string): int
  {
    if DayChanges(prev, cur, dayOf) then 240 else 160
  }

  /** `node` is the schedule node of task `t`: its id, `x = 250` and the
      task's title, description and due date. */
  predicate Shows(node: ScheduleNode, t: Task)
  {
    node == ScheduleNode(ScheduleNodeId(t), 250, node.y, t.title, t.description, t.due)
  }

  /** The first node is at `y = 0` and each next one is a `Gap` lower. */
  predicate Spaced(nodes: seq<ScheduleNode>, pending: seq<Task>, dayOf: Option<int> -> string)
  {
    |nodes| <= |pending|
    && (|nodes| > 0 ==> nodes[0].y == 0)
    && forall i :: 0 < i < |nodes| ==> nodes[i].y == nodes[i - 1].y + Gap(pending[i - 1], pending[i], dayOf)
  }

  /** One edge from each node to the next, and no other. */
  predicate Chained(nodes: seq<ScheduleNode>, edges: seq<ScheduleEdge>)
  {
    |edges| == (if |nodes| == 0 then 0 else |nodes| - 1)
    && forall i :: 0 <= i < |edges| ==> edges[i] == ChainEdge(nodes[i].id, nodes[i + 1].id)
  }

  /** `generateVisualSchedule(taskList)`. One node per incomplete task, in list
      order, at `x = 250`; the first at `y = 0`, each next one 160 lower, or
      240 lower when the day changes; consecutive nodes joined by one edge
      each, so the edges form a path through the nodes. */
  method GenerateVisualSchedule(taskList: seq<Task>, dayOf: Option<int> -> string)
    returns (nodes: seq<ScheduleNode>, edges: seq<ScheduleEdge>)
    ensures var pending := Filter(taskList, IsPending);
            |nodes| == |pending| && (forall i :: 0 <= i < |nodes| ==> Shows(nodes[i], pending[i]))
            && Spaced(nodes, pending, dayOf)
    ensures forall i, j :: 0 <= i < j < |nodes| ==> nodes[i].y < nodes[j].y
    ensures Chained(nodes, edges)
  {
    var pending := Filter(taskList, IsPending);
    nodes, edges := [], [];
    var y := 0;
    var prevId: Option<string> := None;
    var currentDateStr := "";
    for n := 0 to |pending|
      invariant |nodes| == n
      invariant forall i :: 0 <= i < n ==> Shows(nodes[i], pending[i])
      invariant Spaced(nodes, pending, dayOf)
      invariant Chained(nodes, edges)
      invariant y == if n == 0 then 0 else nodes[n - 1].y + 160
      invariant currentDateStr == if n == 0 then "" else dayOf(pending[n - 1].due)
      invariant prevId == if n == 0 then None else Some(nodes[n - 1].id)
    {
      var task := pending[n];
      var id := ScheduleNodeId(task);
      var dateDisplay := dayOf(task.due);
      if currentDateStr != "" && currentDateStr != dateDisplay {
        y := y + 80;
      }
      currentDateStr := dateDisplay;
      var node := ScheduleNode(id, 250, y, task.title, task.description, task.due);
      ExtendSchedule(nodes, edges, pending, dayOf, node);
      nodes := nodes + [node];
      if prevId.Some? {
        edges := edges + [ChainEdge(prevId.value, id)];
      }
      prevId := Some(id);
      y := y + 160;
    }
    DescendingChain(nodes, pending, dayOf);
  }

  /** Appending the next task's node, one `Gap` below the last node, keeps
      the spacing, and the edge from the last node keeps the chain. */
  lemma ExtendSchedule(nodes: seq<ScheduleNode>, edges: seq<ScheduleEdge>, pending: seq<Task>,
                       dayOf: Option<int> -> string, node: ScheduleNode)
    requires Spaced(nodes, pending, dayOf) && Chained(nodes, edges) && |nodes| < |pending|
    requires |nodes| == 0 ==> node.y == 0
    requires |nodes| > 0 ==> node.y == nodes[|nodes| - 1].y + Gap(pending[|nodes| - 1], pending[|nodes|], dayOf)
    ensures Spaced(nodes + [node], pending, dayOf)
    ensures Chained(nodes + [node], if nodes == [] then edges else edges + [ChainEdge(nodes[|nodes| - 1].id, node.id)])
  {
    var grown := nodes + [node];
    assert forall i :: 0 <= i < |nodes| ==> grown[i] == nodes[i];
  }

  /** Each node lower than the one before makes every node lower than all
      earlier ones. */
  lemma {:induction false} DescendingChain(nodes: seq<ScheduleNode>, pending: seq<Task>,
                                           dayOf: Option<int> -> string)
    requires Spaced(nodes, pending, dayOf)
    ensures forall i, j :: 0 <= i < j < |nodes| ==> nodes[i].y < nodes[j].y
    decreases |nodes|
  {
    if |nodes| > 1 {
      var n := |nodes| - 1;
      DescendingChain(nodes[..n], pending, dayOf);
      forall i, j | 0 <= i < j < |nodes| ensures nodes[i].y < nodes[j].y {
        if j == n && i < n - 1 {
          assert nodes[..n][i].y < nodes[..n][n - 1].y;
        }
      }
    }
  }

  /** Schedule node ids of tasks with distinct ids are distinct. */
  lemma ScheduleNodeIdsDistinct(a: Task, b: Task)
    ensures ScheduleNodeId(a) == ScheduleNodeId(b) ==> a.id == b.id
  {
    if ScheduleNodeId(a) == ScheduleNodeId(b) {
      assert NatToString(a.id) == ScheduleNodeId(a)[2..];
      assert NatToString(b.id) == ScheduleNodeId(b)[2..];
      NatToStringInjective(a.id, b.id);
    }
  }

  // ---------------------------------------------------------------------------
  // Editing through the schedule

  /** `parseInt(nodeId.replace('t-', ''))`: the task id a schedule node names
      (`None` for `NaN`). `parseInt` is called without a radix and is read as
      base 10, as it is for the decimal ids of tasks. */
  function TaskIdOfNode(nodeId: string): Option<int>
  {
    ParseInt(ReplaceFirst(nodeId, "t-", ""))
  }

  /** Reading a schedule node's id gives back its task's id. */
  lemma TaskIdOfScheduleNode(t: Task)
    ensures TaskIdOfNode(ScheduleNodeId(t)) == Some(t.id)
  {
    ReplaceFirstAtStart("t-", NatToString(t.id), "");
    assert "" + NatToString(t.id) == NatToString(t.id);
    ParseIntOfNatToString(t.id);
  }

  /** The node editor's `newData`: the new `label`, description and due date. */
  datatype TaskEdit = TaskEdit(title: string, description: string, due: Option<int>)

  function Edited(t: Task, edit: TaskEdit): Task
  {
    t.(title := edit.title, description := edit.description, due := edit.due)
  }

  /** `handleTaskUpdate(nodeId, newData)`: `None` when no task has the parsed
      id (nothing changes); otherwise the list with every task of that id
      replaced by the edited copy of the first one, re-sorted by due date. */
  function HandleTaskUpdate(ts: seq<Task>, nodeId: string, edit: TaskEdit): Option<seq<Task>>
  {
    match TaskIdOfNode(nodeId)
    case None => None
    case Some(k) =>
      match FindTask(ts, k)
      case None => None
      case Some(original) =>
        Some(ByDueDate(MapWhere(ts, (t: Task) => t.id == k, (t: Task) => Edited(original, edit))))
  }

  /** A node id that names no task leaves the list alone. */
  lemma TaskUpdateUnknown(ts: seq<Task>, nodeId: string, edit: TaskEdit)
    requires forall i :: 0 <= i < |ts| ==> Some(ts[i].id as int) != TaskIdOfNode(nodeId)
    ensures HandleTaskUpdate(ts, nodeId, edit) == None
  {
  }

  /** Editing the node of a task (ids unique) replaces exactly that task by
      its edited copy, keeps every other task, and stores the list by due
      date. */
  lemma TaskUpdateSpec(ts: seq<Task>, k: nat, edit: TaskEdit)
    requires k < |ts|
    requires forall i, j :: 0 <= i < j < |ts| ==> ts[i].id != ts[j].id
    ensures var r := HandleTaskUpdate(ts, ScheduleNodeId(ts[k]), edit);
            r.Some?
            && multiset(r.value) == multiset(ts) - multiset{ts[k]} + multiset{Edited(ts[k], edit)}
            && forall i, j :: 0 <= i < j < |r.value| ==> DueKey(r.value[i]) <= DueKey(r.value[j])
  {
    var t := ts[k];
    TaskIdOfScheduleNode(t);
    FindUnique(ts, k);
    var mapped := MapWhere(ts, (u: Task) => u.id == t.id, (u: Task) => Edited(t, edit));
    assert mapped == ts[k := Edited(t, edit)];
    ByDueDateOrder(mapped);
  }

  // ---------------------------------------------------------------------------
  // Editing through the board

  /** `handleKanbanUpdate(task, isCompleted)`: the local list update. */
  function HandleKanbanUpdate(ts: seq<Task>, task: Task, isCompleted: bool): seq<Task>
  {
    SetCompletion(ts, task.id, isCompleted)
  }

  /** After the update the tasks with that id show in the column the card was
      dropped in, and the schedule built next leaves them out exactly when
      they are completed. */
  lemma KanbanUpdateMovesTask(ts: seq<Task>, task: Task, isCompleted: bool)
    ensures forall t :: t in Filter(HandleKanbanUpdate(ts, task, isCompleted), IsPending) ==>
                          t.id != task.id || !isCompleted
    ensures forall t :: t in Filter(HandleKanbanUpdate(ts, task, isCompleted), IsCompleted) ==>
                          t.id != task.id || isCompleted
  {
    var r := HandleKanbanUpdate(ts, task, isCompleted);
    FilterSpec(r, IsPending);
    FilterSpec(r, IsCompleted);
    SetCompletionSpec(ts, task.id, isCompleted);
  }
}
