# MindDock client logic in Dafny

MindDock is a mind-map and productivity web client. A canvas holds the mind
map. Side panels hold tasks, goals and journal notes. A dock gives quick
search, a focus timer, voice commands, an assistant that suggests insights,
and an Eisenhower "brain dump" board. Most of the client is rendering and
REST calls. The rules it applies to its own state are modelled here:

- **Undo/redo history** (`UndoRedo`). Two stacks of whole-document
  snapshots. `past` is capped at twenty entries; taking a snapshot clears
  `future`. A generic class `History<D>` is proved against the pure step
  functions `SnapshotStep`, `UndoStep` and `RedoStep`.
- **Graph editor** (`Graph`, `App`).
  - The module-level id counter, and how loading a map seeds it.
  - Copy and paste, and the merge of an AI-generated map. Both remap ids
    and drop edges whose endpoint was not copied.
  - The roadmap chain built from an assistant's steps.
  - The breadth-first connected-group selection.
  - The context-menu actions, and the snapshot each handler takes before
    it changes the document.
  - Class `App.Editor` carries the counter, the document, the clipboard and
    the history. Its handlers are stated against the pure rules of `Graph`.
    Its invariant keeps the counter ahead of every numeric id in the document
    and in every document undo or redo can bring back, so a minted id never
    collides with an existing one (for ids below 2^53; see "Left out").
- **Panels.**
  - Command-palette search and arrow-key navigation (`Palette`).
  - Rule-based insights and subtask parsing (`Recommendations`).
  - The brain-dump sorting board (`BrainDump`).
  - The visual schedule and the planner's list updates (`TimetableFull`).
  - The daily-plan sidebar (`Timetable`), the Kanban board (`Kanban`) and
    the goals panel (`Goals`).
  - Dashboard statistics (`Dashboard`), the focus timer (`Focus`) and
    due-task reminders (`Notifications`).
  - The journal (`Journal`) and voice-command handling (`Voice`).

Shared modules:

- `Records`: the backend records, and the `filter` and `map` idioms the
  panels use on them.
- `Sorting`: JavaScript's stable `Array.prototype.sort` with a
  key-difference comparator.
- `Text`: the string built-ins the client relies on. These are
  `toLowerCase` on ASCII, `trim`, `includes`, `indexOf`, `replace`,
  `split`, `join`, `String(n)` and `parseInt`.
- `Wrappers`: an optional value.

Dates are integer timestamps in milliseconds. A missing field is `None`.
Replies from the server, the clock, `Date.now()` stamps and the user's
confirmations are parameters of the operations that use them.

## Model

| member | source | states |
|---|---|---|
| UndoRedo.SnapshotShape | src/hooks/useUndoRedo.js:8-16 | A snapshot empties `future` and ends `past` with the new document. `past` grows by one below the cap of 20. At the cap it drops its oldest entry and keeps the others in order. |
| UndoRedo.BoundPreserved | src/hooks/useUndoRedo.js:9-43 | The combined length of `past` and `future` stays at most 20 after a snapshot, an undo and a redo. This holds even though redo appends to `past` without the cap. |
| UndoRedo.CanUndoRedo | src/hooks/useUndoRedo.js:18-51 | Undo restores a document exactly when `past` is non-empty, and redo exactly when `future` is. When either restores nothing, both stacks are unchanged. |
| UndoRedo.UndoThenRedo | src/hooks/useUndoRedo.js:18-44 | An undo followed by a redo gives back the document that was current and both stacks exactly as they were. |
| UndoRedo.RedoThenUndo | src/hooks/useUndoRedo.js:18-44 | A redo followed by an undo gives back the document that was current and both stacks exactly as they were. |
| UndoRedo.SnapshotUndoRedo | src/hooks/useUndoRedo.js:8-44 | After a snapshot of document A and then an edit to B, undo restores A with only B to redo. The following redo restores B. |
| UndoRedo.SnapshotInvalidatesRedo | src/hooks/useUndoRedo.js:15 | After an undo, a new snapshot leaves nothing to redo. |
| UndoRedo.SnapshotsKeepMostRecent | src/hooks/useUndoRedo.js:9-13 | After any number of snapshots, `past` is exactly the last (at most) 20 documents, oldest first, and `future` is empty. |
| UndoRedo.StepsKeepDocuments | src/hooks/useUndoRedo.js:8-44 | Snapshot, undo and redo never invent a document. Each stored or restored document was already stored or was the current one. An undo restores a document from `past`, a redo one from `future`. |
| UndoRedo.History.constructor | src/hooks/useUndoRedo.js:4-5 | The hook starts with both stacks empty. |
| UndoRedo.History.TakeSnapshot | src/hooks/useUndoRedo.js:8-16 | The new stacks are `SnapshotStep` of the old ones. |
| UndoRedo.History.Undo | src/hooks/useUndoRedo.js:18-30 | The new stacks and the restored document are `UndoStep` of the old stacks and the current document. |
| UndoRedo.History.Redo | src/hooks/useUndoRedo.js:32-44 | The new stacks and the restored document are `RedoStep` of the old stacks and the current document. |
| UndoRedo.History.Clear | src/hooks/useUndoRedo.js:4-5 | Both stacks become empty. This is the reset the corrected map load needs. |
| UndoRedo.History.CanUndo | src/hooks/useUndoRedo.js:50 | True exactly when `past` is non-empty. |
| UndoRedo.History.CanRedo | src/hooks/useUndoRedo.js:51 | True exactly when `future` is non-empty. |
| Graph.MintedIdsDistinct | src/App.jsx:34 | Ids minted from different counter values differ, and `parseInt` of a minted id gives back its counter value. |
| Graph.IdMapSpec | src/App.jsx:131 | An old id is in the id map exactly when some batch node has it. It maps to the id minted for the last such node, because `Map.set` overwrites. |
| Graph.CopyNodesFreshIds | src/App.jsx:131 | A copied batch has one node per input node. The new ids are pairwise distinct, and the `i`-th reads back as `start + i`. |
| Graph.RewireEdgesExact | src/App.jsx:132 | An edge of the batch survives exactly when both its endpoints are mapped. Every survivor is such an edge, rewired through the map, and nothing is added. |
| Graph.CopiedEdgesJoinCopiedNodes | src/App.jsx:130-132 | Every rewired edge joins two nodes of the copied batch. |
| Graph.MappedIdIsCopied | src/App.jsx:131 | Every id the map produces is the id of a copied node. |
| Graph.PasteSelection | src/App.jsx:131-134 | After a paste, exactly the pasted items are selected. Existing items are kept in order with only their selection cleared. Each pasted node keeps its data and is moved by the same offset. |
| Graph.AppendKeepsNoDangling | src/App.jsx:133-134 | Appending nodes, together with edges that join appended nodes, keeps every edge attached to two nodes. |
| Graph.DeselectKeepsNoDangling | src/App.jsx:133-134 | Clearing the selection keeps every edge attached. |
| Graph.PasteKeepsNoDangling | src/App.jsx:121-135 | A paste never leaves an edge with a missing endpoint. |
| Graph.MergeKeepsNoDangling | src/App.jsx:220-236 | An AI merge leaves no edge with a missing endpoint and keeps the existing nodes and edges unchanged as a prefix. |
| Graph.RoadmapIsPath | src/App.jsx:208-214 | The chain has one node and one edge per step. The edges form the path source → step 1 → … → step k, and node `i` carries step `i` as its label. |
| Graph.RoadmapColumn | src/App.jsx:211 | Roadmap nodes stand in the source's column, strictly below it, strictly descending in step order, with pairwise distinct ids. |
| Graph.RoadmapKeepsNoDangling | src/App.jsx:208-215 | Adding the chain to a document that contains the source keeps every edge attached. |
| Graph.RecolorOnlyTarget | src/App.jsx:266 | Recolouring changes only the style of the nodes with the target id, and no id. |
| Graph.RestyleOnlyTarget | src/App.jsx:267 | Restyling changes only the arrow and dash of the edges with the target id. An edge is never both arrowed and dashed. Any other choice leaves a plain edge. |
| Graph.MaxNumericId | src/App.jsx:159 | The result is at least 0, at least every node's numeric id (`parseInt(id, 10)`, or 0 when that fails), and equal to one of them unless it is 0. |
| Graph.SeededIdsAreFresh | src/App.jsx:159 | After loading a non-empty map, every id minted from the seeded counter onward differs from every id in the map, with a margin of 100 over its numeric ids. |
| Graph.BelowIsFresh | src/App.jsx:34 | While every numeric id of a document is below the counter, no id minted from the counter onward is the id of one of its nodes. |
| Graph.SameIdsBelow | src/App.jsx:238-269 | Reselection and recolouring keep node ids in place, so the counter stays ahead of the document. |
| Graph.CopyNodesBelow | src/App.jsx:130-131 | A batch copied from counter value `start` has only numeric ids below `start` plus the batch size. |
| Graph.RoadmapNodesBelow | src/App.jsx:208-211 | The roadmap nodes minted from `start` have only numeric ids below `start` plus the step count. |
| Graph.BatchesKeepCounterAhead | src/App.jsx:121-236 | When the counter was ahead of the document, it stays ahead after a paste or a merge, and no id minted for the batch is already in the old document. |
| Graph.SeededCounterAhead | src/App.jsx:159 | After a load, the seeded counter is ahead of every numeric id of the loaded map. |
| Graph.VisitNeighbors | src/App.jsx:242-247 | One round of the search marks every neighbour of the current node and queues exactly the newly marked ones. It also records the ids of the edges touching the node. |
| Graph.NeighborsReachable | src/App.jsx:245-246 | The neighbours of a reachable node are reachable. |
| Graph.ClosedGroupIsComplete | src/App.jsx:240-248 | A set that contains the start node and the neighbours of each of its members contains every node reachable from the start. |
| Graph.SearchRound | src/App.jsx:240-248 | One round keeps the search invariant, and either marks a new node or shortens the queue. |
| Graph.ConnectedGroup | src/App.jsx:239-248 | The search returns exactly the nodes reachable from the start, with edges read as undirected. It also returns the ids of exactly the edges touching one of them. |
| App.RewireBatch | src/App.jsx:132 | The edge loop produces the batch's edges whose two endpoints were copied, rewired through the id map (the `RewireEdges` rule). |
| App.HistoryStepsBelow | src/hooks/useUndoRedo.js:8-44 | When the counter is ahead of the current document and of every stored one, it stays ahead of every document after a snapshot, an undo or a redo, and of the restored one. |
| App.UndoAfterLoadCrossesMaps | src/App.jsx:155-162 | With the load as written, for any documents `a` and `b`: once `a` of one map is snapshotted, loading `b` of another map leaves an undo that puts `a` into the second map's editor, with `b` to redo. |
| App.LoadAsWrittenMintsDuplicate | src/App.jsx:155-162 | With the load as written, loading ids "110" and "5000" seeds the counter to 5100. Loading "10" next reseeds it to 110 while the first map is still in the history. Undo brings that map back, and the next minted id, "110", is already one of its ids. |
| App.Editor.constructor | src/App.jsx:34 | The counter starts at 1000, with an empty document, no clipboard, no map and an empty history. The invariant holds from the start. |
| App.Editor.MintsAreFresh | src/App.jsx:34 | Under the invariant, no id the counter mints from now on is the id of a node, neither in the document nor in any document of the history. |
| App.Editor.CopyBatch | src/App.jsx:130-131 | The node loop mints one id per node in batch order. The counter advances by the batch size. The id map is `IdMap`. Nothing else changes. |
| App.Editor.Copy | src/App.jsx:116-119 | The selected nodes and edges replace the clipboard exactly when at least one node is selected. |
| App.Editor.Paste | src/App.jsx:121-135 | With no clipboard or no clipboard nodes, nothing changes and no snapshot is taken. Otherwise a snapshot is taken, the document becomes `PasteDoc` of the old one, and the counter advances by the number of pasted nodes. No new id is the id of an old node, and the invariant is kept. |
| App.Editor.MergeGenerated | src/App.jsx:220-236 | A snapshot is taken, the document becomes `MergeDoc` of the old one and the incoming map, and the counter advances by the incoming node count. No new id is the id of an old node, and the invariant is kept. |
| App.Editor.GenerateRoadmap | src/App.jsx:201-218 | A missing or unlabelled source changes nothing. Otherwise a snapshot is taken and the chain for the reply's steps is appended; a missing or empty list appends nothing. The counter advances by the step count. No new id is the id of an old node, and the invariant is kept. |
| App.Editor.SelectConnectedGroup | src/App.jsx:238-251 | A node ends up selected exactly when it is reachable from the start. An edge ends up selected exactly when its id belongs to an edge touching a reachable node. Nothing else changes. |
| App.Editor.AddNode | src/App.jsx:194-199 | A snapshot is taken, then one node is appended under a freshly minted id. The new node has the given or default position, label (`Untitled` when empty), style and summary, and is returned. Its id is not the id of an old node, and the invariant is kept. |
| App.Editor.OnNodesDelete | src/App.jsx:193 | The current document is snapshotted. |
| App.Editor.HandleMenuAction | src/App.jsx:257-269 | Only the two style actions snapshot here; they recolour or restyle the target. `generateRoadmap` acts as its handler. `selectGroup` sets the selection of both nodes and edges as `SelectConnectedGroup` does. `addToTimetable` and unknown actions leave the document alone, and the menu always closes. The invariant is kept. |
| App.Editor.Undo | src/App.jsx:141 | Ctrl+Z replaces the history and document as `UndoStep` says, and keeps the document when nothing can be undone. |
| App.Editor.Redo | src/App.jsx:142 | Ctrl+Y or Ctrl+Shift+Z replaces the history and document as `RedoStep` says, and keeps the document when nothing can be redone. |
| App.Editor.LoadMapAsWritten | src/App.jsx:155-162 | A reply replaces the document, sets the current map and seeds the counter, but keeps the undo history. A failed request changes nothing. It does not promise the invariant, which `LoadAsWrittenMintsDuplicate` shows broken. |
| App.Editor.LoadMap | src/App.jsx:155-162 | The corrected load. As the load above, except that the history is emptied on success, so neither undo nor redo crosses into another map, and the invariant is kept. |
| Palette.Items | src/Components/CommandPalette.jsx:34-48 | Every searchable item, tagged with its kind: the nodes as node hits, then the tasks, goals and notes, each at its own index in its group. |
| Palette.Search | src/Components/CommandPalette.jsx:26-48 | Specified by `SearchInOrder` and `SearchSpec`. |
| Palette.SearchInOrder | src/Components/CommandPalette.jsx:31-48 | A non-blank query yields the matching items in the order nodes, tasks, goals, notes, each group in input order. |
| Palette.SearchSpec | src/Components/CommandPalette.jsx:26-48 | A blank query finds nothing. Any other query finds exactly the items whose label contains it up to ASCII case, each as often as it occurs. |
| Palette.JsRem | src/Components/CommandPalette.jsx:55-58 | JavaScript's `%` lies strictly between `-b` and `b` and agrees with the mathematical remainder on non-negative operands. |
| Palette.ArrowRange | src/Components/CommandPalette.jsx:55-58 | Both arrows leave the index in `[0, max(1, n))`. |
| Palette.ArrowWrap | src/Components/CommandPalette.jsx:55-58 | ArrowDown wraps from the last result to the first, and ArrowUp from the first to the last. |
| Palette.Down | src/Components/CommandPalette.jsx:55 | Specified by `ArrowRange`, `ArrowWrap`, `DownValue` and `ArrowInverse`. |
| Palette.Up | src/Components/CommandPalette.jsx:58 | Specified by `ArrowRange`, `ArrowWrap`, `UpValue` and `ArrowInverse`. |
| Palette.DownValue | src/Components/CommandPalette.jsx:55 | On a highlighted result, ArrowDown moves to the next one, or from the last back to 0. |
| Palette.UpValue | src/Components/CommandPalette.jsx:58 | On a highlighted result, ArrowUp moves to the previous one, or from 0 to the last. |
| Palette.ArrowInverse | src/Components/CommandPalette.jsx:55-58 | On a highlighted result the two arrows undo each other. |
| Palette.CommandPalette.constructor | src/Components/CommandPalette.jsx:26-30 | The palette opens with an empty query, no results and index 0. |
| Palette.CommandPalette.Type | src/Components/CommandPalette.jsx:26-50 | The results become the search of the new query. A non-blank query resets the highlight to 0; a blank one leaves it. |
| Palette.CommandPalette.Hover | src/Components/CommandPalette.jsx:120 | Hovering a result highlights it. |
| Palette.CommandPalette.KeyDown | src/Components/CommandPalette.jsx:52-75 | The arrows move the highlight by `Down` and `Up`. Enter on an existing result navigates to it and clears the query and results, and does nothing otherwise. Escape closes. Other keys change nothing. |
| Recommendations.Passes | src/Components/Recommendations.jsx:26 | A filtered list is non-empty exactly when some element passes the test. |
| Recommendations.FiresByCount | src/Components/Recommendations.jsx:25-92 | Each counting rule's list is non-empty exactly when its condition holds of some task or goal: overdue, complex, stagnant, or a goal without tasks. |
| Recommendations.TriggeredIffFires | src/Components/Recommendations.jsx:25-99 | For each of the six rules, the code's test on list lengths holds exactly when the rule's condition does. The card built has its rule's rank and the counts of its lists. |
| Recommendations.RuleStep | src/Components/Recommendations.jsx:25-99 | Running the next rule keeps the invariant: one card per fired rule so far, in rule order, with the right counts. |
| Recommendations.Fallback | src/Components/Recommendations.jsx:101-109 | After the six rules, adding the fallback card when none fired meets the full promise. |
| Recommendations.CardsInOrder | src/Components/Recommendations.jsx:21-109 | The six rules in sequence, with the fallback, meet the full promise. |
| Recommendations.GenerateInsights | src/Components/Recommendations.jsx:21-111 | The list is never empty. It holds at most one card per rule, in rule order, and a rule's card exactly when the rule fires. The "everything looks great" card appears exactly when no rule fires. Every card shows its list's count. |
| Recommendations.StripMarkers | src/Components/Recommendations.jsx:196 | The longest leading run of markers and white space is removed. What remains is a suffix that starts with neither. |
| Recommendations.SubtaskTitleSpec | src/Components/Recommendations.jsx:196 | A non-empty title starts with neither a marker nor white space, and does not end in white space. |
| Recommendations.SubtaskTitlesSpec | src/Components/Recommendations.jsx:187-205 | There are never more titles than list lines, and every title is well formed. |
| Recommendations.TitlesStep | src/Components/Recommendations.jsx:195-197 | One more line adds its title after the others, or nothing when its title is empty. |
| Recommendations.PostSubtasks | src/Components/Recommendations.jsx:195-205 | The loop sends one request per line with a non-empty title, in order. Each request is described as a subtask of the parent and carries the parent's goal. |
| Recommendations.DecomposeTask | src/Components/Recommendations.jsx:162-209 | Without a complex task the action stops. A reply without list lines is shown instead. Otherwise the first complex task is decomposed into a request per non-empty title, and the count reported is the number of requests sent. This is the corrected count; the code as written reports the number of list lines (`ReportedCountAsWritten`). |
| Recommendations.ReportedCountAsWritten | src/Components/Recommendations.jsx:187-207 | The count as written, specified by `ReportedCountOvercounts`. |
| Recommendations.ReportedCountOvercounts | src/Components/Recommendations.jsx:187-207 | A lone `-` reply reports one subtask created while no request is sent. |
| BrainDump.File | src/Components/BrainDump.jsx:226-229 | Filing appends the item to the chosen quadrant and leaves the other three unchanged. |
| BrainDump.FileAddsItem | src/Components/BrainDump.jsx:226-229 | Filing adds exactly the filed item to the matrix's contents. |
| BrainDump.FileAllItems | src/Components/BrainDump.jsx:225-247 | Whatever the choices, a session that files every pending item leaves the matrix holding its old contents plus exactly those items. |
| BrainDump.RequestsIndex | src/Components/BrainDump.jsx:258-284 | The requests are those of `do_now`, then `schedule`, then `delegate`, each item's at its own index. |
| BrainDump.RequestsSpec | src/Components/BrainDump.jsx:258-284 | There is one request per item of the first three quadrants, titled with its text. `do_now` gives High priority due now, `schedule` Medium due tomorrow, and `delegate` Low with no due date. The `delete` quadrant creates nothing. |
| BrainDump.PostEach | src/Components/BrainDump.jsx:258-284 | One loop sends its quadrant's requests in order. It stops at the first rejected request and says whether it reached the end. |
| BrainDump.Board.constructor | src/Components/BrainDump.jsx:120-134 | The board starts with no items, empty input, not sorting, index 0, no conversation and an empty matrix. |
| BrainDump.Board.AddNode | src/Components/BrainDump.jsx:120-124 | A blank input adds nothing. Otherwise the untrimmed input is appended as a pending item and the input is cleared. |
| BrainDump.Board.KeyDown | src/Components/BrainDump.jsx:126-131 | Enter without Shift on a non-blank input appends it and clears the input, and leaves sorting, the index, the conversation and the matrix alone. Enter on a blank input, and any other key, changes nothing. |
| BrainDump.Board.Dictate | src/Components/BrainDump.jsx:37-43 | Outside sorting, a transcript is appended to the input, after one space when the input is non-empty. |
| BrainDump.Board.StartSorting | src/Components/BrainDump.jsx:136-148 | Without items nothing happens. Otherwise sorting starts at the first item with an empty conversation, and the prompt about that item is returned. |
| BrainDump.Board.StopSorting | src/Components/BrainDump.jsx:394 | The Stop button ends sorting and changes nothing else. |
| BrainDump.Board.Categorize | src/Components/BrainDump.jsx:225-252 | The current item is filed into the chosen quadrant, and nothing else enters the matrix. If another item follows, it becomes current with a fresh conversation and its prompt. Otherwise sorting ends and the pending list is emptied. |
| BrainDump.Board.CreateTasks | src/Components/BrainDump.jsx:255-293 | All requests are sent in quadrant order. If one is rejected, exactly those before it are sent and the matrix stays. Otherwise all four quadrants are emptied. |
| TimetableFull.ByDueDateOrder | src/Components/TimetableFull.jsx:104 | The stored list is the same tasks, ascending by due date, with tasks due at the same time kept in their previous order. |
| TimetableFull.GenerateVisualSchedule | src/Components/TimetableFull.jsx:152-197 | There is one node per incomplete task, in list order, at `x = 250`. The first is at `y = 0` and each next one is 160 lower, or 240 when the day changes, so `y` strictly increases. Each node is joined to the next by exactly one edge. |
| TimetableFull.ExtendSchedule | src/Components/TimetableFull.jsx:159-192 | Placing the next node one gap below the last, with an edge from the last, keeps the spacing and the chain. |
| TimetableFull.DescendingChain | src/Components/TimetableFull.jsx:164-192 | Nodes spaced one gap apart stand strictly below all earlier ones. |
| TimetableFull.ScheduleNodeIdsDistinct | src/Components/TimetableFull.jsx:160 | Tasks with different ids get different schedule node ids. |
| TimetableFull.TaskIdOfScheduleNode | src/Components/TimetableFull.jsx:114-160 | Reading a schedule node's id back gives its task's id. |
| TimetableFull.HandleTaskUpdate | src/Components/TimetableFull.jsx:113-130 | Specified by `TaskUpdateUnknown` and `TaskUpdateSpec`. |
| TimetableFull.HandleKanbanUpdate | src/Components/TimetableFull.jsx:140-142 | Specified by `KanbanUpdateMovesTask`. |
| TimetableFull.TaskUpdateUnknown | src/Components/TimetableFull.jsx:114-116 | A node id that names no task changes nothing. |
| TimetableFull.TaskUpdateSpec | src/Components/TimetableFull.jsx:113-130 | With unique ids, editing a task's node replaces exactly that task by its edited copy, keeps every other task, and stores the list by due date. |
| TimetableFull.KanbanUpdateMovesTask | src/Components/TimetableFull.jsx:140-142 | After a drop, the tasks with that id are pending exactly when the card went to the pending column. So the next schedule built from this list leaves them out exactly when they are completed. The schedule on screen is not rebuilt by the drop. |
| Timetable.CompletionFirstOrder | src/Components/Timetable.jsx:21-23 | The fetched list permutes the response, with every incomplete task before every completed one, each group in response order. |
| Timetable.Toggle | src/Components/Timetable.jsx:35-36 | Specified by `ToggleOnlyTarget` and `ToggleTwice`. |
| Timetable.DeleteTask | src/Components/Timetable.jsx:46-50 | Specified by `DeleteTaskSpec`. |
| Timetable.ToggleOnlyTarget | src/Components/Timetable.jsx:35-36 | Only tasks with the clicked id change, and only their completion flag, which becomes the opposite of the clicked task's. |
| Timetable.ToggleTwice | src/Components/Timetable.jsx:32-36 | With unique ids, clicking a task twice restores the list. |
| Timetable.DeleteTaskSpec | src/Components/Timetable.jsx:46-50 | A confirmed, successful deletion removes every task with that id and keeps every other task as often as before. |
| Kanban.ColumnsPartition | src/Components/Kanban.jsx:18-19 | The two columns split the tasks by completion, with nothing lost and nothing shown twice. |
| Kanban.OnDragEnd | src/Components/Kanban.jsx:21-39 | Specified by `DropDecision` and `DropFindsDraggedTask`. |
| Kanban.DropDecision | src/Components/Kanban.jsx:21-39 | A drop yields an update exactly when it lands in another column. The update marks the task completed exactly for the `done` column. |
| Kanban.DropFindsDraggedTask | src/Components/Kanban.jsx:31-38 | With unique ids, a drop finds the dragged task, and the update moves it into the destination column. |
| Goals.Clamp | src/Components/Goals.jsx:53 | The stored progress is in [0, 100]. It equals the request inside that range and the nearer end outside it. |
| Goals.UpdateProgress | src/Components/Goals.jsx:52-54 | Specified by `UpdateProgressSpec` and `StepButtons`. |
| Goals.CreateGoal | src/Components/Goals.jsx:24-39 | Specified by `GoalRequest` and `CreateThenDeleteGoal`. |
| Goals.DeleteGoal | src/Components/Goals.jsx:42-46 | Specified by `DeleteGoalSpec` and `CreateThenDeleteGoal`. |
| Goals.UpdateProgressSpec | src/Components/Goals.jsx:52-54 | Only goals with the id change, and only their progress, which becomes the clamped value. A list entirely in range stays so. |
| Goals.StepButtons | src/Components/Goals.jsx:112-114 | The buttons step by 10 and stop at 0 and 100. Away from the ends, one press of each cancels out. |
| Goals.GoalRequest | src/Components/Goals.jsx:24-33 | An empty title sends nothing. Otherwise the request carries the title and progress 0. |
| Goals.DeleteGoalSpec | src/Components/Goals.jsx:42-46 | An unconfirmed deletion changes nothing. A confirmed one removes every goal with that id and keeps every other goal as often as before. |
| Goals.CreateThenDeleteGoal | src/Components/Goals.jsx:24-46 | An empty title or a failed request changes nothing. A saved goal is appended and the field is cleared. Deleting that goal gives back the old list. |
| Dashboard.ComputeStats | src/Components/Dashboard.jsx:21-32 | Specified by `StatsSpec`. |
| Dashboard.StatsSpec | src/Components/Dashboard.jsx:21-32 | The completed and pending counts add up to the number of tasks, and the pending count is the number of incomplete tasks. The focus list is the first (at most) three incomplete tasks, and the recent maps are the first (at most) four. |
| Dashboard.ChartNameSpec | src/Components/Dashboard.jsx:59 | A title of at most 10 characters is its own name. A longer one becomes its first 10 characters and `...`. |
| Dashboard.RoadmapGoalsSpec | src/Components/Dashboard.jsx:143-147 | The list holds exactly the unfinished goals titled `Roadmap:…`, and `Roadmap: <topic>` shows as `<topic>`. |
| Dashboard.AllCaughtUpSpec | src/Components/Dashboard.jsx:156-157 | "All caught up" shows exactly when every task is completed and there are no goals. |
| Focus.FormatTime | src/Components/FocusMode.jsx:30-34 | Specified by `TwoDigitsSpec`, `SessionStartShows`, `MinutesBeforeColon` and `FormatTimeInjective`. |
| Focus.TickStep | src/Components/FocusMode.jsx:11-21 | Specified by `TicksCountDown` and `SessionEnds`. |
| Focus.TwoDigitsSpec | src/Components/FocusMode.jsx:33 | The seconds field is two digits whose value is the seconds. |
| Focus.SessionStartShows | src/Components/FocusMode.jsx:7-34 | The full session shows as `25:00`. |
| Focus.MinutesBeforeColon | src/Components/FocusMode.jsx:33 | No minute digit is a colon, so the first colon separates the fields. |
| Focus.FormatTimeInjective | src/Components/FocusMode.jsx:30-34 | Different times never show the same text. |
| Focus.TicksCountDown | src/Components/FocusMode.jsx:11-21 | A running timer counts down by one per tick to zero and stops on the following tick. A paused one keeps its time. The time never goes negative. |
| Focus.SessionEnds | src/Components/FocusMode.jsx:7-21 | The full session takes 1500 ticks, and the timer then stops at `0:00`. |
| Focus.Timer.constructor | src/Components/FocusMode.jsx:7-8 | The timer starts running with 25 minutes left. |
| Focus.Timer.Tick | src/Components/FocusMode.jsx:11-21 | One tick replaces the state by `TickStep`. |
| Focus.Timer.Toggle | src/Components/FocusMode.jsx:59 | Pause/Resume flips `isActive` and keeps the time. |
| Notifications.CheckRound | src/hooks/useNotifications.js:15-34 | Specified by `CheckRoundSpec` and `NotifiedOnce`. |
| Notifications.CheckRoundSpec | src/hooks/useNotifications.js:15-34 | A round announces only given tasks that are due soon and not yet notified, never two with the same id. The set grows by exactly the announced ids, and afterwards holds every due-soon task's id. |
| Notifications.NotifiedOnce | src/hooks/useNotifications.js:29-31 | Successive rounds never announce a task id twice, and the set only grows. |
| Notifications.Notifier.constructor | src/hooks/useNotifications.js:4 | The notified set starts empty. |
| Notifications.Notifier.CheckTasks | src/hooks/useNotifications.js:15-34 | Without permission nothing is sent and the set stays. Otherwise the announcements and the new set are those of `CheckRound`. |
| Journal.NewestFirstOrder | src/Components/Journal.jsx:22 | The stored notes are the fetched ones, newest first, with notes created at the same moment kept in arrival order. |
| Journal.CreateNote | src/Components/Journal.jsx:29-39 | Specified by `CreateThenDelete`. |
| Journal.DeleteNote | src/Components/Journal.jsx:41-47 | Specified by `DeleteNoteSpec` and `CreateThenDelete`. |
| Journal.Shown | src/Components/Journal.jsx:68 | Specified by `ShownSpec`. |
| Journal.SummaryInput | src/Components/Journal.jsx:54 | Specified by `SummaryInputSpec`. |
| Journal.CreateThenDelete | src/Components/Journal.jsx:30-46 | Blank text creates nothing. A saved note goes on top and the editor clears. Deleting that note gives back the old list. |
| Journal.DeleteNoteSpec | src/Components/Journal.jsx:45-46 | An unconfirmed deletion changes nothing. A confirmed one removes every note with that id and keeps every other note as often as before. |
| Journal.ShownSpec | src/Components/Journal.jsx:68 | A note is shown exactly when its content contains the search up to case. An empty search shows every note. |
| Journal.SummaryInputSpec | src/Components/Journal.jsx:54 | Only the five newest notes reach the prompt. A single note is sent as it is. Any note placed in front of one to four others contributes its content, then the separator, then the rest. |
| Voice.TopicAsWritten | src/Components/VoiceAgent.jsx:126-134 | The topic as written, specified by `TopicAsWrittenLosesLetterA`. |
| Voice.TopicAsWrittenLosesLetterA | src/Components/VoiceAgent.jsx:126-134 | The topic as written never contains a letter `a` in either case, so it is never `java`. |
| Voice.TopicKeepsWords | src/Components/VoiceAgent.jsx:126-134 | The corrected topic drops only whole filler words. Every other word is kept, in order. |
| Voice.Topic | src/Components/VoiceAgent.jsx:126-134 | The corrected topic, specified by `TopicKeepsWords`. |
| Voice.Dispatch | src/Components/VoiceAgent.jsx:56-151 | Specified by `DispatchSpec`. |
| Voice.DispatchSpec | src/Components/VoiceAgent.jsx:56-151 | Whatever the topic: an exit word ends the session; other text goes to the chat unchanged unless it asks for a map; a map request asks for a topic exactly when the topic is shorter than two characters; otherwise the map is titled `Roadmap: <topic>` or `Brainstorm: <topic>`, the assistant is asked about the topic, and the roadmap title gives the topic back. |
| Voice.OnResultAsWritten | src/Components/VoiceAgent.jsx:56-151 | The dispatcher as written, on `TopicAsWritten`; specified by `OnResultAsWrittenSpec`. |
| Voice.OnResultAsWrittenSpec | src/Components/VoiceAgent.jsx:56-151 | As written, an exit word ends the session, a map request asks for a topic exactly when the topic left by the replace chain is shorter than two characters, and a map title is the prefix and that topic, which has no letter `a` in either case and no surrounding blanks. So no request is ever titled `Roadmap: java`. |
| Voice.OnResult | src/Components/VoiceAgent.jsx:56-151 | The corrected dispatcher, on `Topic`; specified by `OnResultSpec`. |
| Voice.OnResultSpec | src/Components/VoiceAgent.jsx:56-151 | For the corrected dispatcher: an exit word ends the session. Other text goes to the chat unless it asks for a map. A map needs a topic of at least two characters with no surrounding blanks, the title is the prefix and that topic, and the roadmap title gives the topic back. |
| Voice.ExitWinsOverMapRequest | src/Components/VoiceAgent.jsx:56-63 | A map request that contains an exit word ends the session instead, both as written and corrected. |
| Records.FilterSpec | src/Components/Kanban.jsx:18-19 | `filter` keeps every passing element as often as it occurs, and nothing else. |
| Records.FilterAppend | src/Components/CommandPalette.jsx:48 | Filtering distributes over concatenation. |
| Records.Partition | src/Components/Kanban.jsx:18-19 | A filter and the filter of its complement split the list, with nothing lost. |
| Records.PartitionDisjoint | src/Components/Kanban.jsx:18-19 | No element is in both halves of a partition. |
| Records.FilterFirst | src/Components/Recommendations.jsx:175 | The first element of a filter is the first passing element of the list. |
| Records.SetCompletionSpec | src/Components/TimetableFull.jsx:141 | Only tasks with the id change, and only their completion flag, which becomes the given value. |
| Records.SetCompletionIdempotent | src/Components/TimetableFull.jsx:141 | Setting the flag twice is setting it once. Setting it to the value the tasks already have changes nothing. |
| Records.FindTask | src/Components/TimetableFull.jsx:115 | `find` gives the first task with the id, and `None` exactly when there is none. |
| Records.FindUnique | src/Components/Kanban.jsx:32 | With unique ids, the task found is the one holding the id. |
| Sorting.SortByProperties | src/Components/Timetable.jsx:21-23 | The sort orders by key, permutes its input, and keeps the input order among equal keys. |
| Sorting.SortedTwoKeys | src/Components/Timetable.jsx:21-23 | A sorted list whose keys are only 0 and 1 is its 0-keyed elements followed by its 1-keyed ones. |
| Text.IndexOf | src/Components/Dashboard.jsx:147 | `indexOf` finds the first occurrence of the pattern, and none exactly when there is none. |
| Text.ReplaceFirstAtStart | src/Components/Dashboard.jsx:147 | A pattern that opens the string is the occurrence `replace` removes. |
| Text.RemoveLetterLeavesNone | src/Components/VoiceAgent.jsx:133 | Removing a one-letter pattern globally leaves no character equal to it up to case. |
| Text.Trim | src/Components/Recommendations.jsx:196 | `trim` gives a slice that neither starts nor ends with white space. Only white space is cut away on either side. |
| Text.BlankIffAllSpace | src/Components/BrainDump.jsx:121 | A string is blank after trimming exactly when all its characters are white space. |
| Text.ParseIntOfNatToString | src/App.jsx:159 | `parseInt` of `String(n)` is `n`. |
| Text.NatToStringInjective | src/App.jsx:131 | Distinct numbers have distinct decimal strings. |
| Text.JoinSplit | src/Components/Recommendations.jsx:187 | Joining the pieces of a split with the separator gives back the text. |

## Left out

- HTTP and persistence. Every `apiClient` call, the autosave and the login flow are out. Replies (roadmap steps, generated maps, fetched lists, saved records, the subtask reply) are parameters. A failed request is modelled as `None` or, in `BrainDump.Board.CreateTasks`, as the number of the rejected request.
- Timers, speech, notifications, audio, `window.confirm` and `alert`. Timers become explicit `Tick` calls or rounds. A confirmation is a boolean parameter. An alert and a spoken reply are the outcome value an operation returns.
- Canvas rendering and the viewport. ReactFlow's change handlers and the dagre layout are out, and so is the floating-point viewport arithmetic that gives paste and merge offsets. Offsets are integer parameters.
- Floating point. The completion rate `completed / total * 100 > 70` is stated on integers, and its `toFixed(0)` text is left out.
- Dates. `new Date(...)` is an integer timestamp, and the calendar day shown by `toLocaleDateString` is a function parameter `dayOf`. The "tomorrow" of `createTasks` (`setDate(getDate() + 1)`) is a parameter. `createTasks` builds a fresh `new Date()` for each `do_now` request; one reading, `now`, stands for all of them.
- `Date.now()` ids and stamps are parameters, not clock readings. `handlePaste` calls `Date.now()` once per pasted edge; one `stamp` stands for all edges of a batch.
- Number width. The id counter and numeric ids are unbounded integers here. In JavaScript they are doubles, so the freshness of minted ids (`App.Editor.MintsAreFresh`, `Graph.MintedIdsDistinct`, `Graph.CopyNodesFreshIds`, `Graph.SeededCounterAhead`) holds only while they stay below 2^53. Above that, `nodeId++` stops advancing, `parseInt` is inexact, and from 10^21 `String(n)` uses exponent notation. The editor itself never mints such ids. Only a loaded map whose ids are that large can push the counter there, and that case is not modelled.
- Strings are sequences of characters, not UTF-16 code units. `toLowerCase` lowercases ASCII letters only.
- React batching and stale closures. Each handler runs atomically on the current state. For example, `undo` reading `past` from its closure is not modelled.
- Recommendations.GenerateInsights: the card texts and labels are not modelled, only the card kind and its counts. The `catch` branch that shows a failure card cannot happen on the modelled inputs.
- The server-side actions behind the insight cards other than `DECOMPOSE_TASK` (`RESCHEDULE_OVERDUE`, `PRIORITIZE`) are left out, as they are only calls.
- Recommendations.DecomposeTask: the due date of each subtask request, a clock reading, is not modelled. A request that fails part-way through the loop is not modelled either.
- The brain dump's assistant conversation (`handleAIChat`, `handleSortingVoiceInput`, speaking the reply) is left out. Its decisions are modelled only through `BrainDump.Board.Categorize`, which is also what the quadrant buttons call. A decision naming no quadrant is not modelled.
- App.Editor.HandleMenuAction: `addToTimetable` is modelled as a server call that leaves the document alone. The task it creates is not modelled.
- App.Editor.OnNodesDelete: the removal itself is done by the canvas library and is not modelled, only the snapshot taken before it.
- Timetable.Toggle and Goals.UpdateProgress are the optimistic local updates. The re-fetch after a failed request is left out.
- TimetableFull.GenerateVisualSchedule: the `animated` and `style` fields of edges and the `onSave` callback of nodes are not modelled.
- Presentation-only components (About, TopBar, Navigation, Sidebar, RightPanel, ContextMenu, NodeDetails, CustomNode, CustomEdge, TaskForm, AIChat, FileCenter) and `src/utils/layout.js` are not part of this model.

## Findings

| source | as written | input that shows it | evidently intended | confidence | as-written member | corrected member |
|---|---|---|---|---|---|---|
| src/App.jsx:155-162 | `loadMap` replaces the document and reseeds the counter but keeps the undo history | Edit map A, then load map B and press Ctrl+Z: map A's document appears in map B's editor, and the autosave writes it into map B. With ids "110" and "5000" in A and "10" in B, the next node added after the undo gets id "110", which A already has | Loading a map clears the history, so undo never crosses from one map into another | not executed | App.Editor.LoadMapAsWritten, App.UndoAfterLoadCrossesMaps, App.LoadAsWrittenMintsDuplicate | App.Editor.LoadMap, App.Editor.MintsAreFresh |
| src/Components/VoiceAgent.jsx:126-134 | `.replace(/for/gi, '').replace(/a/gi, '')` removes every `for` and every letter `a`, inside words too | "create a roadmap for java" gives the topic `jv`, never `java` | Only the filler words `for` and `a` are removed, as whole words | not executed | Voice.TopicAsWritten, Voice.TopicAsWrittenLosesLetterA, Voice.OnResultAsWritten, Voice.OnResultAsWrittenSpec | Voice.Topic, Voice.TopicKeepsWords, Voice.OnResult, Voice.OnResultSpec |
| src/Components/Recommendations.jsx:186-207 | The success alert reports `subtaskLines.length`, which counts lines whose title is empty and that create no task | A reply consisting of `-` reports "Created 1 subtasks" while no task is sent | The alert reports the number of subtasks created | not executed | Recommendations.ReportedCountAsWritten, Recommendations.ReportedCountOvercounts | Recommendations.DecomposeTask |
