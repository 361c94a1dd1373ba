/** The graph-editing controller of `src/App.jsx`: the module-level id
    counter `nodeId`, the document (`nodes`, `edges`), the clipboard, the map
    being edited and the undo history, and the handlers that change them.
    Every handler is stated against the pure rules of module `Graph` and the
    history functions of module `UndoRedo`. */
module App {
  import opened Wrappers
  import opened Text
  import opened Graph
  import opened UndoRedo

  /** `let nodeId = 1000`. */
  const InitialNodeId: nat := 1000

  /** The `options` of `addNode`: a missing position, label, style or summary
      is `None` or empty. */
  datatype AddOptions = AddOptions(position: Option<Position>, caption: string, style: Option<NodeStyle>, summary: string)

  /** The node `addNode(options)` creates under `id`; `fallback` stands for
      the random position used when none is given. */
  function NewNode(options: AddOptions, id: string, fallback: Position): Node
  {
    Node(id, options.position.GetOr(fallback),
         NodeData(if options.caption == "" then "Untitled" else options.caption, options.summary, options.style.GetOr(DefaultStyle)),
         false)
  }

  /** The context-menu actions; `Unknown` is any other action name. */
  datatype MenuAction =
    | AddToTimetable
    | GenerateRoadmap
    | SelectGroup
    | SetNodeColor(background: string, text: string)
    | SetEdgeStyle(choice: string)
    | Unknown(name: string)

  /** The item the context menu was opened on: `contextMenu.id`, and the node
      itself when it is a node. */
  datatype MenuTarget = MenuTarget(id: string, node: Option<Node>)

  /** `generateRoadmap` goes ahead only for a node with a label. */
  predicate RoadmapApplies(source: Option<Node>)
  {
    source.Some? && source.value.data.text != ""
  }

  /** The steps a roadmap reply contributes: a missing reply or a missing
      `steps` list contributes none (the handler throws before adding). */
  function RoadmapSteps(steps: Option<seq<string>>): seq<string>
  {
    steps.GetOr([])
  }

  /** Only the two style actions take a snapshot in `handleMenuAction`
      itself; `generateRoadmap` takes its own. */
  predicate MenuSnapshots(action: MenuAction)
  {
    action.SetNodeColor? || action.SetEdgeStyle?
  }

  /** The edge loop of `handlePaste` and `onAiGeneratedMap`:
      `edges.forEach(edge => { ... if (src && tgt) newEdges.push(...) })`. */
  method RewireBatch(es: seq<Edge>, idMap: map<string, string>, kind: BatchKind) returns (newEdges: seq<Edge>)
    ensures newEdges == RewireEdges(es, idMap, kind)
  {
    newEdges := [];
    var j := 0;
    while j < |es|
      invariant 0 <= j <= |es|
      invariant newEdges == RewireEdges(es[..j], idMap, kind)
    {
      var edge := es[j];
      assert es[..j + 1][..j] == es[..j];
      if edge.source in idMap && edge.target in idMap {
        var src, tgt := idMap[edge.source], idMap[edge.target];
        newEdges := newEdges + [RewireEdge(edge, src, tgt, kind)];
      }
      j := j + 1;
    }
    assert es[..j] == es;
  }

  /** Every document the history holds is below the counter. */
  predicate HistoryBelow(h: HistoryState<Doc>, k: nat)
  {
    (forall d :: d in h.past ==> IdsBelow(d.nodes, k)) && (forall d :: d in h.future ==> IdsBelow(d.nodes, k))
  }

  lemma HistoryBelowMonotone(h: HistoryState<Doc>, k: nat, k': nat)
    requires HistoryBelow(h, k) && k <= k'
    ensures HistoryBelow(h, k')
  {
  }

  /** Snapshot, undo and redo keep every stored document, and the restored
      one, below a counter that is ahead of the current document. */
  lemma HistoryStepsBelow(h: HistoryState<Doc>, current: Doc, k: nat)
    requires HistoryBelow(h, k) && IdsBelow(current.nodes, k)
    ensures HistoryBelow(SnapshotStep(h, current), k)
    ensures HistoryBelow(UndoStep(h, current).0, k)
    ensures UndoStep(h, current).1.Some? ==> IdsBelow(UndoStep(h, current).1.value.nodes, k)
    ensures HistoryBelow(RedoStep(h, current).0, k)
    ensures RedoStep(h, current).1.Some? ==> IdsBelow(RedoStep(h, current).1.value.nodes, k)
  {
    StepsKeepDocuments(h, current);
  }

  /** With the load as written, the history survives the switch of maps:
      once document `a` of one map has been snapshotted, loading any
      document `b` of another map leaves an undo that puts `a` into the
      editor of the second map (which the autosave then writes to it). */
  lemma UndoAfterLoadCrossesMaps(h: HistoryState<Doc>, a: Doc, b: Doc)
    ensures UndoStep(SnapshotStep(h, a), b).1 == Some(a)
    ensures UndoStep(SnapshotStep(h, a), b).0.future == [b]
  {
  }

  function PlainNode(id: string): Node
  {
    Node(id, Position(0, 0), NodeData("", "", DefaultStyle), false)
  }

  /** The load as written also lets ids collide. Loading map A with ids
      "110" and "5000" seeds the counter to 5100; after one edit, loading
      map B with the single id "10" reseeds it to 110 while A is still in the
      history. Undo brings A back, and the next id minted, "110", is already
      the id of A's first node: the counter is no longer ahead of the
      document. */
  lemma LoadAsWrittenMintsDuplicate()
    ensures var a := Doc([PlainNode(MintedId(110)), PlainNode(MintedId(5000))], []);
            var b := Doc([PlainNode(MintedId(10))], []);
            var afterA := SeedCounter(a.nodes, InitialNodeId);
            var afterB := SeedCounter(b.nodes, afterA);
            afterA == 5100 && afterB == 110
            && UndoStep(SnapshotStep(HistoryState([], []), a), b).1 == Some(a)
            && HasNode(a.nodes, MintedId(afterB)) && !IdsBelow(a.nodes, afterB)
  {
    var a := Doc([PlainNode(MintedId(110)), PlainNode(MintedId(5000))], []);
    var b := Doc([PlainNode(MintedId(10))], []);
    MintedIdsDistinct(110, 110);
    MintedIdsDistinct(5000, 5000);
    MintedIdsDistinct(10, 10);
    assert a.nodes[..1][..0] == [];
    assert MaxNumericId(a.nodes[..1]) == 110;
    assert MaxNumericId(a.nodes) == 5000;
    assert MaxNumericId(b.nodes) == 10;
    assert a.nodes[0] in a.nodes;
  }

  /** The editor. The counter lives here instead of at module level; its
      value persists across calls exactly as the module variable does. */
  class Editor {
    var nodeId: nat
    var nodes: seq<Node>
    var edges: seq<Edge>
    var clipboard: Option<Doc>
    var currentMapId: Option<string>
    var contextMenu: Option<MenuTarget>
    const history: History<Doc>

    function Current(): Doc
      reads this
    {
      Doc(nodes, edges)
    }

    /** The history is bounded, and the counter is ahead of the document and
        of every document undo or redo can bring back. */
    ghost predicate Valid()
      reads this, history
    {
      history.Valid() && IdsBelow(nodes, nodeId) && HistoryBelow(history.State(), nodeId)
    }

    /** No id the counter mints from now on is already the id of a node,
        neither in the document nor in any document of the history. */
    lemma MintsAreFresh(j: nat)
      requires Valid() && nodeId <= j
      ensures !HasNode(nodes, MintedId(j))
      ensures forall d :: d in history.past || d in history.future ==> !HasNode(d.nodes, MintedId(j))
    {
      BelowIsFresh(nodes, nodeId);
      forall d | d in history.past || d in history.future ensures !HasNode(d.nodes, MintedId(j)) {
        BelowIsFresh(d.nodes, nodeId);
      }
    }

    constructor ()
      ensures Valid() && fresh(history)
      ensures nodeId == InitialNodeId && nodes == [] && edges == [] && clipboard == None
      ensures currentMapId == None && contextMenu == None
      ensures history.State() == HistoryState([], [])
    {
      nodeId := InitialNodeId;
      nodes := [];
      edges := [];
      clipboard := None;
      currentMapId := None;
      contextMenu := None;
      history := new History();
    }

    /** The node loop of `handlePaste` and `onAiGeneratedMap`: one id per
        node, in batch order, by post-incrementing the counter. */
    method CopyBatch(batch: seq<Node>, shift: Position, kind: BatchKind) returns (newNodes: seq<Node>, idMap: map<string, string>)
      modifies this
      ensures newNodes == CopyNodes(batch, old(nodeId), shift, kind)
      ensures idMap == IdMap(batch, old(nodeId))
      ensures nodeId == old(nodeId) + |batch|
      ensures nodes == old(nodes) && edges == old(edges) && clipboard == old(clipboard)
      ensures currentMapId == old(currentMapId) && contextMenu == old(contextMenu)
    {
      newNodes := [];
      idMap := map[];
      var i := 0;
      while i < |batch|
        invariant 0 <= i <= |batch|
        invariant nodeId == old(nodeId) + i
        invariant newNodes == CopyNodes(batch[..i], old(nodeId), shift, kind)
        invariant idMap == IdMap(batch[..i], old(nodeId))
        invariant nodes == old(nodes) && edges == old(edges) && clipboard == old(clipboard)
        invariant currentMapId == old(currentMapId) && contextMenu == old(contextMenu)
      {
        var node := batch[i];
        var newId := MintedId(nodeId);
        nodeId := nodeId + 1;
        idMap := idMap[node.id := newId];
        newNodes := newNodes + [CopyNode(node, newId, shift, kind)];
        assert batch[..i + 1][..i] == batch[..i];
        i := i + 1;
      }
      assert batch[..i] == batch;
    }

    /** `handleCopy`: the selected items go to the clipboard when at least
        one node is selected. */
    method Copy()
      modifies this
      ensures var picked := Doc(Selected(old(nodes)), SelectedEdges(old(edges)));
              clipboard == if |picked.nodes| > 0 then Some(picked) else old(clipboard)
      ensures nodeId == old(nodeId) && nodes == old(nodes) && edges == old(edges)
      ensures currentMapId == old(currentMapId) && contextMenu == old(contextMenu)
    {
      var picked := Doc(Selected(nodes), SelectedEdges(edges));
      if |picked.nodes| > 0 {
        clipboard := Some(picked);
      }
    }

    /** `handlePaste`. With no clipboard, or a clipboard without nodes,
        nothing happens and no snapshot is taken. Otherwise the document is
        snapshotted and becomes `PasteDoc` of the old one, and the counter
        advances by the number of pasted nodes. */
    method Paste(shift: Position, stamp: nat)
      requires Valid()
      modifies this, history
      ensures Valid()
      ensures clipboard == old(clipboard) && currentMapId == old(currentMapId) && contextMenu == old(contextMenu)
      ensures old(clipboard).None? || |old(clipboard).value.nodes| == 0 ==>
                nodeId == old(nodeId) && Current() == old(Current()) && history.State() == old(history.State())
      ensures old(clipboard).Some? && |old(clipboard).value.nodes| > 0 ==>
                history.State() == SnapshotStep(old(history.State()), old(Current()))
                && Current() == PasteDoc(old(Current()), old(clipboard).value, old(nodeId), shift, stamp)
                && nodeId == old(nodeId) + |old(clipboard).value.nodes|
      ensures forall j :: old(nodeId) <= j < nodeId ==> !HasNode(old(nodes), MintedId(j))
    {
      if clipboard.None? || |clipboard.value.nodes| == 0 {
        return;
      }
      var clip := clipboard.value;
      history.TakeSnapshot(Current());
      var newNodes, idMap := CopyBatch(clip.nodes, shift, BatchKind.Paste(stamp));
      var newEdges := RewireBatch(clip.edges, idMap, BatchKind.Paste(stamp));
      nodes := DeselectNodes(nodes) + newNodes;
      edges := DeselectEdges(edges) + newEdges;
      BatchesKeepCounterAhead(old(Current()), clip, old(nodeId), shift, stamp);
      HistoryStepsBelow(old(history.State()), old(Current()), old(nodeId));
      HistoryBelowMonotone(history.State(), old(nodeId), nodeId);
    }

    /** `onAiGeneratedMap`: snapshot, then the incoming map is merged under
        fresh ids at the viewport centre. */
    method MergeGenerated(incoming: Doc, center: Position)
      requires Valid()
      modifies this, history
      ensures Valid()
      ensures clipboard == old(clipboard) && currentMapId == old(currentMapId) && contextMenu == old(contextMenu)
      ensures history.State() == SnapshotStep(old(history.State()), old(Current()))
      ensures Current() == MergeDoc(old(Current()), incoming, old(nodeId), center)
      ensures nodeId == old(nodeId) + |incoming.nodes|
      ensures forall j :: old(nodeId) <= j < nodeId ==> !HasNode(old(nodes), MintedId(j))
    {
      history.TakeSnapshot(Current());
      var newNodes, idMap := CopyBatch(incoming.nodes, center, Merge);
      var newEdges := RewireBatch(incoming.edges, idMap, Merge);
      nodes := nodes + newNodes;
      edges := edges + newEdges;
      BatchesKeepCounterAhead(old(Current()), incoming, old(nodeId), center, 0);
      HistoryStepsBelow(old(history.State()), old(Current()), old(nodeId));
      HistoryBelowMonotone(history.State(), old(nodeId), nodeId);
    }

    /** `generateRoadmap(sourceNode)` once the reply has arrived. A missing
        source or one without a label changes nothing; otherwise a snapshot
        is taken, and the chain of the reply's steps (none for a missing or
        empty list) is appended. */
    method GenerateRoadmap(source: Option<Node>, steps: Option<seq<string>>)
      requires Valid()
      modifies this, history
      ensures Valid()
      ensures clipboard == old(clipboard) && currentMapId == old(currentMapId) && contextMenu == old(contextMenu)
      ensures !RoadmapApplies(source) ==>
                nodeId == old(nodeId) && Current() == old(Current()) && history.State() == old(history.State())
      ensures RoadmapApplies(source) ==>
                history.State() == SnapshotStep(old(history.State()), old(Current()))
                && nodes == old(nodes) + RoadmapNodes(source.value, RoadmapSteps(steps), old(nodeId))
                && edges == old(edges) + RoadmapEdges(source.value, RoadmapSteps(steps), old(nodeId))
                && nodeId == old(nodeId) + |RoadmapSteps(steps)|
      ensures forall j :: old(nodeId) <= j < nodeId ==> !HasNode(old(nodes), MintedId(j))
    {
      if source.None? || source.value.data.text == "" {
        return;
      }
      var src := source.value;
      history.TakeSnapshot(Current());
      HistoryStepsBelow(old(history.State()), old(Current()), old(nodeId));
      BelowIsFresh(old(nodes), old(nodeId));
      if steps.None? || |steps.value| == 0 {
        return;
      }
      var list := steps.value;
      var newNodes: seq<Node> := [];
      var newEdges: seq<Edge> := [];
      var lastNodeId := src.id;
      var i := 0;
      while i < |list|
        invariant 0 <= i <= |list|
        invariant nodeId == old(nodeId) + i
        invariant lastNodeId == ChainId(src, old(nodeId), i)
        invariant newNodes == RoadmapNodes(src, list[..i], old(nodeId))
        invariant newEdges == RoadmapEdges(src, list[..i], old(nodeId))
        invariant nodes == old(nodes) && edges == old(edges)
        invariant clipboard == old(clipboard) && currentMapId == old(currentMapId) && contextMenu == old(contextMenu)
        invariant history.State() == SnapshotStep(old(history.State()), old(Current())) && history.Valid()
      {
        var newNodeId := MintedId(nodeId);
        nodeId := nodeId + 1;
        newNodes := newNodes + [RoadmapNode(src, list[i], newNodeId, i)];
        newEdges := newEdges + [RoadmapEdge(lastNodeId, newNodeId)];
        lastNodeId := newNodeId;
        assert newNodes == RoadmapNodes(src, list[..i + 1], old(nodeId));
        assert newEdges == RoadmapEdges(src, list[..i + 1], old(nodeId));
        i := i + 1;
      }
      assert list[..i] == list;
      nodes := nodes + newNodes;
      edges := edges + newEdges;
      RoadmapNodesBelow(src, list, old(nodeId));
      BelowMonotone(old(nodes), old(nodeId), nodeId);
      HistoryBelowMonotone(history.State(), old(nodeId), nodeId);
    }

    /** `selectConnectedGroup(startNodeId)`: a node stays selected iff it is
        reachable from the start along edges read as undirected, an edge iff
        its id is the id of an edge touching such a node; nothing else
        changes. */
    method SelectConnectedGroup(start: string)
      requires Valid()
      modifies this
      ensures Valid()
      ensures |nodes| == |old(nodes)| && |edges| == |old(edges)|
      ensures forall i :: 0 <= i < |nodes| ==>
                nodes[i] == old(nodes)[i].(selected := Reachable(old(edges), start, old(nodes)[i].id))
      ensures forall i :: 0 <= i < |edges| ==>
                edges[i] == old(edges)[i].(selected := exists e :: e in old(edges) && e.id == old(edges)[i].id
                                                        && (Reachable(old(edges), start, e.source) || Reachable(old(edges), start, e.target)))
      ensures nodeId == old(nodeId) && clipboard == old(clipboard)
      ensures currentMapId == old(currentMapId) && contextMenu == old(contextMenu)
    {
      var nodeIds, edgeIds := ConnectedGroup(edges, start);
      ghost var es := edges;
      nodes := SelectNodes(nodes, nodeIds);
      edges := SelectEdges(edges, edgeIds);
      SameIdsBelow(old(nodes), nodes, nodeId);
      forall i | 0 <= i < |edges|
        ensures edges[i].selected <==>
                  (exists e :: e in es && e.id == es[i].id && (Reachable(es, start, e.source) || Reachable(es, start, e.target)))
      {
        if edges[i].selected {
          var e :| e in es && Touches(e, nodeIds) && e.id == es[i].id;
        }
      }
    }

    /** `addNode(options)`: snapshot, then one node under a fresh id is
        appended and returned. */
    method AddNode(options: AddOptions, fallback: Position) returns (node: Node)
      requires Valid()
      modifies this, history
      ensures Valid()
      ensures history.State() == SnapshotStep(old(history.State()), old(Current()))
      ensures node == NewNode(options, MintedId(old(nodeId)), fallback)
      ensures nodes == old(nodes) + [node] && edges == old(edges)
      ensures nodeId == old(nodeId) + 1
      ensures clipboard == old(clipboard) && currentMapId == old(currentMapId) && contextMenu == old(contextMenu)
      ensures !HasNode(old(nodes), node.id)
    {
      history.TakeSnapshot(Current());
      node := NewNode(options, MintedId(nodeId), fallback);
      nodeId := nodeId + 1;
      nodes := nodes + [node];
      HistoryStepsBelow(old(history.State()), old(Current()), old(nodeId));
      HistoryBelowMonotone(history.State(), old(nodeId), nodeId);
      BelowIsFresh(old(nodes), old(nodeId));
      MintedIdsDistinct(old(nodeId), old(nodeId));
    }

    /** `onNodesDelete`: the snapshot taken before the canvas library
        removes the nodes. */
    method OnNodesDelete()
      requires Valid()
      modifies history
      ensures Valid()
      ensures history.State() == SnapshotStep(old(history.State()), Current())
    {
      history.TakeSnapshot(Current());
      HistoryStepsBelow(old(history.State()), Current(), nodeId);
    }

    /** `handleMenuAction(action, payload)` on the menu's target. The two
        style actions snapshot and restyle the target; `generateRoadmap` and
        `selectGroup` behave as `GenerateRoadmap` and `SelectConnectedGroup`;
        `addToTimetable` only calls the server. The menu closes afterwards. */
    method HandleMenuAction(action: MenuAction, target: MenuTarget, steps: Option<seq<string>>)
      requires Valid()
      modifies this, history
      ensures Valid()
      ensures contextMenu == None && clipboard == old(clipboard) && currentMapId == old(currentMapId)
      ensures action.SetNodeColor? ==>
                history.State() == SnapshotStep(old(history.State()), old(Current()))
                && nodes == Recolor(old(nodes), target.id, NodeStyle(action.background, action.text))
                && edges == old(edges) && nodeId == old(nodeId)
      ensures action.SetEdgeStyle? ==>
                history.State() == SnapshotStep(old(history.State()), old(Current()))
                && edges == Restyle(old(edges), target.id, action.choice)
                && nodes == old(nodes) && nodeId == old(nodeId)
      ensures action.GenerateRoadmap? && RoadmapApplies(target.node) ==>
                history.State() == SnapshotStep(old(history.State()), old(Current()))
                && nodes == old(nodes) + RoadmapNodes(target.node.value, RoadmapSteps(steps), old(nodeId))
                && edges == old(edges) + RoadmapEdges(target.node.value, RoadmapSteps(steps), old(nodeId))
                && nodeId == old(nodeId) + |RoadmapSteps(steps)|
      ensures action.SelectGroup? ==>
                history.State() == old(history.State()) && nodeId == old(nodeId)
                && |nodes| == |old(nodes)|
                && (forall i :: 0 <= i < |nodes| ==>
                      nodes[i] == old(nodes)[i].(selected := Reachable(old(edges), target.id, old(nodes)[i].id)))
                && |edges| == |old(edges)|
                && (forall i :: 0 <= i < |edges| ==>
                      edges[i] == old(edges)[i].(selected := (exists e :: e in old(edges) && e.id == old(edges)[i].id
                                                                && (Reachable(old(edges), target.id, e.source)
                                                                    || Reachable(old(edges), target.id, e.target)))))
      ensures (action.AddToTimetable? || action.Unknown? || (action.GenerateRoadmap? && !RoadmapApplies(target.node))) ==>
                history.State() == old(history.State()) && Current() == old(Current()) && nodeId == old(nodeId)
    {
      if MenuSnapshots(action) {
        history.TakeSnapshot(Current());
        HistoryStepsBelow(old(history.State()), Current(), nodeId);
      }
      match action {
        case AddToTimetable =>
        case GenerateRoadmap => GenerateRoadmap(target.node, steps);
        case SelectGroup => SelectConnectedGroup(target.id);
        case SetNodeColor(background, text) =>
          RecolorOnlyTarget(nodes, target.id, NodeStyle(background, text));
          SameIdsBelow(nodes, Recolor(nodes, target.id, NodeStyle(background, text)), nodeId);
          nodes := Recolor(nodes, target.id, NodeStyle(background, text));
        case SetEdgeStyle(choice) => edges := Restyle(edges, target.id, choice);
        case Unknown(_) =>
      }
      contextMenu := None;
    }

    /** Ctrl+Z: `undo(nodes, edges, ...)`; the restored document, if any,
        becomes current. */
    method Undo()
      requires Valid()
      modifies this, history
      ensures Valid()
      ensures history.State() == UndoStep(old(history.State()), old(Current())).0
      ensures Current() == UndoStep(old(history.State()), old(Current())).1.GetOr(old(Current()))
      ensures nodeId == old(nodeId) && clipboard == old(clipboard)
      ensures currentMapId == old(currentMapId) && contextMenu == old(contextMenu)
    {
      HistoryStepsBelow(history.State(), Current(), nodeId);
      var restored := history.Undo(Current());
      if restored.Some? {
        nodes := restored.value.nodes;
        edges := restored.value.edges;
      }
    }

    /** Ctrl+Y or Ctrl+Shift+Z: `redo(nodes, edges, ...)`. */
    method Redo()
      requires Valid()
      modifies this, history
      ensures Valid()
      ensures history.State() == RedoStep(old(history.State()), old(Current())).0
      ensures Current() == RedoStep(old(history.State()), old(Current())).1.GetOr(old(Current()))
      ensures nodeId == old(nodeId) && clipboard == old(clipboard)
      ensures currentMapId == old(currentMapId) && contextMenu == old(contextMenu)
    {
      HistoryStepsBelow(history.State(), Current(), nodeId);
      var restored := history.Redo(Current());
      if restored.Some? {
        nodes := restored.value.nodes;
        edges := restored.value.edges;
      }
    }

    /** `loadMap(id)` as written: on a reply the document is replaced, the
        map becomes current and the counter is reseeded, but the undo
        history is kept, so that `Valid()` is not kept either (see
        `UndoAfterLoadCrossesMaps` and `LoadAsWrittenMintsDuplicate`). A
        failed request (`None`) changes nothing. */
    method LoadMapAsWritten(id: string, reply: Option<Doc>)
      modifies this
      ensures history.State() == old(history.State())
      ensures reply.None? ==> Current() == old(Current()) && nodeId == old(nodeId) && currentMapId == old(currentMapId)
      ensures reply.Some? ==>
                Current() == reply.value && currentMapId == Some(id)
                && nodeId == SeedCounter(reply.value.nodes, old(nodeId))
      ensures clipboard == old(clipboard) && contextMenu == old(contextMenu)
    {
      if reply.Some? {
        nodes := reply.value.nodes;
        edges := reply.value.edges;
        currentMapId := Some(id);
        nodeId := SeedCounter(nodes, nodeId);
      }
    }

    /** `loadMap(id)` with the history cleared on a successful load, so that
        undo and redo never cross from one map into another. */
    method LoadMap(id: string, reply: Option<Doc>)
      requires Valid()
      modifies this, history
      ensures Valid()
      ensures reply.None? ==>
                Current() == old(Current()) && nodeId == old(nodeId) && currentMapId == old(currentMapId)
                && history.State() == old(history.State())
      ensures reply.Some? ==>
                Current() == reply.value && currentMapId == Some(id)
                && nodeId == SeedCounter(reply.value.nodes, old(nodeId))
                && history.State() == HistoryState([], []) && !history.CanUndo() && !history.CanRedo()
      ensures clipboard == old(clipboard) && contextMenu == old(contextMenu)
    {
      if reply.Some? {
        nodes := reply.value.nodes;
        edges := reply.value.edges;
        currentMapId := Some(id);
        SeededCounterAhead(nodes, nodeId);
        nodeId := SeedCounter(nodes, nodeId);
        history.Clear();
      }
    }
  }

  function Selected(ns: seq<Node>): seq<Node>
  {
    if ns == [] then []
    else Selected(ns[..|ns| - 1]) + (if ns[|ns| - 1].selected then [ns[|ns| - 1]] else [])
  }

  function SelectedEdges(es: seq<Edge>): seq<Edge>
  {
    if es == [] then []
    else SelectedEdges(es[..|es| - 1]) + (if es[|es| - 1].selected then [es[|es| - 1]] else [])
  }
}
