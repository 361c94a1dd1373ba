/** The mind-map document of `src/App.jsx` and the pure rules the editor
    applies to it: minting decimal ids from the counter, copying a batch of
    nodes under fresh ids (paste and AI merge), rewiring the batch's edges and
    dropping those whose endpoint was not copied, the roadmap chain, the colour
    and edge-style actions, seeding the counter on load, and the connected
    group reached from a node when edges are read as undirected. */
module Graph {
  import opened Wrappers
  import opened Text

  // ---------------------------------------------------------------------------
  // The document

  /** Canvas coordinates. The viewport arithmetic that produces offsets is
      floating point in the application; offsets arrive here as integers. */
  datatype Position = Position(x: int, y: int)

  datatype NodeStyle = NodeStyle(background: string, color: string)

  /** The style of a node created by the editor itself. */
  const DefaultStyle := NodeStyle("#2a2a2a", "#f0f0f0")

  /** A node's `data`; `text` is its `label`, and an empty one stands for a missing label (both are
      falsy in the application). */
  datatype NodeData = NodeData(text: string, summary: string, style: NodeStyle)

  datatype Node = Node(id: string, position: Position, data: NodeData, selected: bool)

  /** An edge; `arrow` is a closed-arrow `markerEnd`, `dotted` a dashed stroke. */
  datatype Edge = Edge(id: string, source: string, target: string, selected: bool, arrow: bool, dotted: bool)

  /** The `{nodes, edges}` pair that the editor shows and the history stores. */
  datatype Doc = Doc(nodes: seq<Node>, edges: seq<Edge>)

  function Shift(p: Position, d: Position): Position
  {
    Position(p.x + d.x, p.y + d.y)
  }

  /** `` `${nodeId++}` ``: the id minted from counter value `k`. */
  function MintedId(k: nat): string
  {
    NatToString(k)
  }

  /** Ids minted from different counter values differ, and each reads back as
      its counter value. */
  lemma MintedIdsDistinct(a: nat, b: nat)
    ensures a != b ==> MintedId(a) != MintedId(b)
    ensures ParseIntOrZero(MintedId(a)) == a
  {
    NatToStringInjective(a, b);
    ParseIntOfNatToString(a);
  }

  predicate HasNode(nodes: seq<Node>, id: string)
  {
    exists n :: n in nodes && n.id == id
  }

  /** Every edge connects two nodes of the document. */
  predicate NoDangling(doc: Doc)
  {
    forall e :: e in doc.edges ==> HasNode(doc.nodes, e.source) && HasNode(doc.nodes, e.target)
  }

  // ---------------------------------------------------------------------------
  // Copying a batch under fresh ids

  /** Paste and AI merge differ in three details: a pasted item is selected,
      a pasted edge's id ends with the `Date.now()` stamp, and a merged item
      keeps its own selection. */
  datatype BatchKind = Paste(stamp: nat) | Merge

  /** `{ ...node, id: newId, position: shifted, [selected: true] }`. */
  function CopyNode(n: Node, newId: string, shift: Position, kind: BatchKind): Node
  {
    n.(id := newId, position := Shift(n.position, shift), selected := if kind.Paste? then true else n.selected)
  }

  /** The copied batch, the `i`-th node minted from counter value `start + i`. */
  function CopyNodes(batch: seq<Node>, start: nat, shift: Position, kind: BatchKind): seq<Node>
  {
    seq(|batch|, i requires 0 <= i < |batch| => CopyNode(batch[i], MintedId(start + i), shift, kind))
  }

  /** The `idMap` built by `idMap.set(node.id, newId)` in batch order: a
      repeated id is overwritten, so its last occurrence wins. */
  function IdMap(batch: seq<Node>, start: nat): map<string, string>
    decreases |batch|
  {
    if batch == [] then map[]
    else IdMap(batch[..|batch| - 1], start)[batch[|batch| - 1].id := MintedId(start + |batch| - 1)]
  }

  function EdgeId(src: string, tgt: string, kind: BatchKind): string
  {
    match kind
    case Paste(stamp) => "e-" + src + "-" + tgt + "-" + NatToString(stamp)
    case Merge => "e-" + src + "-" + tgt
  }

  function RewireEdge(e: Edge, src: string, tgt: string, kind: BatchKind): Edge
  {
    e.(id := EdgeId(src, tgt, kind), source := src, target := tgt, selected := if kind.Paste? then true else e.selected)
  }

  /** The batch's edges whose two endpoints were copied, rewired to the new
      ids, in batch order; the other edges are dropped. */
  function RewireEdges(es: seq<Edge>, m: map<string, string>, kind: BatchKind): seq<Edge>
    decreases |es|
  {
    if es == [] then []
    else
      var e := es[|es| - 1];
      RewireEdges(es[..|es| - 1], m, kind)
      + (if e.source in m && e.target in m then [RewireEdge(e, m[e.source], m[e.target], kind)] else [])
  }

  /** The index of the last node of `batch` with id `k`, or -1 when none has it. */
  function LastIndex(batch: seq<Node>, k: string): (j: int)
    ensures -1 <= j < |batch|
    ensures j >= 0 ==> batch[j].id == k
    ensures forall j' :: j < j' < |batch| ==> batch[j'].id != k
    decreases |batch|
  {
    if batch == [] then -1
    else if batch[|batch| - 1].id == k then |batch| - 1
    else LastIndex(batch[..|batch| - 1], k)
  }

  /** An old id is mapped iff some batch node has it, and it is mapped to the
      id minted for the last such node. */
  lemma {:induction false} IdMapSpec(batch: seq<Node>, start: nat, k: string)
    ensures k in IdMap(batch, start) <==> LastIndex(batch, k) >= 0
    ensures k in IdMap(batch, start) ==> IdMap(batch, start)[k] == MintedId(start + LastIndex(batch, k))
    decreases |batch|
  {
    if batch != [] {
      IdMapSpec(batch[..|batch| - 1], start, k);
    }
  }

  /** The copied nodes carry pairwise distinct ids, each of which reads back
      as the counter value it was minted from. */
  lemma CopyNodesFreshIds(batch: seq<Node>, start: nat, shift: Position, kind: BatchKind)
    ensures |CopyNodes(batch, start, shift, kind)| == |batch|
    ensures forall i, j :: 0 <= i < j < |batch| ==>
              CopyNodes(batch, start, shift, kind)[i].id != CopyNodes(batch, start, shift, kind)[j].id
    ensures forall i :: 0 <= i < |batch| ==> ParseIntOrZero(CopyNodes(batch, start, shift, kind)[i].id) == start + i
  {
    forall i, j | 0 <= i < j < |batch|
      ensures CopyNodes(batch, start, shift, kind)[i].id != CopyNodes(batch, start, shift, kind)[j].id
    {
      MintedIdsDistinct(start + i, start + j);
    }
    forall i | 0 <= i < |batch|
      ensures ParseIntOrZero(CopyNodes(batch, start, shift, kind)[i].id) == start + i
    {
      MintedIdsDistinct(start + i, start + i);
    }
  }

  /** An edge of the batch survives iff both its endpoints are mapped, and
      every survivor is such an edge rewired through the map. */
  lemma {:induction false} RewireEdgesExact(es: seq<Edge>, m: map<string, string>, kind: BatchKind)
    ensures forall e :: e in es && e.source in m && e.target in m ==>
              RewireEdge(e, m[e.source], m[e.target], kind) in RewireEdges(es, m, kind)
    ensures forall r :: r in RewireEdges(es, m, kind) ==>
              exists e :: e in es && e.source in m && e.target in m && r == RewireEdge(e, m[e.source], m[e.target], kind)
    ensures |RewireEdges(es, m, kind)| <= |es|
    decreases |es|
  {
    if es != [] {
      var init, last := es[..|es| - 1], es[|es| - 1];
      assert es == init + [last];
      RewireEdgesExact(init, m, kind);
      forall r | r in RewireEdges(es, m, kind)
        ensures exists e :: e in es && e.source in m && e.target in m && r == RewireEdge(e, m[e.source], m[e.target], kind)
      {
        if r in RewireEdges(init, m, kind) {
          var e :| e in init && e.source in m && e.target in m && r == RewireEdge(e, m[e.source], m[e.target], kind);
          assert e in es;
        } else {
          assert last in es;
        }
      }
    }
  }

  /** Every edge produced by rewiring through `IdMap` joins two copied nodes:
      a copied batch brings no dangling edge. */
  lemma CopiedEdgesJoinCopiedNodes(batch: seq<Node>, es: seq<Edge>, start: nat, shift: Position, kind: BatchKind)
    ensures forall r :: r in RewireEdges(es, IdMap(batch, start), kind) ==>
              HasNode(CopyNodes(batch, start, shift, kind), r.source) && HasNode(CopyNodes(batch, start, shift, kind), r.target)
  {
    var m := IdMap(batch, start);
    var copies := CopyNodes(batch, start, shift, kind);
    RewireEdgesExact(es, m, kind);
    forall r | r in RewireEdges(es, m, kind) ensures HasNode(copies, r.source) && HasNode(copies, r.target) {
      var e :| e in es && e.source in m && e.target in m && r == RewireEdge(e, m[e.source], m[e.target], kind);
      MappedIdIsCopied(batch, start, shift, kind, e.source);
      MappedIdIsCopied(batch, start, shift, kind, e.target);
    }
  }

  /** A mapped id is the id of a copied node. */
  lemma MappedIdIsCopied(batch: seq<Node>, start: nat, shift: Position, kind: BatchKind, k: string)
    requires k in IdMap(batch, start)
    ensures HasNode(CopyNodes(batch, start, shift, kind), IdMap(batch, start)[k])
  {
    var copies := CopyNodes(batch, start, shift, kind);
    IdMapSpec(batch, start, k);
    var j := LastIndex(batch, k);
    assert copies[j] in copies;
  }

  // ---------------------------------------------------------------------------
  // Paste and AI merge

  function DeselectNodes(ns: seq<Node>): seq<Node>
  {
    seq(|ns|, i requires 0 <= i < |ns| => ns[i].(selected := false))
  }

  function DeselectEdges(es: seq<Edge>): seq<Edge>
  {
    seq(|es|, i requires 0 <= i < |es| => es[i].(selected := false))
  }

  /** `handlePaste` once the clipboard holds nodes: the existing items
      deselected, then the copied nodes and rewired edges. */
  function PasteDoc(doc: Doc, clip: Doc, start: nat, shift: Position, stamp: nat): Doc
  {
    var kind := Paste(stamp);
    Doc(DeselectNodes(doc.nodes) + CopyNodes(clip.nodes, start, shift, kind),
        DeselectEdges(doc.edges) + RewireEdges(clip.edges, IdMap(clip.nodes, start), kind))
  }

  /** `onAiGeneratedMap`: the existing items unchanged, then the copied nodes
      and the rewired edges. */
  function MergeDoc(doc: Doc, incoming: Doc, start: nat, center: Position): Doc
  {
    Doc(doc.nodes + CopyNodes(incoming.nodes, start, center, Merge),
        doc.edges + RewireEdges(incoming.edges, IdMap(incoming.nodes, start), Merge))
  }

  /** After a paste exactly the pasted items are selected; every existing item
      is kept, in order, with only its selection cleared; every pasted node is
      a copy shifted by the same offset. */
  lemma PasteSelection(doc: Doc, clip: Doc, start: nat, shift: Position, stamp: nat)
    ensures var r := PasteDoc(doc, clip, start, shift, stamp);
            |r.nodes| == |doc.nodes| + |clip.nodes|
            && (forall i :: 0 <= i < |r.nodes| ==> (r.nodes[i].selected <==> i >= |doc.nodes|))
            && (forall i :: 0 <= i < |r.edges| ==> (r.edges[i].selected <==> i >= |doc.edges|))
            && (forall i :: 0 <= i < |doc.nodes| ==> r.nodes[i].(selected := doc.nodes[i].selected) == doc.nodes[i])
            && (forall i :: 0 <= i < |doc.edges| ==> r.edges[i].(selected := doc.edges[i].selected) == doc.edges[i])
            && (forall i :: 0 <= i < |clip.nodes| ==>
                  r.nodes[|doc.nodes| + i].data == clip.nodes[i].data
                  && r.nodes[|doc.nodes| + i].position == Shift(clip.nodes[i].position, shift))
  {
    var r := PasteDoc(doc, clip, start, shift, stamp);
    var added := RewireEdges(clip.edges, IdMap(clip.nodes, start), Paste(stamp));
    RewireEdgesExact(clip.edges, IdMap(clip.nodes, start), Paste(stamp));
    forall i | |doc.edges| <= i < |r.edges| ensures r.edges[i].selected {
      assert r.edges[i] == added[i - |doc.edges|];
      assert added[i - |doc.edges|] in added;
    }
  }

  /** Appending nodes, and edges that join appended nodes, to a document
      without dangling edges leaves none. */
  lemma AppendKeepsNoDangling(doc: Doc, ns: seq<Node>, es: seq<Edge>)
    requires NoDangling(doc)
    requires forall e :: e in es ==> HasNode(ns, e.source) && HasNode(ns, e.target)
    ensures NoDangling(Doc(doc.nodes + ns, doc.edges + es))
  {
    forall id | HasNode(ns, id) || HasNode(doc.nodes, id) ensures HasNode(doc.nodes + ns, id) {
      var n :| (n in ns || n in doc.nodes) && n.id == id;
      assert n in doc.nodes + ns;
    }
    forall e | e in doc.edges + es ensures HasNode(doc.nodes + ns, e.source) && HasNode(doc.nodes + ns, e.target) {
      assert e in doc.edges || e in es;
    }
  }

  /** Clearing the selection changes no id. */
  lemma DeselectKeepsNoDangling(doc: Doc)
    requires NoDangling(doc)
    ensures NoDangling(Doc(DeselectNodes(doc.nodes), DeselectEdges(doc.edges)))
  {
    var ns, es := DeselectNodes(doc.nodes), DeselectEdges(doc.edges);
    forall id | HasNode(doc.nodes, id) ensures HasNode(ns, id) {
      var n :| n in doc.nodes && n.id == id;
      var i :| 0 <= i < |doc.nodes| && doc.nodes[i] == n;
      assert ns[i] in ns;
    }
    forall e | e in es ensures HasNode(ns, e.source) && HasNode(ns, e.target) {
      var i :| 0 <= i < |es| && es[i] == e;
      assert doc.edges[i] in doc.edges;
    }
  }

  /** A paste keeps a document free of dangling edges. */
  lemma PasteKeepsNoDangling(doc: Doc, clip: Doc, start: nat, shift: Position, stamp: nat)
    requires NoDangling(doc)
    ensures NoDangling(PasteDoc(doc, clip, start, shift, stamp))
  {
    CopiedEdgesJoinCopiedNodes(clip.nodes, clip.edges, start, shift, Paste(stamp));
    DeselectKeepsNoDangling(doc);
    AppendKeepsNoDangling(Doc(DeselectNodes(doc.nodes), DeselectEdges(doc.edges)),
      CopyNodes(clip.nodes, start, shift, Paste(stamp)), RewireEdges(clip.edges, IdMap(clip.nodes, start), Paste(stamp)));
  }

  /** A merge keeps the existing items exactly and brings no dangling edge. */
  lemma MergeKeepsNoDangling(doc: Doc, incoming: Doc, start: nat, center: Position)
    requires NoDangling(doc)
    ensures var r := MergeDoc(doc, incoming, start, center);
            NoDangling(r) && r.nodes[..|doc.nodes|] == doc.nodes && r.edges[..|doc.edges|] == doc.edges
  {
    var r := MergeDoc(doc, incoming, start, center);
    CopiedEdgesJoinCopiedNodes(incoming.nodes, incoming.edges, start, center, Merge);
    AppendKeepsNoDangling(doc, CopyNodes(incoming.nodes, start, center, Merge), RewireEdges(incoming.edges, IdMap(incoming.nodes, start), Merge));
    assert r.nodes[..|doc.nodes|] == doc.nodes;
    assert r.edges[..|doc.edges|] == doc.edges;
  }

  // ---------------------------------------------------------------------------
  // Roadmap chain

  /** The `i`-th roadmap node: below the source, 120 then 90 per step. */
  function RoadmapNode(source: Node, step: string, id: string, i: nat): Node
  {
    Node(id, Position(source.position.x, source.position.y + i * 90 + 120), NodeData(step, "", DefaultStyle), false)
  }

  /** The edge from `from` to the node `to` of the chain, with a closed arrow. */
  function RoadmapEdge(from: string, to: string): Edge
  {
    Edge("e-" + from + "-" + to, from, to, false, true, false)
  }

  /** The id of the chain's `i`-th element: the source, then the minted ids. */
  function ChainId(source: Node, start: nat, i: nat): string
  {
    if i == 0 then source.id else MintedId(start + i - 1)
  }

  function RoadmapNodes(source: Node, steps: seq<string>, start: nat): seq<Node>
  {
    seq(|steps|, i requires 0 <= i < |steps| => RoadmapNode(source, steps[i], MintedId(start + i), i))
  }

  function RoadmapEdges(source: Node, steps: seq<string>, start: nat): seq<Edge>
  {
    seq(|steps|, i requires 0 <= i < |steps| => RoadmapEdge(ChainId(source, start, i), MintedId(start + i)))
  }

  /** The roadmap is a path source → s1 → … → sk: edge `i` leaves the
      previous element of the chain and enters node `i`, which is labelled
      with step `i`. */
  lemma RoadmapIsPath(source: Node, steps: seq<string>, start: nat)
    ensures |RoadmapNodes(source, steps, start)| == |steps| == |RoadmapEdges(source, steps, start)|
    ensures |steps| > 0 ==> RoadmapEdges(source, steps, start)[0].source == source.id
    ensures forall i :: 0 <= i < |steps| ==>
              RoadmapEdges(source, steps, start)[i].target == RoadmapNodes(source, steps, start)[i].id
              && RoadmapNodes(source, steps, start)[i].data.text == steps[i]
    ensures forall i :: 0 < i < |steps| ==>
              RoadmapEdges(source, steps, start)[i].source == RoadmapNodes(source, steps, start)[i - 1].id
  {
    var ns, es := RoadmapNodes(source, steps, start), RoadmapEdges(source, steps, start);
    forall i | 0 <= i < |steps|
      ensures es[i] == RoadmapEdge(ChainId(source, start, i), MintedId(start + i))
      ensures ns[i].id == MintedId(start + i) && ns[i].data.text == steps[i]
    {
    }
    forall i | 0 < i < |steps| ensures es[i].source == ns[i - 1].id {
      assert ChainId(source, start, i) == MintedId(start + (i - 1));
    }
  }

  /** The roadmap nodes stand in the source's column, strictly below it and
      strictly downwards in step order, under pairwise distinct ids. */
  lemma RoadmapColumn(source: Node, steps: seq<string>, start: nat)
    ensures forall i :: 0 <= i < |steps| ==>
              RoadmapNodes(source, steps, start)[i].position.x == source.position.x
              && RoadmapNodes(source, steps, start)[i].position.y > source.position.y
    ensures forall i, j :: 0 <= i < j < |steps| ==>
              RoadmapNodes(source, steps, start)[i].position.y < RoadmapNodes(source, steps, start)[j].position.y
              && RoadmapNodes(source, steps, start)[i].id != RoadmapNodes(source, steps, start)[j].id
  {
    forall i, j | 0 <= i < j < |steps|
      ensures RoadmapNodes(source, steps, start)[i].id != RoadmapNodes(source, steps, start)[j].id
    {
      MintedIdsDistinct(start + i, start + j);
    }
  }

  /** Adding the chain to a document that contains the source keeps the
      document free of dangling edges. */
  lemma RoadmapKeepsNoDangling(doc: Doc, source: Node, steps: seq<string>, start: nat)
    requires NoDangling(doc) && HasNode(doc.nodes, source.id)
    ensures NoDangling(Doc(doc.nodes + RoadmapNodes(source, steps, start), doc.edges + RoadmapEdges(source, steps, start)))
  {
    var ns, es := RoadmapNodes(source, steps, start), RoadmapEdges(source, steps, start);
    var all := doc.nodes + ns;
    forall e | e in es ensures HasNode(all, e.source) && HasNode(all, e.target) {
      var k :| 0 <= k < |es| && es[k] == e;
      assert all[|doc.nodes| + k] in all;
      if k > 0 {
        assert all[|doc.nodes| + k - 1] in all;
      } else {
        var n :| n in doc.nodes && n.id == source.id;
        assert n in all;
      }
    }
    AppendKeepsNoDangling(doc, ns, []);
    forall e | e in doc.edges + es ensures HasNode(all, e.source) && HasNode(all, e.target) {
      assert e in doc.edges || e in es;
    }
  }

  // ---------------------------------------------------------------------------
  // Context-menu actions

  /** `setNodeColor`: the node with the id gets the chosen colours. */
  function Recolor(ns: seq<Node>, id: string, style: NodeStyle): seq<Node>
  {
    seq(|ns|, i requires 0 <= i < |ns| => if ns[i].id == id then ns[i].(data := ns[i].data.(style := style)) else ns[i])
  }

  /** `setEdgeStyle`: the edge with the id gets an arrow iff the choice is
      `directional` and a dashed stroke iff it is `dotted`. */
  function Restyle(es: seq<Edge>, id: string, choice: string): seq<Edge>
  {
    seq(|es|, i requires 0 <= i < |es| =>
      if es[i].id == id then es[i].(arrow := choice == "directional", dotted := choice == "dotted") else es[i])
  }

  /** Recolouring changes only the style of the nodes with that id. */
  lemma RecolorOnlyTarget(ns: seq<Node>, id: string, style: NodeStyle)
    ensures |Recolor(ns, id, style)| == |ns|
    ensures forall i :: 0 <= i < |ns| && ns[i].id != id ==> Recolor(ns, id, style)[i] == ns[i]
    ensures forall i :: 0 <= i < |ns| && ns[i].id == id ==>
              Recolor(ns, id, style)[i].data.style == style
              && Recolor(ns, id, style)[i].(data := ns[i].data) == ns[i]
              && Recolor(ns, id, style)[i].data.(style := ns[i].data.style) == ns[i].data
    ensures forall i :: 0 <= i < |ns| ==> Recolor(ns, id, style)[i].id == ns[i].id
  {
  }

  /** Restyling changes only the marker and stroke of the edges with that id;
      a choice other than `directional` or `dotted` leaves a plain edge. */
  lemma RestyleOnlyTarget(es: seq<Edge>, id: string, choice: string)
    ensures |Restyle(es, id, choice)| == |es|
    ensures forall i :: 0 <= i < |es| && es[i].id != id ==> Restyle(es, id, choice)[i] == es[i]
    ensures forall i :: 0 <= i < |es| && es[i].id == id ==>
              Restyle(es, id, choice)[i].(arrow := es[i].arrow, dotted := es[i].dotted) == es[i]
              && !(Restyle(es, id, choice)[i].arrow && Restyle(es, id, choice)[i].dotted)
              && (choice != "directional" && choice != "dotted" ==>
                    !Restyle(es, id, choice)[i].arrow && !Restyle(es, id, choice)[i].dotted)
  {
  }

  // ---------------------------------------------------------------------------
  // Seeding the counter on load

  /** `Math.max(0, ...nodes.map(n => parseInt(n.id, 10) || 0))`. */
  function MaxNumericId(ns: seq<Node>): (m: int)
    ensures m >= 0
    ensures forall i :: 0 <= i < |ns| ==> ParseIntOrZero(ns[i].id) <= m
    ensures m == 0 || exists i :: 0 <= i < |ns| && ParseIntOrZero(ns[i].id) == m
    decreases |ns|
  {
    if ns == [] then 0
    else
      var rest := MaxNumericId(ns[..|ns| - 1]);
      var v := ParseIntOrZero(ns[|ns| - 1].id);
      if v > rest then v else rest
  }

  /** The counter after loading `ns`: 100 past the largest numeric id of a
      non-empty map; an empty map leaves the counter as it was. */
  function SeedCounter(ns: seq<Node>, current: nat): nat
  {
    if |ns| > 0 then MaxNumericId(ns) + 100 else current
  }

  /** Every id minted from the seeded counter onwards differs from every id
      of the loaded map: a minted id reads back as its counter value, which is
      above every numeric id of the map. */
  lemma SeededIdsAreFresh(ns: seq<Node>, current: nat, k: nat)
    requires |ns| > 0 && k >= SeedCounter(ns, current)
    ensures forall i :: 0 <= i < |ns| ==> ns[i].id != MintedId(k)
    ensures forall i :: 0 <= i < |ns| ==> ParseIntOrZero(ns[i].id) + 100 <= k
  {
    MintedIdsDistinct(k, k);
  }

  // ---------------------------------------------------------------------------
  // Keeping the counter ahead of the document

  /** Every node's numeric id is below `k`: the counter is ahead of `nodes`. */
  predicate IdsBelow(nodes: seq<Node>, k: nat)
  {
    forall n :: n in nodes ==> ParseIntOrZero(n.id) < k
  }

  /** While the counter is ahead of a document, no id it mints from then on
      is already the id of one of its nodes. */
  lemma BelowIsFresh(nodes: seq<Node>, k: nat)
    requires IdsBelow(nodes, k)
    ensures forall j :: k <= j ==> !HasNode(nodes, MintedId(j))
  {
    forall j | k <= j ensures !HasNode(nodes, MintedId(j)) {
      MintedIdsDistinct(j, j);
    }
  }

  lemma BelowMonotone(nodes: seq<Node>, k: nat, k': nat)
    requires IdsBelow(nodes, k) && k <= k'
    ensures IdsBelow(nodes, k')
  {
  }

  /** Two node lists with the same ids, position by position. */
  predicate SameIds(ns: seq<Node>, ms: seq<Node>)
  {
    |ns| == |ms| && forall i :: 0 <= i < |ns| ==> ms[i].id == ns[i].id
  }

  /** Changing anything but ids keeps the counter ahead. */
  lemma SameIdsBelow(ns: seq<Node>, ms: seq<Node>, k: nat)
    requires SameIds(ns, ms) && IdsBelow(ns, k)
    ensures IdsBelow(ms, k)
  {
    forall m | m in ms ensures ParseIntOrZero(m.id) < k {
      var i :| 0 <= i < |ms| && ms[i] == m;
      assert ns[i] in ns;
    }
  }

  /** A copied batch minted from `start` ends below the advanced counter. */
  lemma CopyNodesBelow(batch: seq<Node>, start: nat, shift: Position, kind: BatchKind)
    ensures IdsBelow(CopyNodes(batch, start, shift, kind), start + |batch|)
  {
    CopyNodesFreshIds(batch, start, shift, kind);
  }

  /** The roadmap nodes minted from `start` end below the advanced counter. */
  lemma RoadmapNodesBelow(source: Node, steps: seq<string>, start: nat)
    ensures IdsBelow(RoadmapNodes(source, steps, start), start + |steps|)
  {
    var ns := RoadmapNodes(source, steps, start);
    forall n | n in ns ensures ParseIntOrZero(n.id) < start + |steps| {
      var i :| 0 <= i < |ns| && ns[i] == n;
      MintedIdsDistinct(start + i, start + i);
    }
  }

  /** Paste and merge leave the counter ahead of the whole new document and
      mint no id the old document already has. */
  lemma BatchesKeepCounterAhead(doc: Doc, batch: Doc, start: nat, shift: Position, stamp: nat)
    requires IdsBelow(doc.nodes, start)
    ensures IdsBelow(PasteDoc(doc, batch, start, shift, stamp).nodes, start + |batch.nodes|)
    ensures IdsBelow(MergeDoc(doc, batch, start, shift).nodes, start + |batch.nodes|)
    ensures forall j :: start <= j < start + |batch.nodes| ==> !HasNode(doc.nodes, MintedId(j))
  {
    var k := start + |batch.nodes|;
    CopyNodesBelow(batch.nodes, start, shift, Paste(stamp));
    CopyNodesBelow(batch.nodes, start, shift, Merge);
    SameIdsBelow(doc.nodes, DeselectNodes(doc.nodes), start);
    BelowMonotone(DeselectNodes(doc.nodes), start, k);
    BelowMonotone(doc.nodes, start, k);
    BelowIsFresh(doc.nodes, start);
  }

  /** A loaded map is below its seeded counter; an empty one has no id. */
  lemma SeededCounterAhead(ns: seq<Node>, current: nat)
    ensures IdsBelow(ns, SeedCounter(ns, current))
  {
    if ns != [] {
      forall n | n in ns ensures ParseIntOrZero(n.id) < SeedCounter(ns, current) {
        var i :| 0 <= i < |ns| && ns[i] == n;
      }
    }
  }

  // ---------------------------------------------------------------------------
  // Connected group

  /** An edge of `es` joins `a` and `b`, in either direction. */
  predicate Adjacent(es: seq<Edge>, a: string, b: string)
  {
    exists e :: e in es && ((e.source == a && e.target == b) || (e.source == b && e.target == a))
  }

  ghost predicate Walk(es: seq<Edge>, w: seq<string>)
  {
    forall i :: 0 <= i < |w| - 1 ==> Adjacent(es, w[i], w[i + 1])
  }

  /** `b` can be reached from `a` along edges read as undirected. */
  ghost predicate Reachable(es: seq<Edge>, a: string, b: string)
  {
    exists w :: |w| > 0 && w[0] == a && w[|w| - 1] == b && Walk(es, w)
  }

  /** A set of nodes that every edge either joins to both or avoids. */
  ghost predicate Closed(es: seq<Edge>, s: set<string>)
  {
    forall e :: e in es && (e.source in s || e.target in s) ==> e.source in s && e.target in s
  }

  function Touches(e: Edge, s: set<string>): bool
  {
    e.source in s || e.target in s
  }

  function Endpoints(es: seq<Edge>): set<string>
  {
    (set e | e in es :: e.source) + (set e | e in es :: e.target)
  }

  lemma ReachableStep(es: seq<Edge>, a: string, b: string, c: string)
    requires Reachable(es, a, b) && Adjacent(es, b, c)
    ensures Reachable(es, a, c)
  {
    var w :| |w| > 0 && w[0] == a && w[|w| - 1] == b && Walk(es, w);
    var w' := w + [c];
    assert forall i :: 0 <= i < |w'| - 1 ==> Adjacent(es, w'[i], w'[i + 1]) by {
      forall i | 0 <= i < |w'| - 1 ensures Adjacent(es, w'[i], w'[i + 1]) {
        if i < |w| - 1 {
          assert w'[i] == w[i] && w'[i + 1] == w[i + 1];
        }
      }
    }
  }

  lemma {:induction false} WalkStaysInClosed(es: seq<Edge>, s: set<string>, w: seq<string>)
    requires Closed(es, s) && Walk(es, w) && |w| > 0 && w[0] in s
    ensures w[|w| - 1] in s
    decreases |w|
  {
    if |w| > 1 {
      var init := w[..|w| - 1];
      assert Walk(es, init) by {
        forall i | 0 <= i < |init| - 1 ensures Adjacent(es, init[i], init[i + 1]) {
          assert init[i] == w[i] && init[i + 1] == w[i + 1];
        }
      }
      WalkStaysInClosed(es, s, init);
      assert Adjacent(es, w[|w| - 2], w[|w| - 1]);
    }
  }

  /** The nodes joined to `v` by an edge of `es`. */
  function Neighbors(es: seq<Edge>, v: string): set<string>
  {
    (set e | e in es && e.source == v :: e.target) + (set e | e in es && e.target == v :: e.source)
  }

  /** The ids of the edges of `es` that touch a node of `s`. */
  function IncidentIds(es: seq<Edge>, s: set<string>): set<string>
  {
    set e | e in es && Touches(e, s) :: e.id
  }

  /** One round of the search: `relEdges.forEach(...)` for the node `curr`
      taken from the queue. Every edge touching `curr` is recorded, and every
      neighbour not seen before is marked and queued. */
  method VisitNeighbors(es: seq<Edge>, curr: string, seen: set<string>, queue: seq<string>, edgeIds: set<string>)
    returns (seen': set<string>, queue': seq<string>, edgeIds': set<string>)
    ensures seen' == seen + Neighbors(es, curr)
    ensures edgeIds' == edgeIds + IncidentIds(es, {curr})
    ensures forall v :: v in queue' <==> v in queue || v in seen' - seen
    ensures seen' == seen ==> queue' == queue
  {
    seen', queue', edgeIds' := seen, queue, edgeIds;
    var j := 0;
    while j < |es|
      invariant 0 <= j <= |es|
      invariant forall v :: v in seen' <==> v in seen || v in Neighbors(es[..j], curr)
      invariant forall v :: v in edgeIds' <==> v in edgeIds || v in IncidentIds(es[..j], {curr})
      invariant forall v :: v in queue' <==> v in queue || v in seen' - seen
      invariant seen' == seen ==> queue' == queue
    {
      var edge := es[j];
      assert es[..j + 1] == es[..j] + [edge];
      SearchSnoc(es[..j], edge, curr);
      if edge.source == curr || edge.target == curr {
        edgeIds' := edgeIds' + {edge.id};
        var neighbor := if edge.source == curr then edge.target else edge.source;
        if neighbor !in seen' {
          seen' := seen' + {neighbor};
          queue' := queue' + [neighbor];
        }
      }
      j := j + 1;
    }
    assert es[..j] == es;
    assert seen' == seen + Neighbors(es, curr);
    assert edgeIds' == edgeIds + IncidentIds(es, {curr});
  }

  lemma ProperSubsetSmaller(a: set<string>, b: set<string>)
    requires a < b
    ensures |a| < |b|
  {
    assert b - a != {};
    var x :| x in b - a;
    assert b == a + (b - a);
    assert {x} <= b - a;
  }

  /** Adding the neighbours of a reachable node to a set of reachable nodes
      keeps every node of the set reachable. */
  lemma NeighborsReachable(es: seq<Edge>, start: string, curr: string, s: set<string>)
    requires Reachable(es, start, curr)
    requires forall v :: v in s ==> Reachable(es, start, v)
    ensures forall v :: v in s + Neighbors(es, curr) ==> Reachable(es, start, v)
  {
    forall v | v in Neighbors(es, curr) ensures Reachable(es, start, v) {
      NeighborsAreAdjacent(es, curr, v);
      ReachableStep(es, start, curr, v);
    }
  }

  lemma IncidentIdsUnion(es: seq<Edge>, s: set<string>, v: string)
    ensures IncidentIds(es, s + {v}) == IncidentIds(es, s) + IncidentIds(es, {v})
  {
  }

  /** A set containing `start` that contains the neighbours of each of its
      nodes contains every node reachable from `start`. */
  lemma ClosedGroupIsComplete(es: seq<Edge>, start: string, s: set<string>)
    requires start in s
    requires forall u :: u in s ==> Neighbors(es, u) <= s
    ensures forall v :: Reachable(es, start, v) ==> v in s
  {
    assert Closed(es, s) by {
      forall e | e in es && Touches(e, s) ensures e.source in s && e.target in s {
        assert e.target in Neighbors(es, e.source) && e.source in Neighbors(es, e.target);
      }
    }
    forall v | Reachable(es, start, v) ensures v in s {
      var w :| |w| > 0 && w[0] == start && w[|w| - 1] == v && Walk(es, w);
      WalkStaysInClosed(es, s, w);
    }
  }

  lemma NeighborsInEndpoints(es: seq<Edge>, v: string)
    ensures Neighbors(es, v) <= Endpoints(es)
  {
  }

  /** The endpoint of `e` across from `v`. */
  function Across(e: Edge, v: string): string
  {
    if e.source == v then e.target else e.source
  }

  /** How `Neighbors` and `IncidentIds` grow when one edge is appended. */
  lemma SearchSnoc(es: seq<Edge>, e: Edge, v: string)
    ensures Touches(e, {v}) ==> Neighbors(es + [e], v) == Neighbors(es, v) + {Across(e, v)}
    ensures Touches(e, {v}) ==> IncidentIds(es + [e], {v}) == IncidentIds(es, {v}) + {e.id}
    ensures !Touches(e, {v}) ==> Neighbors(es + [e], v) == Neighbors(es, v)
    ensures !Touches(e, {v}) ==> IncidentIds(es + [e], {v}) == IncidentIds(es, {v})
  {
  }

  lemma NeighborsAreAdjacent(es: seq<Edge>, u: string, v: string)
    requires v in Neighbors(es, u)
    ensures Adjacent(es, u, v)
  {
  }

  /** `selectConnectedGroup`'s search: a breadth-first search from `start`
      over the edges read as undirected. `nodeIds` is exactly the set of nodes
      reachable from `start` (the start itself included), and `edgeIds` the
      ids of exactly the edges that touch one of them. */
  method ConnectedGroup(es: seq<Edge>, start: string) returns (nodeIds: set<string>, edgeIds: set<string>)
    ensures forall v :: v in nodeIds <==> Reachable(es, start, v)
    ensures edgeIds == IncidentIds(es, nodeIds)
  {
    nodeIds := {start};
    edgeIds := {};
    var queue := [start];
    ghost var done: set<string> := {};
    ghost var universe := {start} + Endpoints(es);
    assert Walk(es, [start]);
    while |queue| > 0
      invariant SearchInvariant(es, start, universe, nodeIds, done, queue, edgeIds)
      decreases |universe - nodeIds|, |queue|
    {
      var curr := queue[0];
      queue := queue[1..];
      ghost var before, queue1, edgeIds1 := nodeIds, queue, edgeIds;
      nodeIds, queue, edgeIds := VisitNeighbors(es, curr, nodeIds, queue, edgeIds);
      SearchRound(es, start, universe, before, done, curr, queue1, edgeIds1, nodeIds, queue, edgeIds);
      done := done + {curr};
    }
    assert done == nodeIds;
    ClosedGroupIsComplete(es, start, nodeIds);
  }

  /** The invariant of the search: the marked nodes `seen` are the finished
      ones and the queued ones, all reachable, inside `universe`; a finished
      node has all its neighbours marked and its edges recorded. */
  ghost predicate SearchInvariant(es: seq<Edge>, start: string, universe: set<string>, seen: set<string>,
                                  done: set<string>, queue: seq<string>, edgeIds: set<string>)
  {
    start in seen && seen <= universe
    && (forall v :: v in seen <==> v in done || v in queue)
    && (forall v :: v in seen ==> Reachable(es, start, v))
    && (forall u :: u in done ==> Neighbors(es, u) <= seen)
    && edgeIds == IncidentIds(es, done)
  }

  /** One round of the search keeps its invariant and makes progress: either
      a node is newly marked or the queue is shorter. */
  lemma SearchRound(es: seq<Edge>, start: string, universe: set<string>, seen: set<string>, done: set<string>,
                    curr: string, queue: seq<string>, edgeIds: set<string>,
                    seen': set<string>, queue': seq<string>, edgeIds': set<string>)
    requires universe == {start} + Endpoints(es)
    requires SearchInvariant(es, start, universe, seen, done, [curr] + queue, edgeIds)
    requires seen' == seen + Neighbors(es, curr)
    requires edgeIds' == edgeIds + IncidentIds(es, {curr})
    requires forall v :: v in queue' <==> v in queue || v in seen' - seen
    requires seen' == seen ==> queue' == queue
    ensures SearchInvariant(es, start, universe, seen', done + {curr}, queue', edgeIds')
    ensures seen' != seen ==> |universe - seen'| < |universe - seen|
  {
    assert curr in [curr] + queue;
    NeighborsInEndpoints(es, curr);
    NeighborsReachable(es, start, curr, seen);
    IncidentIdsUnion(es, done, curr);
    forall v ensures v in seen' <==> v in done + {curr} || v in queue' {
      assert v in [curr] + queue <==> v == curr || v in queue;
    }
    if seen' != seen {
      ProperSubsetSmaller(universe - seen', universe - seen);
    }
  }

  /** The selection that `selectConnectedGroup` applies: a node is selected
      iff its id is in the group, an edge iff its id is. */
  function SelectNodes(ns: seq<Node>, ids: set<string>): seq<Node>
  {
    seq(|ns|, i requires 0 <= i < |ns| => ns[i].(selected := ns[i].id in ids))
  }

  function SelectEdges(es: seq<Edge>, ids: set<string>): seq<Edge>
  {
    seq(|es|, i requires 0 <= i < |es| => es[i].(selected := es[i].id in ids))
  }
}
