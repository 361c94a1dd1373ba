/** The quick-search overlay of `src/Components/CommandPalette.jsx`: a
    case-insensitive search over node labels, task and goal titles and note
    contents, and the keyboard that moves the highlighted result. */
module Palette {
  import opened Text
  import opened Records
  import Graph

  /** One result, tagged with its `type`. */
  datatype Hit = NodeHit(node: Graph.Node) | TaskHit(task: Task) | GoalHit(goal: Goal) | NoteHit(note: Note)

  /** The text a result is searched by: `data.label`, `title` or `content`.
      Node labels and task and goal titles are taken to be present: the
      application calls `toLowerCase` on them directly and would throw on a
      missing one. A missing note content is searched as empty. */
  function Label(h: Hit): string
  {
    match h
    case NodeHit(n) => n.data.text
    case TaskHit(t) => t.title
    case GoalHit(g) => g.title
    case NoteHit(n) => n.content
  }

  /** `label.toLowerCase().includes(query.toLowerCase())`; the query is
      lowered but not trimmed. */
  predicate Matches(h: Hit, query: string)
  {
    Contains(LowerStr(Label(h)), LowerStr(query))
  }

  /** Every searchable item, nodes first, then tasks, goals and notes. */
  function Items(nodes: seq<Graph.Node>, tasks: seq<Task>, goals: seq<Goal>, notes: seq<Note>): (r: seq<Hit>)
    ensures |r| == |nodes| + |tasks| + |goals| + |notes|
    ensures forall i :: 0 <= i < |nodes| ==> r[i] == NodeHit(nodes[i])
    ensures forall i :: 0 <= i < |tasks| ==> r[|nodes| + i] == TaskHit(tasks[i])
    ensures forall i :: 0 <= i < |goals| ==> r[|nodes| + |tasks| + i] == GoalHit(goals[i])
    ensures forall i :: 0 <= i < |notes| ==> r[|nodes| + |tasks| + |goals| + i] == NoteHit(notes[i])
  {
    seq(|nodes|, i requires 0 <= i < |nodes| => NodeHit(nodes[i]))
    + seq(|tasks|, i requires 0 <= i < |tasks| => TaskHit(tasks[i]))
    + seq(|goals|, i requires 0 <= i < |goals| => GoalHit(goals[i]))
    + seq(|notes|, i requires 0 <= i < |notes| => NoteHit(notes[i]))
  }

  /** The search effect: a blank query gives no results; otherwise each
      list is filtered on its own and the four results are concatenated. */
  function Search(query: string, nodes: seq<Graph.Node>, tasks: seq<Task>, goals: seq<Goal>, notes: seq<Note>): seq<Hit>
  {
    if IsBlank(query) then []
    else
      var m := (h: Hit) => Matches(h, query);
      Filter(seq(|nodes|, i requires 0 <= i < |nodes| => NodeHit(nodes[i])), m)
      + Filter(seq(|tasks|, i requires 0 <= i < |tasks| => TaskHit(tasks[i])), m)
      + Filter(seq(|goals|, i requires 0 <= i < |goals| => GoalHit(goals[i])), m)
      + Filter(seq(|notes|, i requires 0 <= i < |notes| => NoteHit(notes[i])), m)
  }

  /** A non-blank query keeps the matching items in the order nodes,
      tasks, goals, notes, each list in its own order. */
  lemma SearchInOrder(query: string, nodes: seq<Graph.Node>, tasks: seq<Task>, goals: seq<Goal>, notes: seq<Note>)
    requires !IsBlank(query)
    ensures Search(query, nodes, tasks, goals, notes) == Filter(Items(nodes, tasks, goals, notes), (h: Hit) => Matches(h, query))
  {
    var m := (h: Hit) => Matches(h, query);
    var a := seq(|nodes|, i requires 0 <= i < |nodes| => NodeHit(nodes[i]));
    var b := seq(|tasks|, i requires 0 <= i < |tasks| => TaskHit(tasks[i]));
    var c := seq(|goals|, i requires 0 <= i < |goals| => GoalHit(goals[i]));
    var d := seq(|notes|, i requires 0 <= i < |notes| => NoteHit(notes[i]));
    assert Items(nodes, tasks, goals, notes) == a + b + c + d;
    FilterAppend(a + b + c, d, m);
    FilterAppend(a + b, c, m);
    FilterAppend(a, b, m);
  }

  /** A blank query finds nothing; any other finds exactly the matching
      items, each as often as it occurs. */
  lemma SearchSpec(query: string, nodes: seq<Graph.Node>, tasks: seq<Task>, goals: seq<Goal>, notes: seq<Note>)
    ensures IsBlank(query) ==> Search(query, nodes, tasks, goals, notes) == []
    ensures !IsBlank(query) ==> forall h ::
      h in Search(query, nodes, tasks, goals, notes) <==> h in Items(nodes, tasks, goals, notes) && Matches(h, query)
    ensures !IsBlank(query) ==> forall h ::
      multiset(Search(query, nodes, tasks, goals, notes))[h]
      == if Matches(h, query) then multiset(Items(nodes, tasks, goals, notes))[h] else 0
  {
    if !IsBlank(query) {
      SearchInOrder(query, nodes, tasks, goals, notes);
      FilterSpec(Items(nodes, tasks, goals, notes), (h: Hit) => Matches(h, query));
    }
  }

  /** JavaScript's `%`, which truncates toward zero. */
  function JsRem(a: int, b: int): (r: int)
    requires b > 0
    ensures -b < r < b
    ensures a >= 0 ==> r == a % b
  {
    if a >= 0 then a % b else -((-a) % b)
  }

  function Max1(n: nat): nat
  {
    if n < 1 then 1 else n
  }

  /** `ArrowDown`: `(prev + 1) % Math.max(1, results.length)`. */
  function Down(i: int, n: nat): int
    requires i >= 0
  {
    JsRem(i + 1, Max1(n))
  }

  /** `ArrowUp`: `(prev - 1 + results.length) % Math.max(1, results.length)`. */
  function Up(i: int, n: nat): int
    requires i >= 0
  {
    JsRem(i - 1 + n, Max1(n))
  }

  /** The arrows always land on a result when there is one, and on 0 when
      there is none. */
  lemma ArrowRange(i: int, n: nat)
    requires i >= 0
    ensures 0 <= Down(i, n) < Max1(n) && 0 <= Up(i, n) < Max1(n)
  {
    if i - 1 + n < 0 {
      assert n == 0 && Up(i, n) == 0;
    }
  }

  /** The arrows wrap around at both ends. */
  lemma ArrowWrap(n: nat)
    requires n > 0
    ensures Down(n - 1, n) == 0 && Up(0, n) == n - 1
  {
    assert (n - 1 + 1) % n == 0;
  }

  /** On a highlighted result, `ArrowDown` moves to the next one or from
      the last back to the first. */
  lemma DownValue(i: int, n: nat)
    requires 0 <= i < n
    ensures Down(i, n) == if i + 1 < n then i + 1 else 0
  {
    if i + 1 == n {
      assert (i + 1) % n == 0;
    }
  }

  /** On a highlighted result, `ArrowUp` moves to the previous one or from
      the first to the last. */
  lemma UpValue(i: int, n: nat)
    requires 0 <= i < n
    ensures Up(i, n) == if i >= 1 then i - 1 else n - 1
  {
    if i >= 1 {
      assert (i - 1 + n) % n == ((i - 1) + n) % n;
      ModAfterOneTurn(i - 1, n);
    }
  }

  lemma ModAfterOneTurn(k: int, n: nat)
    requires 0 <= k < n
    ensures (k + n) % n == k
  {
  }

  /** On a highlighted result the arrows undo each other. */
  lemma ArrowInverse(i: int, n: nat)
    requires 0 <= i < n
    ensures Up(Down(i, n), n) == i && Down(Up(i, n), n) == i
  {
    DownValue(i, n);
    UpValue(i, n);
    DownValue(Up(i, n), n);
    UpValue(Down(i, n), n);
  }

  /** What a key press asks the page to do. */
  datatype KeyOutcome = Stay | Close | Navigate(hit: Hit)

  /** The palette's `query`, `results` and `selectedIndex` state. */
  class CommandPalette {
    var query: string
    var results: seq<Hit>
    var selectedIndex: int

    ghost predicate Valid()
      reads this
    {
      selectedIndex >= 0
    }

    constructor ()
      ensures Valid() && query == "" && results == [] && selectedIndex == 0
    {
      query := "";
      results := [];
      selectedIndex := 0;
    }

    /** Typing: the query changes and the search effect runs. A blank query
        empties the results but leaves the highlight where it was; any other
        query highlights the first result. */
    method Type(q: string, nodes: seq<Graph.Node>, tasks: seq<Task>, goals: seq<Goal>, notes: seq<Note>)
      requires Valid()
      modifies this
      ensures Valid() && query == q
      ensures results == Search(q, nodes, tasks, goals, notes)
      ensures selectedIndex == if IsBlank(q) then old(selectedIndex) else 0
    {
      query := q;
      if IsBlank(q) {
        results := [];
        return;
      }
      results := Search(q, nodes, tasks, goals, notes);
      selectedIndex := 0;
    }

    /** `onMouseEnter` of the result at `index`. */
    method Hover(index: nat)
      requires Valid() && index < |results|
      modifies this
      ensures Valid() && selectedIndex == index && results == old(results) && query == old(query)
    {
      selectedIndex := index;
    }

    /** `handleKeyDown`. Enter on a highlighted result navigates to it, asks
        for the palette to close and clears the query, whose effect empties
        the results; Escape asks to close; other keys do nothing. */
    method KeyDown(key: string) returns (outcome: KeyOutcome)
      requires Valid()
      modifies this
      ensures Valid()
      ensures key == "ArrowDown" ==> outcome == Stay && selectedIndex == Down(old(selectedIndex), |results|)
      ensures key == "ArrowUp" ==> outcome == Stay && selectedIndex == Up(old(selectedIndex), |results|)
      ensures key == "ArrowDown" || key == "ArrowUp" ==> results == old(results) && query == old(query)
      ensures key == "Enter" && old(selectedIndex) < old(|results|) ==>
        outcome == Navigate(old(results)[old(selectedIndex)]) && query == "" && results == []
        && selectedIndex == old(selectedIndex)
      ensures key == "Enter" && old(selectedIndex) >= old(|results|) ==> outcome == Stay && unchanged(this)
      ensures key == "Escape" ==> outcome == Close && unchanged(this)
      ensures key !in {"ArrowDown", "ArrowUp", "Enter", "Escape"} ==> outcome == Stay && unchanged(this)
    {
      outcome := Stay;
      if key == "ArrowDown" {
        ArrowRange(selectedIndex, |results|);
        selectedIndex := Down(selectedIndex, |results|);
      } else if key == "ArrowUp" {
        ArrowRange(selectedIndex, |results|);
        selectedIndex := Up(selectedIndex, |results|);
      } else if key == "Enter" {
        if selectedIndex < |results| {
          outcome := Navigate(results[selectedIndex]);
          query := "";
          results := [];
        }
      } else if key == "Escape" {
        outcome := Close;
      }
    }
  }
}
