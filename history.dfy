/** The bounded undo/redo history of `src/hooks/useUndoRedo.js`: two stacks of
    whole-document snapshots. `past` holds the documents before the recent
    actions, oldest first; `future` holds undone documents, the next one to
    redo first. The history is generic in the document type `D`. */
module UndoRedo {
  import opened Wrappers

  /** How many snapshots `takeSnapshot` keeps. */
  const MaxPast: nat := 20

  /** The two stacks as a value: the specification of the class below. */
  datatype HistoryState<D> = HistoryState(past: seq<D>, future: seq<D>)

  /** The bound every reachable history keeps. */
  predicate Bounded<D>(h: HistoryState<D>)
  {
    |h.past| + |h.future| <= MaxPast
  }

  /** `takeSnapshot(doc)`: push `doc`, shift out the oldest entry once the
      stack has grown past the cap, and clear `future`. */
  function SnapshotStep<D>(h: HistoryState<D>, doc: D): HistoryState<D>
  {
    var grown := h.past + [doc];
    HistoryState(if |grown| > MaxPast then grown[1..] else grown, [])
  }

  /** `undo(current)`: with an empty `past` nothing happens (`None`);
      otherwise the last snapshot becomes the document and `current` is
      pushed on the front of `future`. */
  function UndoStep<D>(h: HistoryState<D>, current: D): (HistoryState<D>, Option<D>)
  {
    if |h.past| == 0 then (h, None)
    else (HistoryState(h.past[..|h.past| - 1], [current] + h.future), Some(h.past[|h.past| - 1]))
  }

  /** `redo(current)`: with an empty `future` nothing happens; otherwise
      `future[0]` becomes the document and `current` is appended to `past`
      (without the cap that `takeSnapshot` applies). */
  function RedoStep<D>(h: HistoryState<D>, current: D): (HistoryState<D>, Option<D>)
  {
    if |h.future| == 0 then (h, None)
    else (HistoryState(h.past + [current], h.future[1..]), Some(h.future[0]))
  }

  // ---------------------------------------------------------------------------
  // Properties of the specification

  /** A snapshot always empties `future`, keeps `past` within the cap, ends
      `past` with the new document and keeps the most recent older entries. */
  lemma SnapshotShape<D>(h: HistoryState<D>, doc: D)
    requires |h.past| <= MaxPast
    ensures SnapshotStep(h, doc).future == []
    ensures |SnapshotStep(h, doc).past| == if |h.past| < MaxPast then |h.past| + 1 else MaxPast
    ensures SnapshotStep(h, doc).past[|SnapshotStep(h, doc).past| - 1] == doc
    ensures |h.past| < MaxPast ==> SnapshotStep(h, doc).past == h.past + [doc]
    ensures |h.past| == MaxPast ==> SnapshotStep(h, doc).past == h.past[1..] + [doc]
  {
    if |h.past| == MaxPast {
      assert (h.past + [doc])[1..] == h.past[1..] + [doc];
    }
  }

  /** `|past| + |future| <= 20` holds after every operation. */
  lemma BoundPreserved<D>(h: HistoryState<D>, doc: D)
    requires Bounded(h)
    ensures Bounded(SnapshotStep(h, doc))
    ensures Bounded(UndoStep(h, doc).0)
    ensures Bounded(RedoStep(h, doc).0)
  {
  }

  /** `canUndo` and `canRedo`: whether an undo or a redo would restore a
      document. */
  lemma CanUndoRedo<D>(h: HistoryState<D>, doc: D)
    ensures UndoStep(h, doc).1.Some? <==> |h.past| > 0
    ensures RedoStep(h, doc).1.Some? <==> |h.future| > 0
    ensures UndoStep(h, doc).1.None? ==> UndoStep(h, doc).0 == h
    ensures RedoStep(h, doc).1.None? ==> RedoStep(h, doc).0 == h
  {
  }

  /** An undo immediately followed by a redo restores the same document and
      the same two stacks. */
  lemma UndoThenRedo<D>(h: HistoryState<D>, current: D)
    requires |h.past| > 0
    ensures var (h1, d1) := UndoStep(h, current);
            d1.Some? && RedoStep(h1, d1.value) == (h, Some(current))
  {
    assert h.past[..|h.past| - 1] + [h.past[|h.past| - 1]] == h.past;
  }

  /** A redo immediately followed by an undo restores the same document and
      the same two stacks. */
  lemma RedoThenUndo<D>(h: HistoryState<D>, current: D)
    requires |h.future| > 0
    ensures var (h1, d1) := RedoStep(h, current);
            d1.Some? && UndoStep(h1, d1.value) == (h, Some(current))
  {
    assert [h.future[0]] + h.future[1..] == h.future;
  }

  /** A snapshot followed by an undo brings back the snapshot document; the
      redo that follows brings back the document that was current. */
  lemma SnapshotUndoRedo<D>(h: HistoryState<D>, before: D, after: D)
    requires |h.past| <= MaxPast
    ensures var (h1, d1) := UndoStep(SnapshotStep(h, before), after);
            d1 == Some(before) && h1.future == [after]
            && RedoStep(h1, before).1 == Some(after)
  {
    SnapshotShape(h, before);
  }

  /** After an undo and a fresh snapshot, nothing can be redone: a new action
      discards the undone branch. */
  lemma SnapshotInvalidatesRedo<D>(h: HistoryState<D>, current: D, doc: D)
    ensures RedoStep(SnapshotStep(UndoStep(h, current).0, doc), doc).1 == None
  {
  }

  /** `n` snapshots in a row, starting from the history `h`. */
  function Snapshots<D>(h: HistoryState<D>, docs: seq<D>): HistoryState<D>
    decreases |docs|
  {
    if docs == [] then h else Snapshots(SnapshotStep(h, docs[0]), docs[1..])
  }

  /** Taking snapshots from an empty history keeps exactly the last (at most)
      twenty of them, in order; older ones are no longer reachable by undo. */
  lemma {:induction false} SnapshotsKeepMostRecent<D>(past: seq<D>, docs: seq<D>)
    requires |past| <= MaxPast
    ensures var all := past + docs;
            Snapshots(HistoryState(past, []), docs).past
              == all[if |all| > MaxPast then |all| - MaxPast else 0..]
    ensures Snapshots(HistoryState(past, []), docs).future == []
    decreases |docs|
  {
    var all := past + docs;
    if docs != [] {
      var h1 := SnapshotStep(HistoryState(past, []), docs[0]);
      SnapshotShape(HistoryState(past, []), docs[0]);
      SnapshotsKeepMostRecent(h1.past, docs[1..]);
      var all1 := h1.past + docs[1..];
      if |past| < MaxPast {
        assert all1 == all;
      } else {
        assert all1 == all[1..];
      }
    } else {
      assert all == past;
    }
  }

  /** The history never invents a document: whatever a step stores or
      restores was stored before or was the current document. */
  lemma StepsKeepDocuments<D>(h: HistoryState<D>, current: D)
    ensures SnapshotStep(h, current).future == []
    ensures forall d :: d in SnapshotStep(h, current).past ==> d in h.past || d == current
    ensures var (h1, r) := UndoStep(h, current);
            (forall d :: d in h1.past || d in h1.future ==> d in h.past || d in h.future || d == current)
            && (r.Some? ==> r.value in h.past)
    ensures var (h1, r) := RedoStep(h, current);
            (forall d :: d in h1.past || d in h1.future ==> d in h.past || d in h.future || d == current)
            && (r.Some? ==> r.value in h.future)
  {
    var grown := h.past + [current];
    if |grown| > MaxPast {
      forall d | d in grown[1..] ensures d in grown {
        var i :| 0 <= i < |grown[1..]| && grown[1..][i] == d;
        assert grown[i + 1] == d;
      }
    }
    if |h.past| > 0 {
      forall d | d in h.past[..|h.past| - 1] ensures d in h.past {
        var i :| 0 <= i < |h.past| - 1 && h.past[..|h.past| - 1][i] == d;
        assert h.past[i] == d;
      }
    }
    if |h.future| > 0 {
      forall d | d in h.future[1..] ensures d in h.future {
        var i :| 0 <= i < |h.future| - 1 && h.future[1..][i] == d;
        assert h.future[i + 1] == d;
      }
    }
  }

  // ---------------------------------------------------------------------------
  // The hook's state

  /** The hook's two state variables; each operation replaces them exactly as
      the specification functions above say. */
  class History<D> {
    var past: seq<D>
    var future: seq<D>

    function State(): HistoryState<D>
      reads this
    {
      HistoryState(past, future)
    }

    ghost predicate Valid()
      reads this
    {
      Bounded(State())
    }

    constructor ()
      ensures Valid() && past == [] && future == []
    {
      past := [];
      future := [];
    }

    /** `takeSnapshot(nodes, edges)`. */
    method TakeSnapshot(doc: D)
      requires Valid()
      modifies this
      ensures Valid()
      ensures State() == SnapshotStep(old(State()), doc)
    {
      var newPast := past + [doc];
      if |newPast| > MaxPast {
        newPast := newPast[1..];
      }
      past := newPast;
      future := [];
    }

    /** `undo(currentNodes, currentEdges, ...)`: `restored` is the document
      to make current, `None` when there is nothing to undo. */
    method Undo(current: D) returns (restored: Option<D>)
      requires Valid()
      modifies this
      ensures Valid()
      ensures (State(), restored) == UndoStep(old(State()), current)
    {
      if |past| == 0 {
        return None;
      }
      var previous := past[|past| - 1];
      var newPast := past[..|past| - 1];
      future := [current] + future;
      past := newPast;
      restored := Some(previous);
    }

    /** `redo(currentNodes, currentEdges, ...)`. */
    method Redo(current: D) returns (restored: Option<D>)
      requires Valid()
      modifies this
      ensures Valid()
      ensures (State(), restored) == RedoStep(old(State()), current)
    {
      if |future| == 0 {
        return None;
      }
      var next := future[0];
      var newFuture := future[1..];
      past := past + [current];
      future := newFuture;
      restored := Some(next);
    }

    /** Empties both stacks: the reset that loading another map needs (see
        `App.Editor.LoadMap`). */
    method Clear()
      modifies this
      ensures Valid() && past == [] && future == []
    {
      past := [];
      future := [];
    }

    /** `canUndo`. */
    function CanUndo(): (r: bool)
      reads this
      ensures r <==> past != []
    {
      |past| > 0
    }

    /** `canRedo`. */
    function CanRedo(): (r: bool)
      reads this
      ensures r <==> future != []
    {
      |future| > 0
    }
  }
}
