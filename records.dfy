/** The records the panels receive from the backend (tasks, goals and journal
    notes, reduced to the fields the client reads) and the two list idioms
    every panel uses on them: `list.filter(p)` and
    `list.map(x => p(x) ? f(x) : x)`. */
module Records {
  import opened Wrappers

  /** A task. `due` is the due date as a timestamp in milliseconds, `None`
      when the backend sends `null`; `goalId` is the linked goal. */
  datatype Task = Task(id: nat, title: string, description: string, due: Option<int>,
                       completed: bool, goalId: Option<nat>)

  /** A goal with its `progress_percentage`. */
  datatype Goal = Goal(id: nat, title: string, progress: int)

  /** A journal note with its `created_at` timestamp. */
  datatype Note = Note(id: nat, content: string, createdAt: int)

  // ---------------------------------------------------------------------------
  // Filtering

  /** `s.filter(p)`: the elements satisfying `p`, in their order in `s`. */
  function Filter<T>(s: seq<T>, p: T -> bool): (r: seq<T>)
    ensures |r| <= |s|
    decreases |s|
  {
    if s == [] then []
    else Filter(s[..|s| - 1], p) + (if p(s[|s| - 1]) then [s[|s| - 1]] else [])
  }

  /** The filter keeps every element satisfying `p`, as often as it occurs in
      `s`, and nothing else. */
  lemma {:induction false} FilterSpec<T>(s: seq<T>, p: T -> bool)
    ensures forall x :: x in Filter(s, p) <==> x in s && p(x)
    ensures forall x :: multiset(Filter(s, p))[x] == if p(x) then multiset(s)[x] else 0
    decreases |s|
  {
    if s != [] {
      var init, last := s[..|s| - 1], s[|s| - 1];
      assert s == init + [last];
      FilterSpec(init, p);
    }
  }

  /** Filtering distributes over concatenation, so it keeps the order of `s`. */
  lemma {:induction false} FilterAppend<T>(a: seq<T>, b: seq<T>, p: T -> bool)
    ensures Filter(a + b, p) == Filter(a, p) + Filter(b, p)
    decreases |b|
  {
    if b == [] {
      assert a + b == a;
    } else {
      var init, last := b[..|b| - 1], b[|b| - 1];
      var tail := if p(last) then [last] else [];
      assert (a + b)[..|a + b| - 1] == a + init && (a + b)[|a + b| - 1] == last;
      assert Filter(a + b, p) == Filter(a + init, p) + tail;
      assert Filter(b, p) == Filter(init, p) + tail;
      FilterAppend(a, init, p);
    }
  }

  /** A filter that keeps everything is the identity. */
  lemma {:induction false} FilterAll<T>(s: seq<T>, p: T -> bool)
    requires forall i :: 0 <= i < |s| ==> p(s[i])
    ensures Filter(s, p) == s
    decreases |s|
  {
    if s != [] {
      var init := s[..|s| - 1];
      FilterAll(init, p);
      assert Filter(s, p) == Filter(init, p) + [s[|s| - 1]];
      assert s == init + [s[|s| - 1]];
    }
  }

  /** A filter and the filter of its complement `q` split `s` with nothing
      lost. */
  lemma {:induction false} Partition<T>(s: seq<T>, p: T -> bool, q: T -> bool)
    requires forall i :: 0 <= i < |s| ==> q(s[i]) == !p(s[i])
    ensures multiset(Filter(s, p)) + multiset(Filter(s, q)) == multiset(s)
    ensures |Filter(s, p)| + |Filter(s, q)| == |s|
    decreases |s|
  {
    if s != [] {
      var init, last := s[..|s| - 1], s[|s| - 1];
      assert s == init + [last];
      Partition(init, p, q);
      assert Filter(s, p) == Filter(init, p) + (if p(last) then [last] else []);
      assert Filter(s, q) == Filter(init, q) + (if q(last) then [last] else []);
    }
  }

  /** No element is in both halves of the partition. */
  lemma PartitionDisjoint<T>(s: seq<T>, p: T -> bool, q: T -> bool, x: T)
    requires forall i :: 0 <= i < |s| ==> q(s[i]) == !p(s[i])
    ensures !(x in Filter(s, p) && x in Filter(s, q))
  {
    FilterSpec(s, p);
    FilterSpec(s, q);
  }

  /** The filtered list is empty exactly when no element passes, and its
      first element is the first one of `s` that passes. */
  lemma {:induction false} FilterFirst<T>(s: seq<T>, p: T -> bool)
    ensures |Filter(s, p)| > 0 <==> exists k :: 0 <= k < |s| && p(s[k])
    ensures |Filter(s, p)| > 0 ==> exists k :: 0 <= k < |s| && s[k] == Filter(s, p)[0] && p(s[k])
                                               && forall j :: 0 <= j < k ==> !p(s[j])
  {
    if s != [] {
      var init := s[..|s| - 1];
      FilterFirst(init, p);
      assert forall k :: 0 <= k < |init| ==> init[k] == s[k];
      if |Filter(init, p)| == 0 && p(s[|s| - 1]) {
        assert Filter(s, p) == [s[|s| - 1]];
      }
    }
  }

  // ---------------------------------------------------------------------------
  // Updating in place by a condition

  /** `s.map(x => p(x) ? f(x) : x)`. */
  function MapWhere<T>(s: seq<T>, p: T -> bool, f: T -> T): (r: seq<T>)
    ensures |r| == |s|
    ensures forall i :: 0 <= i < |s| ==> r[i] == if p(s[i]) then f(s[i]) else s[i]
  {
    seq(|s|, i requires 0 <= i < |s| => if p(s[i]) then f(s[i]) else s[i])
  }

  // ---------------------------------------------------------------------------
  // Tasks

  predicate IsCompleted(t: Task) { t.completed }

  predicate IsPending(t: Task) { !t.completed }

  /** `tasks.map(t => t.id === id ? { ...t, is_completed: v } : t)`: the
      local update after a status change. */
  function SetCompletion(ts: seq<Task>, id: nat, v: bool): (r: seq<Task>)
    ensures |r| == |ts|
  {
    MapWhere(ts, (t: Task) => t.id == id, (t: Task) => t.(completed := v))
  }

  /** Only the tasks with that id change, and of them only the completion
      flag, which becomes `v`. */
  lemma SetCompletionSpec(ts: seq<Task>, id: nat, v: bool)
    ensures forall i :: 0 <= i < |ts| ==>
      SetCompletion(ts, id, v)[i].(completed := ts[i].completed) == ts[i]
      && (ts[i].id == id ==> SetCompletion(ts, id, v)[i].completed == v)
      && (ts[i].id != id ==> SetCompletion(ts, id, v)[i] == ts[i])
  {
  }

  /** Setting the flag to the value every such task already has changes
      nothing, and setting it twice is setting it once. */
  lemma SetCompletionIdempotent(ts: seq<Task>, id: nat, v: bool)
    ensures SetCompletion(SetCompletion(ts, id, v), id, v) == SetCompletion(ts, id, v)
    ensures (forall i :: 0 <= i < |ts| && ts[i].id == id ==> ts[i].completed == v)
            ==> SetCompletion(ts, id, v) == ts
  {
  }

  // ---------------------------------------------------------------------------
  // Finding by id

  /** `tasks.find(t => t.id === id)`: the first task with that id. */
  function FindTask(ts: seq<Task>, id: int): (r: Option<Task>)
    ensures r.None? <==> forall i :: 0 <= i < |ts| ==> ts[i].id != id
    ensures r.Some? ==> r.value.id == id && r.value in ts
    ensures forall i :: 0 <= i < |ts| && ts[i].id == id && (forall j :: 0 <= j < i ==> ts[j].id != id)
                        ==> r == Some(ts[i])
    decreases |ts|
  {
    if ts == [] then None
    else if ts[0].id == id then Some(ts[0])
    else
      assert forall i :: 1 <= i < |ts| ==> ts[i] == ts[1..][i - 1];
      FindTask(ts[1..], id)
  }

  /** With unique ids, the task found is the one at the index holding the id. */
  lemma FindUnique(ts: seq<Task>, k: nat)
    requires forall i, j :: 0 <= i < j < |ts| ==> ts[i].id != ts[j].id
    requires k < |ts|
    ensures FindTask(ts, ts[k].id) == Some(ts[k])
  {
  }
}
