/** The insight panel of `src/Components/Recommendations.jsx`: fixed rules
    over the task and goal lists produce a short list of insights, and the
    "Create Subtasks" action turns a numbered or bulleted reply of the
    assistant into new task requests. */
module Recommendations {
  import opened Wrappers
  import opened Text
  import opened Records

  // ---------------------------------------------------------------------------
  // The rules

  /** Not completed, with a due date, and that date before `now`. */
  predicate IsOverdue(t: Task, now: int)
  {
    !t.completed && t.due.Some? && t.due.value < now
  }

  /** Not completed, with a non-empty title that is longer than 30
      characters or mentions `project` or `plan` in any case. */
  predicate IsComplex(t: Task)
  {
    !t.completed && t.title != []
    && (|t.title| > 30 || Contains(LowerStr(t.title), "project") || Contains(LowerStr(t.title), "plan"))
  }

  /** Progress below 20 percent. */
  predicate IsStagnant(g: Goal)
  {
    g.progress < 20
  }

  /** No task names this goal as its `goal_id`. */
  predicate HasNoTasks(g: Goal, ts: seq<Task>)
  {
    forall i :: 0 <= i < |ts| ==> ts[i].goalId != Some(g.id)
  }

  /** The overdue test as the filter applies it. */
  function OverdueAt(now: int): Task -> bool
  {
    (t: Task) => IsOverdue(t, now)
  }

  /** The goal test as the filter applies it. */
  function WithoutTasksIn(ts: seq<Task>): Goal -> bool
  {
    (g: Goal) => HasNoTasks(g, ts)
  }

  /** One insight card; the numbers are the counts its message shows. */
  datatype Insight =
    | Overdue(count: nat)
    | ComplexTasks(count: nat)
    | StagnantGoals(count: nat)
    | HighCompletion(completed: nat, total: nat)
    | TooManyPending(count: nat)
    | GoalsWithoutTasks(count: nat)
    | AllGood

  /** The position of each rule in the order the rules run. */
  function Rank(x: Insight): nat
  {
    match x
    case Overdue(_) => 0
    case ComplexTasks(_) => 1
    case StagnantGoals(_) => 2
    case HighCompletion(_, _) => 3
    case TooManyPending(_) => 4
    case GoalsWithoutTasks(_) => 5
    case AllGood => 6
  }

  /** The `action_code` of each card. */
  function ActionCode(x: Insight): string
  {
    match x
    case Overdue(_) => "RESCHEDULE_OVERDUE"
    case ComplexTasks(_) => "DECOMPOSE_TASK"
    case StagnantGoals(_) => "PRIORITIZE"
    case TooManyPending(_) => "REMOVE_DISTRACTION"
    case _ => "NONE"
  }

  /** `totalTasks > 0` and `completedTasks / totalTasks * 100 > 70`, on
      integers. */
  predicate HighRate(completed: nat, total: nat)
  {
    total > 0 && completed * 100 > 70 * total
  }

  /** When rule `r` (numbered as `Rank`) fires, stated without counting.
      The completion rule `completed / total * 100 > 70` is stated on
      integers. */
  predicate Fires(r: nat, ts: seq<Task>, gs: seq<Goal>, now: int)
  {
    if r == 0 then exists t :: t in ts && IsOverdue(t, now)
    else if r == 1 then exists t :: t in ts && IsComplex(t)
    else if r == 2 then exists g :: g in gs && IsStagnant(g)
    else if r == 3 then HighRate(|Filter(ts, IsCompleted)|, |ts|)
    else if r == 4 then |Filter(ts, IsPending)| > 10
    else if r == 5 then exists g :: g in gs && HasNoTasks(g, ts)
    else false
  }

  /** The numbers on a card are the sizes of the lists its rule filters. */
  predicate CountsRight(x: Insight, ts: seq<Task>, gs: seq<Goal>, now: int)
  {
    match x
    case Overdue(c) => c == |Filter(ts, OverdueAt(now))|
    case ComplexTasks(c) => c == |Filter(ts, IsComplex)|
    case StagnantGoals(c) => c == |Filter(gs, IsStagnant)|
    case HighCompletion(c, n) => c == |Filter(ts, IsCompleted)| && n == |ts|
    case TooManyPending(c) => c == |Filter(ts, IsPending)|
    case GoalsWithoutTasks(c) => c == |Filter(gs, WithoutTasksIn(ts))|
    case AllGood => true
  }

  /** A non-empty filter result means some element passes, and back. */
  lemma Passes<T>(s: seq<T>, p: T -> bool)
    ensures |Filter(s, p)| > 0 <==> exists x :: x in s && p(x)
  {
    FilterFirst(s, p);
    if exists x :: x in s && p(x) {
      var x :| x in s && p(x);
      var k :| 0 <= k < |s| && s[k] == x;
    }
  }

  /** The cards built by the first `n` rules: in rule order, with the
      right counts, holding rule `r`'s card exactly when it fires. */
  ghost predicate RulesDone(s: seq<Insight>, n: nat, ts: seq<Task>, gs: seq<Goal>, now: int)
  {
    (forall i, j :: 0 <= i < j < |s| ==> Rank(s[i]) < Rank(s[j]))
    && (forall i :: 0 <= i < |s| ==> Rank(s[i]) < n && CountsRight(s[i], ts, gs, now))
    && (forall r: nat :: r < n ==> (Fires(r, ts, gs, now) <==> exists i :: 0 <= i < |s| && Rank(s[i]) == r))
  }

  /** The card of rule `r`, with its counts. */
  function Card(r: nat, ts: seq<Task>, gs: seq<Goal>, now: int): Insight
  {
    if r == 0 then Overdue(|Filter(ts, OverdueAt(now))|)
    else if r == 1 then ComplexTasks(|Filter(ts, IsComplex)|)
    else if r == 2 then StagnantGoals(|Filter(gs, IsStagnant)|)
    else if r == 3 then HighCompletion(|Filter(ts, IsCompleted)|, |ts|)
    else if r == 4 then TooManyPending(|Filter(ts, IsPending)|)
    else GoalsWithoutTasks(|Filter(gs, WithoutTasksIn(ts))|)
  }

  /** The test the code applies for rule `r`, on the lengths of the
      filtered lists. */
  predicate Triggered(r: nat, ts: seq<Task>, gs: seq<Goal>, now: int)
  {
    if r == 0 then |Filter(ts, OverdueAt(now))| > 0
    else if r == 1 then |Filter(ts, IsComplex)| > 0
    else if r == 2 then |Filter(gs, IsStagnant)| > 0
    else if r == 3 then HighRate(|Filter(ts, IsCompleted)|, |ts|)
    else if r == 4 then |Filter(ts, IsPending)| > 10
    else |Filter(gs, WithoutTasksIn(ts))| > 0
  }

  /** The cards after the first `n` rules have run. */
  ghost function Cards(n: nat, ts: seq<Task>, gs: seq<Goal>, now: int): seq<Insight>
  {
    if n == 0 then []
    else
      var s := Cards(n - 1, ts, gs, now);
      if Triggered(n - 1, ts, gs, now) then s + [Card(n - 1, ts, gs, now)] else s
  }

  /** The code's test for each rule is the rule's condition, and each card
      has its rule's rank and the right counts. */
  lemma TriggeredIffFires(r: nat, ts: seq<Task>, gs: seq<Goal>, now: int)
    requires r < 6
    ensures Triggered(r, ts, gs, now) <==> Fires(r, ts, gs, now)
    ensures Rank(Card(r, ts, gs, now)) == r && CountsRight(Card(r, ts, gs, now), ts, gs, now)
  {
    FiresByCount(ts, gs, now);
  }

  /** Running rule `k` after the first `k` keeps the invariant: its card
      is added exactly when the code's test passes. */
  lemma RuleStep(s: seq<Insight>, k: nat, ts: seq<Task>, gs: seq<Goal>, now: int)
    requires k < 6 && RulesDone(s, k, ts, gs, now)
    ensures Triggered(k, ts, gs, now) ==> RulesDone(s + [Card(k, ts, gs, now)], k + 1, ts, gs, now)
    ensures !Triggered(k, ts, gs, now) ==> RulesDone(s, k + 1, ts, gs, now)
  {
    var fires := Fires(k, ts, gs, now);
    TriggeredIffFires(k, ts, gs, now);
    var r := if fires then s + [Card(k, ts, gs, now)] else s;
    assert forall i :: 0 <= i < |s| ==> r[i] == s[i];
    forall q: nat | q < k + 1
      ensures Fires(q, ts, gs, now) <==> exists i :: 0 <= i < |r| && Rank(r[i]) == q
    {
      if q < k {
        if exists i :: 0 <= i < |r| && Rank(r[i]) == q {
          var i :| 0 <= i < |r| && Rank(r[i]) == q;
          assert i < |s|;
        }
      } else if fires {
        assert Rank(r[|s|]) == q;
      } else {
        assert forall i :: 0 <= i < |r| ==> Rank(r[i]) < k;
      }
    }
  }

  /** Each rule's filter is non-empty exactly when the rule fires. */
  lemma FiresByCount(ts: seq<Task>, gs: seq<Goal>, now: int)
    ensures |Filter(ts, OverdueAt(now))| > 0 <==> Fires(0, ts, gs, now)
    ensures |Filter(ts, IsComplex)| > 0 <==> Fires(1, ts, gs, now)
    ensures |Filter(gs, IsStagnant)| > 0 <==> Fires(2, ts, gs, now)
    ensures |Filter(gs, WithoutTasksIn(ts))| > 0 <==> Fires(5, ts, gs, now)
  {
    Passes(ts, OverdueAt(now));
    Passes(ts, IsComplex);
    Passes(gs, IsStagnant);
    Passes(gs, WithoutTasksIn(ts));
  }

  /** What `generateInsights()` promises: never empty, each card at most
      once and in rule order, a rule's card exactly when the rule fires, the
      "everything looks great" card exactly when none does, and the right
      counts on every card. */
  ghost predicate InsightsSpec(r: seq<Insight>, ts: seq<Task>, gs: seq<Goal>, now: int)
  {
    |r| > 0
    && (forall i, j :: 0 <= i < j < |r| ==> Rank(r[i]) < Rank(r[j]))
    && (forall q: nat :: q < 6 ==> (Fires(q, ts, gs, now) <==> exists i :: 0 <= i < |r| && Rank(r[i]) == q))
    && (AllGood in r <==> forall q: nat :: q < 6 ==> !Fires(q, ts, gs, now))
    && (forall i :: 0 <= i < |r| ==> CountsRight(r[i], ts, gs, now))
  }

  /** After the six rules, the fallback card completes the list. */
  lemma Fallback(s: seq<Insight>, ts: seq<Task>, gs: seq<Goal>, now: int)
    requires RulesDone(s, 6, ts, gs, now)
    ensures InsightsSpec(if s == [] then [AllGood] else s, ts, gs, now)
  {
    if s != [] {
      assert Rank(s[0]) < 6;
      assert Fires(Rank(s[0]), ts, gs, now);
      forall i | 0 <= i < |s| ensures s[i] != AllGood {
        assert Rank(s[i]) < 6;
      }
    }
  }

  /** The six rules, with the fallback when none fired, meet the
      promise. */
  lemma CardsInOrder(ts: seq<Task>, gs: seq<Goal>, now: int)
    ensures var s := Cards(6, ts, gs, now);
            InsightsSpec(if s == [] then [AllGood] else s, ts, gs, now)
  {
    var s := [];
    for k := 0 to 6
      invariant s == Cards(k, ts, gs, now) && RulesDone(s, k, ts, gs, now)
    {
      RuleStep(s, k, ts, gs, now);
      s := Cards(k + 1, ts, gs, now);
    }
    Fallback(s, ts, gs, now);
  }

  /** `generateInsights()`: the rules in order, each adding its card when
      it fires, and the "everything looks great" card only when none did. */
  method GenerateInsights(tasks: seq<Task>, goals: seq<Goal>, now: int) returns (insights: seq<Insight>)
    ensures InsightsSpec(insights, tasks, goals, now)
  {
    insights := [];
    var overdue := Filter(tasks, OverdueAt(now));
    if |overdue| > 0 {
      insights := insights + [Overdue(|overdue|)];
    }
    assert insights == Cards(1, tasks, goals, now);
    var complex := Filter(tasks, IsComplex);
    if |complex| > 0 {
      insights := insights + [ComplexTasks(|complex|)];
    }
    assert insights == Cards(2, tasks, goals, now);
    var stagnant := Filter(goals, IsStagnant);
    if |stagnant| > 0 {
      insights := insights + [StagnantGoals(|stagnant|)];
    }
    assert insights == Cards(3, tasks, goals, now);
    var completed := |Filter(tasks, IsCompleted)|;
    var total := |tasks|;
    if HighRate(completed, total) {
      insights := insights + [HighCompletion(completed, total)];
    }
    assert insights == Cards(4, tasks, goals, now);
    var pending := Filter(tasks, IsPending);
    if |pending| > 10 {
      insights := insights + [TooManyPending(|pending|)];
    }
    assert insights == Cards(5, tasks, goals, now);
    var unlinked := Filter(goals, WithoutTasksIn(tasks));
    if |unlinked| > 0 {
      insights := insights + [GoalsWithoutTasks(|unlinked|)];
    }
    assert insights == Cards(6, tasks, goals, now);
    CardsInOrder(tasks, goals, now);
    if insights == [] {
      insights := [AllGood];
    }
  }

  // ---------------------------------------------------------------------------
  // Subtasks from the assistant's reply

  /** The characters of `[\d\.\-\*\•]`. */
  predicate IsMarker(c: char)
  {
    IsDigit(c) || c == '.' || c == '-' || c == '*' || c == '\U{2022}'
  }

  /** `line.trim().match(/^[\d\.\-\*\•]/)`. */
  predicate IsSubtaskLine(line: string)
  {
    |Trim(line)| > 0 && IsMarker(Trim(line)[0])
  }

  /** `line.replace(/^[\d\.\-\*\•\s]+/, '')`: the longest leading run of
      markers and white space is cut away. */
  function StripMarkers(s: string): (r: string)
    ensures |r| <= |s| && r == s[|s| - |r|..]
    ensures r == [] || !(IsMarker(r[0]) || IsSpace(r[0]))
    ensures forall k :: 0 <= k < |s| - |r| ==> IsMarker(s[k]) || IsSpace(s[k])
    decreases |s|
  {
    if |s| > 0 && (IsMarker(s[0]) || IsSpace(s[0])) then StripMarkers(s[1..]) else s
  }

  /** The title sent for one line: markers stripped, then trimmed. */
  function SubtaskTitle(line: string): string
  {
    Trim(StripMarkers(line))
  }

  /** `reply.split('\n').filter(...)`. */
  function SubtaskLines(reply: string): seq<string>
  {
    Filter(Split(reply, '\n'), IsSubtaskLine)
  }

  /** The titles of the lines that give a non-empty one, in order. */
  function SubtaskTitles(lines: seq<string>): seq<string>
    decreases |lines|
  {
    if lines == [] then []
    else
      var title := SubtaskTitle(lines[|lines| - 1]);
      SubtaskTitles(lines[..|lines| - 1]) + (if title != [] then [title] else [])
  }

  /** A title that is not empty and has lost its marker and its spacing. */
  predicate WellFormedTitle(t: string)
  {
    t != [] && !IsMarker(t[0]) && !IsSpace(t[0]) && !IsSpace(t[|t| - 1])
  }

  /** A non-empty title starts with neither a marker nor white space and
      does not end in white space: the marker and its spacing are gone. */
  lemma SubtaskTitleSpec(line: string)
    ensures var t := SubtaskTitle(line);
            t == [] || (!IsMarker(t[0]) && !IsSpace(t[0]) && !IsSpace(t[|t| - 1]))
  {
    var r := StripMarkers(line);
    var t := Trim(r);
    var i: nat :| TrimmedAt(r, t, i);
    if t != [] {
      assert !IsSpace(r[0]);
      assert i == 0;
      assert t[0] == r[0];
    }
  }

  /** Every posted title is well formed, there are never more titles than
      lines, and a line whose title is empty adds none. */
  lemma {:induction false} SubtaskTitlesSpec(lines: seq<string>)
    ensures |SubtaskTitles(lines)| <= |lines|
    ensures forall k :: 0 <= k < |SubtaskTitles(lines)| ==> WellFormedTitle(SubtaskTitles(lines)[k])
    decreases |lines|
  {
    if lines != [] {
      var init := lines[..|lines| - 1];
      var title := SubtaskTitle(lines[|lines| - 1]);
      SubtaskTitlesSpec(init);
      SubtaskTitleSpec(lines[|lines| - 1]);
      var prev := SubtaskTitles(init);
      var all := SubtaskTitles(lines);
      assert all == prev + (if title != [] then [title] else []);
      forall k | 0 <= k < |all| ensures WellFormedTitle(all[k]) {
        if k < |prev| {
          assert all[k] == prev[k];
        } else {
          assert all[k] == title;
        }
      }
    }
  }

  /** The body of one subtask `POST`. The due date, the moment of the
      request, is not modelled. */
  datatype SubtaskRequest = SubtaskRequest(title: string, description: string, goalId: Option<nat>)

  /** How the "Create Subtasks" action ends. */
  datatype Decomposition =
    | NoComplexTask
      /** The reply had no list lines; it is shown to the user instead. */
    | NoSubtaskLines(reply: string)
      /** The requests sent, and the number reported to the user. */
    | Created(parent: Task, requests: seq<SubtaskRequest>, reported: nat)

  /** `t` is the first complex task of `ts`, the one `complexTasks[0]`
      picks. */
  predicate IsFirstComplex(ts: seq<Task>, t: Task)
  {
    exists k :: 0 <= k < |ts| && ts[k] == t && IsComplex(t) && forall j :: 0 <= j < k ==> !IsComplex(ts[j])
  }

  /** The request for each title, in order. */
  predicate RequestsFor(requests: seq<SubtaskRequest>, titles: seq<string>, parent: Task)
  {
    |requests| == |titles|
    && forall i :: 0 <= i < |requests| ==>
         requests[i] == SubtaskRequest(titles[i], "Subtask of: " + parent.title, parent.goalId)
  }

  /** One more line adds its title, when it has one, after the others. */
  lemma TitlesStep(lines: seq<string>, i: nat)
    requires i < |lines|
    ensures var title := SubtaskTitle(lines[i]);
            SubtaskTitles(lines[..i + 1]) == SubtaskTitles(lines[..i]) + (if title != [] then [title] else [])
  {
    assert lines[..i + 1][..i] == lines[..i];
  }

  /** A request for one more title extends the requests for the others. */
  lemma RequestsStep(requests: seq<SubtaskRequest>, titles: seq<string>, title: string, parent: Task)
    requires RequestsFor(requests, titles, parent)
    ensures RequestsFor(requests + [SubtaskRequest(title, "Subtask of: " + parent.title, parent.goalId)], titles + [title], parent)
  {
  }

  /** The `for (const line of subtaskLines)` loop: a request for each line
      whose title is not empty. */
  method PostSubtasks(lines: seq<string>, parent: Task) returns (requests: seq<SubtaskRequest>)
    ensures RequestsFor(requests, SubtaskTitles(lines), parent)
  {
    requests := [];
    for i := 0 to |lines|
      invariant RequestsFor(requests, SubtaskTitles(lines[..i]), parent)
    {
      var title := SubtaskTitle(lines[i]);
      TitlesStep(lines, i);
      if title != [] {
        RequestsStep(requests, SubtaskTitles(lines[..i]), title, parent);
        requests := requests + [SubtaskRequest(title, "Subtask of: " + parent.title, parent.goalId)];
      } else {
        assert SubtaskTitles(lines[..i + 1]) == SubtaskTitles(lines[..i]) + [];
      }
    }
    assert lines[..|lines|] == lines;
  }

  /** The `DECOMPOSE_TASK` branch of `handleAction`, given the assistant's
      reply: the first complex task is broken down, one request per list
      line with a non-empty title, each linked to the parent's goal. The
      count reported is the number of requests sent. */
  method DecomposeTask(tasks: seq<Task>, reply: string) returns (d: Decomposition)
    ensures d == NoComplexTask <==> forall t :: t in tasks ==> !IsComplex(t)
    ensures d.NoSubtaskLines? <==> (exists t :: t in tasks && IsComplex(t)) && SubtaskLines(reply) == []
    ensures d.NoSubtaskLines? ==> d.reply == reply
    ensures d.Created? ==>
      IsFirstComplex(tasks, d.parent) && RequestsFor(d.requests, SubtaskTitles(SubtaskLines(reply)), d.parent)
      && d.reported == |d.requests|
  {
    var complex := Filter(tasks, IsComplex);
    Passes(tasks, IsComplex);
    if |complex| == 0 {
      return NoComplexTask;
    }
    FilterFirst(tasks, IsComplex);
    var parent := complex[0];
    var lines := SubtaskLines(reply);
    if |lines| == 0 {
      return NoSubtaskLines(reply);
    }
    var requests := PostSubtasks(lines, parent);
    d := Created(parent, requests, |requests|);
  }

  /** The count in the success alert as written: the number of list lines,
      including lines whose title is empty and that create no task. */
  function ReportedCountAsWritten(reply: string): nat
  {
    |SubtaskLines(reply)|
  }

  lemma SplitOneChar(c: char, sep: char)
    requires c != sep
    ensures Split([c], sep) == [[c]]
  {
    assert [c][1..] == [];
    var rest := Split([c][1..], sep);
    assert rest == [[]];
    assert rest[1..] == [] && [c] + rest[0] == [c];
  }

  lemma TrimOneChar(c: char)
    requires !IsSpace(c)
    ensures Trim([c]) == [c]
  {
    var r := Trim([c]);
    var i: nat :| TrimmedAt([c], r, i);
    assert i == 0;
  }

  /** A reply consisting of a lone `-` reports one subtask created while
      none is sent. */
  lemma ReportedCountOvercounts()
    ensures ReportedCountAsWritten("-") == 1
    ensures SubtaskTitles(SubtaskLines("-")) == []
  {
    SplitOneChar('-', '\n');
    TrimOneChar('-');
    assert IsSubtaskLine("-");
    assert Filter(["-"], IsSubtaskLine) == Filter([], IsSubtaskLine) + ["-"];
    assert StripMarkers("-") == [];
    assert SubtaskTitles(["-"]) == SubtaskTitles([]) + [];
  }
}
