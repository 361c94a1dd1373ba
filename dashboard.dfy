/** The home screen of `src/Components/Dashboard.jsx`: task statistics,
    the focus list, recent maps, the goal chart's truncated names and the
    active roadmap goals. */
module Dashboard {
  import opened Text
  import opened Records

  /** `stats` as the effect computes it from the incoming props. */
  datatype Stats<M> = Stats(focus: seq<Task>, goals: seq<Goal>, maps: seq<M>,
                            completedTasks: nat, pendingTasks: nat)

  function Min(a: nat, b: nat): nat
  {
    if a < b then a else b
  }

  /** The stats effect: the first three incomplete tasks, all goals, the
      first four maps, the completed count and `tasks.length - completed`. */
  function ComputeStats<M>(ts: seq<Task>, gs: seq<Goal>, maps: seq<M>): Stats<M>
  {
    var completed := |Filter(ts, IsCompleted)|;
    var pending := Filter(ts, IsPending);
    Stats(pending[..Min(3, |pending|)], gs, maps[..Min(4, |maps|)], completed, |ts| - completed)
  }

  /** The counts add up to the number of tasks, the pending count is the
      number of incomplete tasks, the focus list is the first (at most)
      three incomplete tasks in order, and the recent maps the first (at
      most) four maps. */
  lemma StatsSpec<M>(ts: seq<Task>, gs: seq<Goal>, maps: seq<M>)
    ensures var s := ComputeStats(ts, gs, maps);
            s.completedTasks + s.pendingTasks == |ts|
            && s.pendingTasks == |Filter(ts, IsPending)|
            && |s.focus| == Min(3, s.pendingTasks)
            && (forall i :: 0 <= i < |s.focus| ==> s.focus[i] == Filter(ts, IsPending)[i] && !s.focus[i].completed)
            && |s.maps| == Min(4, |maps|)
            && (forall i :: 0 <= i < |s.maps| ==> s.maps[i] == maps[i])
  {
    Partition(ts, IsCompleted, IsPending);
    var pending := Filter(ts, IsPending);
    FilterSpec(ts, IsPending);
    forall i | 0 <= i < Min(3, |pending|) ensures !pending[i].completed {
      assert pending[i] in pending;
    }
  }

  /** `title.substring(0, 10) + (title.length > 10 ? '...' : '')`. */
  function ChartName(title: string): string
  {
    title[..Min(10, |title|)] + (if |title| > 10 then "..." else "")
  }

  /** A title of at most 10 characters is its own name; a longer one becomes
      its first 10 characters and `...`, 13 characters in all, so it is
      unchanged only if it already had that form. */
  lemma ChartNameSpec(title: string)
    ensures |title| <= 10 ==> ChartName(title) == title
    ensures |title| > 10 ==> |ChartName(title)| == 13 && StartsWith(ChartName(title), title[..10])
                             && ChartName(title)[10..] == "..."
    ensures ChartName(title) == title <==> |title| <= 10 || title == title[..10] + "..."
  {
    if |title| > 10 {
      assert ChartName(title) == title[..10] + "...";
    } else {
      assert title[..|title|] == title;
    }
  }

  /** The goals listed under "Current Focus": titles starting with
      `Roadmap:` and progress below 100. */
  predicate IsActiveRoadmap(g: Goal)
  {
    StartsWith(g.title, "Roadmap:") && g.progress < 100
  }

  function RoadmapGoals(gs: seq<Goal>): seq<Goal>
  {
    Filter(gs, IsActiveRoadmap)
  }

  /** `goal.title.replace("Roadmap: ", "")`. */
  function RoadmapCaption(g: Goal): string
  {
    ReplaceFirst(g.title, "Roadmap: ", "")
  }

  /** The roadmap list holds exactly the unfinished `Roadmap:` goals, and a
      goal named `Roadmap: <topic>` is shown as `<topic>`. */
  lemma RoadmapGoalsSpec(gs: seq<Goal>, g: Goal, topic: string)
    ensures g in RoadmapGoals(gs) <==> g in gs && StartsWith(g.title, "Roadmap:") && g.progress < 100
    ensures g.title == "Roadmap: " + topic ==> RoadmapCaption(g) == topic
  {
    FilterSpec(gs, IsActiveRoadmap);
    if g.title == "Roadmap: " + topic {
      ReplaceFirstAtStart("Roadmap: ", topic, "");
      assert "" + topic == topic;
    }
  }

  /** "All caught up! 🎉": no focus tasks and no goals. */
  predicate AllCaughtUp<M>(s: Stats<M>)
  {
    |s.focus| == 0 && |s.goals| == 0
  }

  /** The message shows exactly when every task is completed and there are
      no goals. */
  lemma AllCaughtUpSpec<M>(ts: seq<Task>, gs: seq<Goal>, maps: seq<M>)
    ensures AllCaughtUp(ComputeStats(ts, gs, maps))
            <==> (forall i :: 0 <= i < |ts| ==> ts[i].completed) && gs == []
  {
    var pending := Filter(ts, IsPending);
    FilterSpec(ts, IsPending);
    if forall i :: 0 <= i < |ts| ==> ts[i].completed {
      if pending != [] {
        assert pending[0] in pending;
      }
    } else {
      var i :| 0 <= i < |ts| && !ts[i].completed;
      assert ts[i] in pending;
    }
  }
}
