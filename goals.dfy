/** The goals panel of `src/Components/Goals.jsx`: progress is kept in
    [0, 100] by a clamp, stepped by 10 with the two buttons, and the list is
    updated locally after each server call. */
module Goals {
  import opened Wrappers
  import opened Records

  /** `Math.min(100, Math.max(0, p))`. */
  function Clamp(p: int): (r: int)
    ensures 0 <= r <= 100
    ensures 0 <= p <= 100 ==> r == p
    ensures p < 0 ==> r == 0
    ensures p > 100 ==> r == 100
  {
    if p < 0 then 0 else if p > 100 then 100 else p
  }

  /** `updateProgress(goal, p)`: the goals with `goal`'s id get the clamped
      progress. */
  function UpdateProgress(gs: seq<Goal>, id: nat, p: int): (r: seq<Goal>)
    ensures |r| == |gs|
  {
    MapWhere(gs, (g: Goal) => g.id == id, (g: Goal) => g.(progress := Clamp(p)))
  }

  predicate AllInRange(gs: seq<Goal>)
  {
    forall i :: 0 <= i < |gs| ==> 0 <= gs[i].progress <= 100
  }

  /** Only the goals with that id change, only in their progress, which
      lands in [0, 100]; a list whose progress values are all in range stays
      so. */
  lemma UpdateProgressSpec(gs: seq<Goal>, id: nat, p: int)
    ensures forall i :: 0 <= i < |gs| ==>
      UpdateProgress(gs, id, p)[i].(progress := gs[i].progress) == gs[i]
      && (gs[i].id == id ==> UpdateProgress(gs, id, p)[i].progress == Clamp(p))
      && (gs[i].id != id ==> UpdateProgress(gs, id, p)[i] == gs[i])
    ensures AllInRange(gs) ==> AllInRange(UpdateProgress(gs, id, p))
  {
  }

  /** The `+` button: `updateProgress(goal, goal.progress_percentage + 10)`. */
  function StepUp(progress: int): int
  {
    Clamp(progress + 10)
  }

  /** The `-` button: `updateProgress(goal, goal.progress_percentage - 10)`. */
  function StepDown(progress: int): int
  {
    Clamp(progress - 10)
  }

  /** From a progress in range the buttons move by 10 and stop at the ends
      (95 goes up to 100, 5 down to 0); away from the ends one press of each
      cancels out. */
  lemma StepButtons(v: int)
    requires 0 <= v <= 100
    ensures StepUp(v) == if v >= 90 then 100 else v + 10
    ensures StepDown(v) == if v <= 10 then 0 else v - 10
    ensures 10 <= v ==> StepUp(StepDown(v)) == v
    ensures v <= 90 ==> StepDown(StepUp(v)) == v
  {
  }

  /** The body `createGoal` posts. */
  datatype GoalDraft = GoalDraft(title: string, progress: int)

  /** `createGoal`: an empty title sends nothing; otherwise the new goal
      starts at progress 0. */
  function GoalRequest(title: string): (r: Option<GoalDraft>)
    ensures r.None? <==> title == ""
    ensures r.Some? ==> r.value.title == title && r.value.progress == 0
  {
    if title == "" then None else Some(GoalDraft(title, 0))
  }

  /** The list after `createGoal` and the title field: the saved goal the
      server replies with is appended and the field cleared; nothing changes
      without a request or a reply. */
  function CreateGoal(gs: seq<Goal>, title: string, reply: Option<Goal>): (seq<Goal>, string)
  {
    if GoalRequest(title).None? then (gs, title)
    else match reply case None => (gs, title) case Some(g) => (gs + [g], "")
  }

  /** `deleteGoal(id)`: only after confirmation and a successful delete. */
  function DeleteGoal(gs: seq<Goal>, id: nat, confirmed: bool, deleted: bool): seq<Goal>
  {
    if !confirmed || !deleted then gs else Filter(gs, (g: Goal) => g.id != id)
  }

  /** A confirmed deletion removes every goal with that id and keeps every
      other goal as often as before; an unconfirmed one changes nothing. */
  lemma DeleteGoalSpec(gs: seq<Goal>, id: nat, deleted: bool)
    ensures DeleteGoal(gs, id, false, deleted) == gs
    ensures forall g: Goal :: g in DeleteGoal(gs, id, true, true) ==> g.id != id
    ensures forall g: Goal :: g.id != id ==> multiset(DeleteGoal(gs, id, true, true))[g] == multiset(gs)[g]
  {
    FilterSpec(gs, (g: Goal) => g.id != id);
  }

  /** An empty title or a failed request changes nothing; a saved goal is
      appended, keeping the goals before it; deleting that new goal (whose
      id no other goal has) gives back the list as it was. */
  lemma CreateThenDeleteGoal(gs: seq<Goal>, title: string, reply: Option<Goal>)
    requires reply.Some? ==> forall i :: 0 <= i < |gs| ==> gs[i].id != reply.value.id
    ensures title == "" || reply.None? ==> CreateGoal(gs, title, reply) == (gs, title)
    ensures title != "" && reply.Some? ==>
      var (r, field) := CreateGoal(gs, title, reply);
      field == "" && |r| == |gs| + 1 && r[..|gs|] == gs && r[|gs|] == reply.value
      && DeleteGoal(r, reply.value.id, true, true) == gs
  {
    if title != "" && reply.Some? {
      var g := reply.value;
      var p := (x: Goal) => x.id != g.id;
      FilterAll(gs, p);
      FilterAppend(gs, [g], p);
      assert Filter([g], p) == [];
      assert (gs + [g])[..|gs|] == gs;
    }
  }
}
