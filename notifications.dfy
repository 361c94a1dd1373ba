/** The reminder hook of `src/hooks/useNotifications.js`: every 30 seconds
    the tasks due within the next five minutes are announced, each task id
    at most once for the life of the hook. */
module Notifications {
  import opened Wrappers
  import opened Records

  /** `300000` ms: five minutes. */
  const Window: int := 300000

  /** The test inside `forEach`: incomplete, with a due date, and due
      strictly after `now` and less than five minutes after it. */
  predicate DueSoon(t: Task, now: int)
  {
    !t.completed && t.due.Some? && 0 < t.due.value - now < Window
  }

  /** The ids of a list of tasks. */
  function Ids(ts: seq<Task>): set<nat>
  {
    set t | t in ts :: t.id
  }

  /** One `checkTasks` with permission granted, from the left: the tasks
      announced and the notified-id set afterwards. */
  function CheckRound(ts: seq<Task>, notified: set<nat>, now: int): (seq<Task>, set<nat>)
    decreases |ts|
  {
    if ts == [] then ([], notified)
    else if DueSoon(ts[0], now) && ts[0].id !in notified then
      var (sent, after) := CheckRound(ts[1..], notified + {ts[0].id}, now);
      ([ts[0]] + sent, after)
    else CheckRound(ts[1..], notified, now)
  }

  /** A round announces only tasks it was given that are due soon and not
      yet notified, never two with one id; the set grows by exactly the
      announced ids; and afterwards every due-soon task's id is in it. */
  lemma {:induction false} CheckRoundSpec(ts: seq<Task>, notified: set<nat>, now: int)
    ensures var (sent, after) := CheckRound(ts, notified, now);
            (forall i :: 0 <= i < |sent| ==> sent[i] in ts && DueSoon(sent[i], now) && sent[i].id !in notified)
            && (forall i, j :: 0 <= i < j < |sent| ==> sent[i].id != sent[j].id)
            && after == notified + Ids(sent)
            && (forall t :: t in ts && DueSoon(t, now) ==> t.id in after)
    decreases |ts|
  {
    if ts != [] {
      var t := ts[0];
      if DueSoon(t, now) && t.id !in notified {
        CheckRoundSpec(ts[1..], notified + {t.id}, now);
        var (sent, after) := CheckRound(ts[1..], notified + {t.id}, now);
        assert Ids([t] + sent) == {t.id} + Ids(sent);
      } else {
        CheckRoundSpec(ts[1..], notified, now);
      }
      assert forall x :: x in ts ==> x == t || x in ts[1..];
    }
  }

  /** Rounds one after the other never announce a task id twice, whatever
      the task list and the clock show at each. */
  lemma NotifiedOnce(ts1: seq<Task>, ts2: seq<Task>, notified: set<nat>, now1: int, now2: int)
    ensures var (sent1, after1) := CheckRound(ts1, notified, now1);
            var (sent2, after2) := CheckRound(ts2, after1, now2);
            Ids(sent1) !! Ids(sent2) && notified <= after1 <= after2
  {
    var (sent1, after1) := CheckRound(ts1, notified, now1);
    CheckRoundSpec(ts1, notified, now1);
    CheckRoundSpec(ts2, after1, now2);
    var (sent2, after2) := CheckRound(ts2, after1, now2);
    forall x | x in Ids(sent2) ensures x !in Ids(sent1) {
      var t :| t in sent2 && t.id == x;
      var i :| 0 <= i < |sent2| && sent2[i] == t;
      assert sent2[i].id !in after1;
    }
  }

  /** The hook's `notifiedTaskIds` ref. */
  class Notifier {
    var notifiedTaskIds: set<nat>

    constructor ()
      ensures notifiedTaskIds == {}
    {
      notifiedTaskIds := {};
    }

    /** `checkTasks()`: nothing unless notification permission is
        `granted`; otherwise the round above, `sent` being the tasks passed
        to `sendNotification`, in order. */
    method CheckTasks(tasks: seq<Task>, permission: string, now: int) returns (sent: seq<Task>)
      modifies this
      ensures permission != "granted" ==> sent == [] && notifiedTaskIds == old(notifiedTaskIds)
      ensures permission == "granted" ==> (sent, notifiedTaskIds) == CheckRound(tasks, old(notifiedTaskIds), now)
    {
      sent := [];
      if permission != "granted" {
        return;
      }
      assert tasks[0..] == tasks;
      for i := 0 to |tasks|
        invariant CheckRound(tasks, old(notifiedTaskIds), now).0
                  == sent + CheckRound(tasks[i..], notifiedTaskIds, now).0
        invariant CheckRound(tasks, old(notifiedTaskIds), now).1
                  == CheckRound(tasks[i..], notifiedTaskIds, now).1
      {
        var task := tasks[i];
        assert tasks[i..][0] == task && tasks[i..][1..] == tasks[i + 1..];
        if task.completed || task.due.None? {
          continue;
        }
        var timeDiff := task.due.value - now;
        if timeDiff > 0 && timeDiff < Window && task.id !in notifiedTaskIds {
          var rest := CheckRound(tasks[i + 1..], notifiedTaskIds + {task.id}, now).0;
          assert CheckRound(tasks[i..], notifiedTaskIds, now).0 == [task] + rest;
          assert sent + ([task] + rest) == (sent + [task]) + rest;
          sent := sent + [task];
          notifiedTaskIds := notifiedTaskIds + {task.id};
        }
      }
      assert tasks[|tasks|..] == [] && sent + [] == sent;
    }
  }
}
