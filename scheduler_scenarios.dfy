/** Runs of the reminder scheduler that show what its delete and wake paths do as written,
    next to the same runs with the corrected members. A reminder is set at time 0 for one
    hour later (or one day later) by user 7. */
module SchedulerScenarios {
  import opened Wrappers
  import opened Timers
  import opened TimerStore
  import opened Scheduler

  /** A reminder armed by the loop and deleted ten seconds later is still fired when its hour
      is up, although its row is gone: the delete path never restarts the loop. */
  method DeletedArmedReminderStillFires() returns (fired: bool, firedId: Option<nat>, storedAtFire: bool)
    ensures fired && firedId == Some(0) && !storedAtFire
  {
    var r := new Reminder(map[], 0);
    var created := r.Remind("stretch", 3600, 7, 1, 2, 0, 0);
    r.StartIteration(0);
    assert exists k :: k in r.store && r.store[k].expires < 0 + LookAheadDays * SecondsPerDay;
    assert r.task.timer.id == Some(0);
    var deleted := r.ReminderDelete(7, 0);
    storedAtFire := 0 in r.store;
    fired := r.Tick(3600);
    firedId := r.dispatched[|r.dispatched| - 1].timer.id;
  }

  /** With the corrected delete, the loop restarts, finds nothing and waits: the deleted
      reminder is never armed again and nothing is dispatched. */
  method DeletedArmedReminderDoesNotFire() returns (armed: bool, dispatchedCount: nat)
    ensures !armed && dispatchedCount == 0
  {
    var r := new Reminder(map[], 0);
    var created := r.Remind("stretch", 3600, 7, 1, 2, 0, 0);
    r.StartIteration(0);
    assert exists k :: k in r.store && r.store[k].expires < 0 + LookAheadDays * SecondsPerDay;
    assert r.task.timer.id == Some(0);
    var deleted := r.ReminderDeleteRestarting(7, 0);
    r.StartIteration(10);
    armed := r.task.Sleeping?;
    dispatchedCount := |r.dispatched|;
  }

  /** User 7 holds one reminder 41 days out, so the loop waits. They start `reminder clear`
      (one row counted), set a reminder for a day later while the prompt waits (setting
      `_have_data`), and confirm before the woken loop runs its lookup: both rows go. The
      lookup after waking finds nothing and the task ends; a reminder created afterwards
      cannot restart it, since no timer is current. */
  method WakeAfterDeletionCrashes() returns (crashed: bool, crashedAfterNewReminder: bool)
    ensures crashed && crashedAfterNewReminder
  {
    var r := new Reminder(map[], 0);
    ClearAfterWait(r);
    r.Wake(5);
    crashed := r.task.Crashed?;
    var again := r.Remind("again", 7200, 7, 1, 4, 10, 10);
    crashedAfterNewReminder := r.task.Crashed?;
  }

  /** With the corrected wake, the task goes back to waiting and arms the next reminder. */
  method WakeAfterDeletionKeepsWaiting() returns (waiting: bool, armedId: Option<nat>)
    ensures waiting && armedId == Some(2)
  {
    var r := new Reminder(map[], 0);
    ClearAfterWait(r);
    r.WakeRetrying(5);
    waiting := r.task.Waiting?;
    var again := r.Remind("again", 7200, 7, 1, 4, 10, 10);
    r.WakeRetrying(10);
    assert exists k :: k in r.store && r.store[k].expires < 10 + LookAheadDays * SecondsPerDay;
    armedId := if r.task.Sleeping? then r.task.timer.id else None;
  }

  /** The common start of the two runs above, from a fresh scheduler: the far reminder, the
      loop waiting, the count, the near reminder and the confirmed clear. */
  method ClearAfterWait(r: Reminder)
    requires r.Valid() && r.store == map[] && r.nextId == 0 && r.task == Searching && r.current == None
    modifies r
    ensures r.Valid() && r.task == Waiting && r.haveData && r.store == map[] && r.nextId == 2
    ensures r.current == None
  {
    var far := r.Remind("far", 41 * SecondsPerDay, 7, 1, 2, 0, 0);
    assert r.store == map[0 := Row(ReminderEvent, 41 * SecondsPerDay, 0, ReminderKwargs(7, 1, "far", 2))];
    r.StartIteration(0);
    assert Owned(r.store, 7) == {0};
    var total := r.CountReminders(7);
    var near := r.Remind("stretch", SecondsPerDay, 7, 1, 3, 0, 0);
    assert r.store.Keys == {0, 1};
    assert AuthoredBy(r.store[0], 7) && AuthoredBy(r.store[1], 7);
    var cleared := r.ReminderClear(7, total, Some(true));
    assert r.store.Keys == {};
  }

  /** `reminder clear` counts one row, and while its prompt waits the same user sets a second
      reminder: both rows are deleted, and the report reads 2 of 1. */
  method ClearDuringPromptDeletesMoreThanCounted() returns (r: ClearOutcome)
    ensures r == Cleared(2, 1)
  {
    var rem := new Reminder(map[], 0);
    var first := rem.Remind("stretch", 86400, 7, 1, 2, 0, 0);
    assert rem.store == map[0 := Row(ReminderEvent, 86400, 0, ReminderKwargs(7, 1, "stretch", 2))];
    assert Owned(rem.store, 7) == {0};
    var total := rem.CountReminders(7);
    var second := rem.Remind("again", 7200, 7, 1, 3, 10, 10);
    assert 0 in rem.store && 1 in rem.store && rem.store.Keys == {0, 1};
    assert AuthoredBy(rem.store[0], 7) && AuthoredBy(rem.store[1], 7);
    assert Owned(rem.store, 7) == {0, 1};
    r := rem.ReminderClear(7, total, Some(true));
  }
}
