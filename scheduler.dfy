/** The reminder cog's scheduler (class `Reminder`): one long-lived dispatch task that waits on
    the earliest stored timer, sleeps until it is due, fires it and starts over; the short-timer
    fast path; and the commands that add, list, delete and clear reminders, with the rules for
    when they cancel the dispatch task and start a fresh one.

    The dispatch task is modelled by where it is suspended (`Task`); each method below is one
    atomic step, run with the current time `now` in whole seconds. The task is split only
    where it waits on `_have_data` or sleeps, and `reminder clear` at its prompt; the other
    awaited database calls fall inside a single step. Cancelling the task and spawning a new `dispatch_timers` is
    `Restart`: the restart counter goes up and the new task starts at its first lookup. */
module Scheduler {
  import opened Wrappers
  import opened Timers
  import opened TimerStore

  const SecondsPerDay: int := 86400
  /** `dispatch_timers` looks at most 40 days ahead (longer sleeps are unreliable). */
  const LookAheadDays: int := 40
  /** Timers due within this many seconds of their creation take the short-timer path. */
  const ShortTimerSeconds: int := 60
  /** The `reminder` command rejects texts of this many characters or more. */
  const MaxReminderLength: int := 1500
  /** `reminder list` shows at most this many reminders. */
  const ListLimit: nat := 10
  /** The event tag of the reminder commands. */
  const ReminderEvent: string := "reminder"

  /** Where the current dispatch task is suspended. `Searching`: just started (or looping),
      about to look up the earliest timer. `Waiting`: found nothing and blocked on
      `_have_data`. `Sleeping`: armed with `timer`, asleep until `until`. `Crashed`: ended by
      an exception the task does not catch. */
  datatype Task = Searching | Waiting | Sleeping(timer: Timer, until: int) | Crashed

  /** One `bot.dispatch(name, timer)` call. */
  datatype Dispatch = Dispatch(name: string, timer: Timer)

  /** A detached `short_timer_optimisation(delay, timer)` task, started when the clock read
      `due - delay`, so that its sleep ends at `due`. */
  datatype ShortTask = ShortTask(delay: int, due: int, timer: Timer)

  datatype RemindOutcome = TooLong | Scheduled(timer: Timer)
  datatype DeleteOutcome = NothingDeleted | Deleted
  /** `AuthorKeyError`: the armed timer's non-empty kwargs have no `author`, so reading its
      `author_id` raised after the rows were already deleted. */
  datatype ClearOutcome =
    | NothingToClear
    | Aborted
    | Cleared(deleted: nat, total: nat)
    | AuthorKeyError(deleted: nat, total: nat)
  /** The footer of `reminder list`. */
  datatype ListFooter = NoneRunning | OnlyShowingMax | Count(n: nat)

  /** Python objects an id is compared with in `reminder_delete`. */
  datatype PyObject = PyInt(i: int) | PyNone | PyBuiltin(name: string)

  function PyOfId(id: Option<nat>): PyObject
  {
    match id
    case None => PyNone
    case Some(i) => PyInt(i)
  }

  /** `==` between Python objects of these kinds: an int or `None` never equals a builtin. */
  predicate PyEq(a: PyObject, b: PyObject)
  {
    a == b
  }

  /** The builtin function `id`, which is what the name `id` means in `reminder_delete`
      (its parameter is `_id`). */
  const BuiltinId: PyObject := PyBuiltin("id")

  /** No timer id, present or absent, equals the builtin `id`. */
  lemma NoIdEqualsBuiltin(id: Option<nat>)
    ensures !PyEq(PyOfId(id), BuiltinId)
  {
  }

  /** How long the loop sleeps on a timer: `expires - now` when that is non-negative, else
      not at all. */
  function SleepSeconds(t: Timer, now: int): (d: int)
    ensures d >= 0
    ensures now + d >= t.expires
    ensures t.expires >= now ==> now + d == t.expires
    ensures t.expires < now ==> d == 0
  {
    if t.expires >= now then t.expires - now else 0
  }

  /** What `get_active_timer` returns for window limit `limit`: nothing when no row expires
      before it, else the timer of an earliest such row. */
  ghost predicate ActiveTimerResult(s: Store, limit: int, t: Option<Timer>)
  {
    && (t.None? <==> forall k :: k in s ==> s[k].expires >= limit)
    && (t.Some? ==> IsEarliestWithin(s, t.value, limit))
  }

  class Reminder {
    /** The `reminders` collection. */
    var store: Store
    /** The ids the store has not handed out yet. */
    var nextId: nat
    /** `_current_timer`. */
    var current: Option<Timer>
    /** The `_have_data` event. */
    var haveData: bool
    /** Where the live dispatch task (`_task`) is. */
    var task: Task
    /** How many times the dispatch task was cancelled and spawned anew. */
    var restarts: nat
    /** Short-timer tasks still asleep. */
    var shortTasks: seq<ShortTask>
    /** Every event dispatched so far, in order. */
    var dispatched: seq<Dispatch>

    ghost predicate Valid()
      reads this
    {
      && (forall k :: k in store ==> k < nextId)
      && (task.Sleeping? ==> current == Some(task.timer) && task.until >= task.timer.expires)
      && (task.Waiting? || task.Crashed? ==> current == None)
    }

    /** The armed timer is still in the store, unchanged. */
    ghost predicate ArmedStored()
      reads this
    {
      task.Sleeping? ==>
        var t := task.timer;
        t.id.Some? && t.id.value in store && t == TimerOfRow(t.id.value, store[t.id.value])
    }

    /** The armed timer expires no later than any stored row. */
    ghost predicate ArmedEarliest()
      reads this
    {
      task.Sleeping? ==> forall k :: k in store ==> task.timer.expires <= store[k].expires
    }

    /** `Reminder.__init__`: a fresh dispatch task, no current timer, `_have_data` clear, over
        the rows already in the durable store. */
    constructor (initial: Store, firstFreeId: nat)
      requires forall k :: k in initial ==> k < firstFreeId
      ensures Valid() && ArmedStored() && ArmedEarliest()
      ensures store == initial && nextId == firstFreeId
      ensures current == None && !haveData && task == Searching
      ensures restarts == 0 && shortTasks == [] && dispatched == []
    {
      store := initial;
      nextId := firstFreeId;
      current := None;
      haveData := false;
      task := Searching;
      restarts := 0;
      shortTasks := [];
      dispatched := [];
    }

    /** `self._task.cancel(); self._task = create_task(self.dispatch_timers())`. */
    method Restart()
      requires Valid()
      modifies this`restarts, this`task
      ensures Valid() && ArmedStored() && ArmedEarliest()
      ensures restarts == old(restarts) + 1 && task == Searching
    {
      restarts := restarts + 1;
      task := Searching;
    }

    /** `get_active_timer(days=days)` at time `now`: reads the store and changes nothing. */
    method GetActiveTimer(now: int, days: int) returns (t: Option<Timer>)
      ensures ActiveTimerResult(store, now + days * SecondsPerDay, t)
    {
      var limit := now + days * SecondsPerDay;
      var inWindow := set k | k in store && store[k].expires < limit;
      var found := EarliestAmong(store, inWindow);
      if found.None? {
        assert forall k :: k in store ==> k in inWindow || store[k].expires >= limit;
        t := None;
      } else {
        var k := found.value;
        var timer := NewTimer(RecordOf(k, store[k]));
        t := Some(timer);
      }
    }

    /** The part of `wait_for_active_timers` before it blocks: a found timer sets `_have_data`
        and is returned; finding none clears `_have_data` and `_current_timer`. */
    method WaitForActiveTimers(now: int, days: int) returns (t: Option<Timer>)
      modifies this`haveData, this`current
      ensures ActiveTimerResult(store, now + days * SecondsPerDay, t)
      ensures t.Some? ==> haveData && current == old(current)
      ensures t.None? ==> !haveData && current == None
    {
      t := GetActiveTimer(now, days);
      if t.Some? {
        haveData := true;
      } else {
        haveData := false;
        current := None;
      }
    }

    /** One pass of the `dispatch_timers` loop up to its sleep: look up the earliest timer in
        the 40-day window; arm it (as `_current_timer`) with a sleep of `SleepSeconds`, or block
        on `_have_data` when there is none. */
    method StartIteration(now: int)
      requires Valid() && task.Searching?
      modifies this`haveData, this`current, this`task
      ensures Valid() && ArmedStored() && ArmedEarliest()
      ensures var limit := now + LookAheadDays * SecondsPerDay;
        if exists k :: k in store && store[k].expires < limit then
          && task.Sleeping? && haveData && current == Some(task.timer)
          && IsEarliestWithin(store, task.timer, limit)
          && task.until == now + SleepSeconds(task.timer, now)
        else
          task == Waiting && !haveData && current == None
    {
      var t := WaitForActiveTimers(now, LookAheadDays);
      if t.Some? {
        EarliestWithinIsEarliest(store, t.value, now + LookAheadDays * SecondsPerDay);
        current := t;
        task := Sleeping(t.value, now + SleepSeconds(t.value, now));
      } else {
        task := Waiting;
      }
    }

    /** The blocked task resumes once `_have_data` is set and looks up again
        (`return await self.get_active_timer(days=days)`), as written: when that lookup
        finds nothing, `timer.expires` on `None` raises an `AttributeError` the loop does not
        catch, and the task ends with `_current_timer` left `None`. */
    method Wake(now: int)
      requires Valid() && task.Waiting?
      modifies this`current, this`task
      ensures Valid() && ArmedStored() && ArmedEarliest()
      ensures !old(haveData) ==> task == Waiting && current == None
      ensures var limit := now + LookAheadDays * SecondsPerDay;
        old(haveData) ==>
          if exists k :: k in store && store[k].expires < limit then
            && task.Sleeping? && current == Some(task.timer)
            && IsEarliestWithin(store, task.timer, limit)
            && task.until == now + SleepSeconds(task.timer, now)
          else
            task == Crashed && current == None
    {
      if haveData {
        var t := GetActiveTimer(now, LookAheadDays);
        current := t;
        if t.Some? {
          EarliestWithinIsEarliest(store, t.value, now + LookAheadDays * SecondsPerDay);
          task := Sleeping(t.value, now + SleepSeconds(t.value, now));
        } else {
          task := Crashed;
        }
      }
    }

    /** `Wake` as evidently intended: when the lookup after waking finds nothing, the task
        clears `_have_data` and waits again instead of ending. */
    method WakeRetrying(now: int)
      requires Valid() && task.Waiting?
      modifies this`current, this`task, this`haveData
      ensures Valid() && ArmedStored() && ArmedEarliest()
      ensures !task.Crashed?
      ensures !old(haveData) ==> task == Waiting && current == None && !haveData
      ensures var limit := now + LookAheadDays * SecondsPerDay;
        old(haveData) ==>
          if exists k :: k in store && store[k].expires < limit then
            && task.Sleeping? && current == Some(task.timer)
            && IsEarliestWithin(store, task.timer, limit)
            && task.until == now + SleepSeconds(task.timer, now)
          else
            task == Waiting && current == None && !haveData
    {
      if haveData {
        var t := GetActiveTimer(now, LookAheadDays);
        current := t;
        if t.Some? {
          EarliestWithinIsEarliest(store, t.value, now + LookAheadDays * SecondsPerDay);
          task := Sleeping(t.value, now + SleepSeconds(t.value, now));
        } else {
          haveData := false;
          task := Waiting;
        }
      }
    }

    /** `call_timer`: delete the row `{'_id': timer.id}` (nothing, when already gone) and
        dispatch `'<event>_timer_complete'` with the timer. */
    method CallTimer(t: Timer)
      requires Valid()
      modifies this`store, this`dispatched
      ensures Valid()
      ensures store == DeleteById(old(store), t.id)
      ensures dispatched == old(dispatched) + [Dispatch(EventName(t.event), t)]
    {
      store := DeleteById(store, t.id);
      dispatched := dispatched + [Dispatch(EventName(t.event), t)];
    }

    /** The armed task's sleep is checked at time `now`: once `now` reaches the end of the
        sleep the timer is fired through `call_timer` and the loop goes back to searching;
        before that nothing happens. A fire never happens before the timer's `expires`, and
        when the armed timer was sound it is a stored row no later than any other stored row. */
    method Tick(now: int) returns (fired: bool)
      requires Valid() && task.Sleeping?
      modifies this`store, this`dispatched, this`task
      ensures Valid()
      ensures fired <==> now >= old(task).until
      ensures fired ==> old(task).timer.expires <= now
      ensures fired ==>
        && task == Searching
        && dispatched == old(dispatched) + [Dispatch(EventName(old(task).timer.event), old(task).timer)]
        && store == DeleteById(old(store), old(task).timer.id)
      ensures fired && old(ArmedStored()) ==> old(task).timer.id.value in old(store)
      ensures fired && old(ArmedEarliest()) ==>
        forall k :: k in old(store) ==> old(task).timer.expires <= old(store)[k].expires
      ensures !fired ==> task == old(task) && store == old(store) && dispatched == old(dispatched)
      ensures old(ArmedStored()) ==> ArmedStored()
      ensures old(ArmedEarliest()) ==> ArmedEarliest()
    {
      var t := task.timer;
      fired := now >= task.until;
      if fired {
        CallTimer(t);
        task := Searching;
      }
    }

    /** `short_timer_optimisation`: the `i`-th detached short timer's sleep is checked at
        time `now`; once it has ended the timer is dispatched directly, without touching the
        store or the dispatch task, and before that nothing happens. */
    method FinishShortTimer(i: nat, now: int) returns (fired: bool)
      requires i < |shortTasks|
      modifies this`shortTasks, this`dispatched
      ensures fired <==> now >= old(shortTasks)[i].due
      ensures fired ==>
        var t := old(shortTasks)[i].timer;
        && dispatched == old(dispatched) + [Dispatch(EventName(t.event), t)]
        && shortTasks == old(shortTasks)[..i] + old(shortTasks)[i + 1..]
      ensures !fired ==> shortTasks == old(shortTasks) && dispatched == old(dispatched)
    {
      fired := now >= shortTasks[i].due;
      if fired {
        var t := shortTasks[i].timer;
        dispatched := dispatched + [Dispatch(EventName(t.event), t)];
        shortTasks := shortTasks[..i] + shortTasks[i + 1..];
      }
    }

    /** `create_timer(when, event, **kwargs)` with the clock reading `clock`. The `created`
        keyword, when given, is taken out of the kwargs and used as the creation time. The
        returned timer is always the id-less temporary one. Within 60 seconds only a short
        timer is started; otherwise exactly one row is inserted, `_have_data` is set when the
        delay is at most 40 days, and the dispatch task restarts exactly when a timer is
        current and `when` is strictly earlier than its expiry. */
    method CreateTimer(when: int, event: string, kwargs: Kwargs, clock: int) returns (t: Timer)
      requires Valid()
      requires "created" in kwargs ==> kwargs["created"].TimeVal?
      modifies this`store, this`nextId, this`haveData, this`task, this`restarts, this`shortTasks
      ensures Valid()
      ensures var now := if "created" in kwargs then kwargs["created"].t else clock;
        t == Temporary(when, now, event, kwargs - {"created"})
      ensures t.id == None && "created" !in t.kwargs
      ensures var delta := when - t.createdAt;
        if delta <= ShortTimerSeconds then
          && store == old(store) && nextId == old(nextId) && haveData == old(haveData)
          && task == old(task) && restarts == old(restarts)
          && shortTasks == old(shortTasks) + [ShortTask(delta, clock + delta, t)]
        else
          && old(nextId) !in old(store)
          && store == old(store)[old(nextId) := Row(event, when, t.createdAt, t.kwargs)]
          && nextId == old(nextId) + 1
          && haveData == (old(haveData) || delta <= LookAheadDays * SecondsPerDay)
          && shortTasks == old(shortTasks)
          && var restart := current.Some? && when < current.value.expires;
             && restarts == old(restarts) + (if restart then 1 else 0)
             && task == (if restart then Searching else old(task))
      ensures old(ArmedStored()) ==> ArmedStored()
      ensures old(ArmedEarliest()) ==> ArmedEarliest()
    {
      var now := if "created" in kwargs then kwargs["created"].t else clock;
      var payload := kwargs - {"created"};
      t := NewTimer(PseudoRecord(when, now, event, payload));
      var delta := when - now;
      if delta <= ShortTimerSeconds {
        shortTasks := shortTasks + [ShortTask(delta, clock + delta, t)];
        return;
      }
      store := store[nextId := Row(event, when, now, payload)];
      nextId := nextId + 1;
      if delta <= LookAheadDays * SecondsPerDay {
        haveData := true;
      }
      if current.Some? && when < current.value.expires {
        Restart();
      }
    }

    /** The `reminder` command: a text of 1500 characters or more is refused before any timer
        is created; otherwise a `'reminder'` timer carrying the author, channel, text and
        message id is created at the message's creation time. */
    method Remind(text: string, when: int, author: int, channel: int, messageId: int,
                  created: int, clock: int) returns (r: RemindOutcome)
      requires Valid()
      modifies this`store, this`nextId, this`haveData, this`task, this`restarts, this`shortTasks
      ensures Valid()
      ensures r.TooLong? <==> |text| >= MaxReminderLength
      ensures r.TooLong? ==>
        && store == old(store) && shortTasks == old(shortTasks)
        && task == old(task) && restarts == old(restarts) && haveData == old(haveData)
      ensures r.Scheduled? ==>
        var kw := ReminderKwargs(author, channel, text, messageId);
        var delta := when - created;
        && r.timer == Temporary(when, created, ReminderEvent, kw)
        && if delta <= ShortTimerSeconds then
             && store == old(store) && nextId == old(nextId) && haveData == old(haveData)
             && task == old(task) && restarts == old(restarts)
             && shortTasks == old(shortTasks) + [ShortTask(delta, clock + delta, r.timer)]
           else
             && old(nextId) !in old(store)
             && store == old(store)[old(nextId) := Row(ReminderEvent, when, created, kw)]
             && nextId == old(nextId) + 1
             && haveData == (old(haveData) || delta <= LookAheadDays * SecondsPerDay)
             && shortTasks == old(shortTasks)
             && var restart := current.Some? && when < current.value.expires;
                && restarts == old(restarts) + (if restart then 1 else 0)
                && task == (if restart then Searching else old(task))
      ensures old(ArmedStored()) ==> ArmedStored()
      ensures old(ArmedEarliest()) ==> ArmedEarliest()
    {
      if |text| >= MaxReminderLength {
        return TooLong;
      }
      var kwargs := ReminderKwargs(author, channel, text, messageId)["created" := TimeVal(created)];
      assert kwargs - {"created"} == ReminderKwargs(author, channel, text, messageId);
      var t := CreateTimer(when, ReminderEvent, kwargs, clock);
      r := Scheduled(t);
    }

    /** `reminder list`: up to 10 of the requester's `'reminder'` rows, earliest first. */
    method ReminderList(requester: int) returns (ids: seq<nat>, footer: ListFooter)
      ensures |ids| <= ListLimit
      ensures forall i :: 0 <= i < |ids| ==> ids[i] in store && ListedFor(store[ids[i]], requester)
      ensures forall i, j :: 0 <= i < j < |ids| ==> ids[i] != ids[j]
      ensures forall i, j :: 0 <= i < j < |ids| ==> store[ids[i]].expires <= store[ids[j]].expires
      ensures forall k, i ::
        (k in store && ListedFor(store[k], requester) && k !in ids && 0 <= i < |ids|)
        ==> store[ids[i]].expires <= store[k].expires
      ensures |ids| < ListLimit ==>
        forall k :: k in store && ListedFor(store[k], requester) ==> k in ids
      ensures footer == if |ids| == 0 then NoneRunning
                        else if |ids| == ListLimit then OnlyShowingMax
                        else Count(|ids|)
    {
      var listed := set k | k in store && ListedFor(store[k], requester);
      ids := FindSorted(store, listed, ListLimit);
      footer := if |ids| == 0 then NoneRunning
                else if |ids| == ListLimit then OnlyShowingMax
                else Count(|ids|);
    }

    /** `reminder delete <_id>`, as written: only the requester's row with that id is
        deleted, and since the restart check compares the current timer's id with the builtin
        `id`, the dispatch task is never restarted, even when the armed timer was deleted. */
    method ReminderDelete(requester: int, id: int) returns (r: DeleteOutcome)
      requires Valid()
      modifies this`store, this`task, this`restarts
      ensures Valid()
      ensures store == DeleteByIdAndAuthor(old(store), id, requester)
      ensures r == Deleted <==> id in old(store) && AuthoredBy(old(store)[id], requester)
      ensures task == old(task) && restarts == old(restarts) && current == old(current)
      ensures old(ArmedEarliest()) ==> ArmedEarliest()
    {
      var before := store;
      store := DeleteByIdAndAuthor(store, id, requester);
      DeleteByIdAndAuthorEffect(before, id, requester);
      if |before| - |store| == 0 {
        return NothingDeleted;
      }
      if current.Some? && PyEq(PyOfId(current.value.id), BuiltinId) {
        // the source restarts the dispatch task here; the guard never holds
        assert false;
      }
      r := Deleted;
    }

    /** `reminder delete` as evidently intended: the task restarts when the deleted row is
        the current timer, so an armed timer that is deleted stays out of reach of the loop. */
    method ReminderDeleteRestarting(requester: int, id: int) returns (r: DeleteOutcome)
      requires Valid()
      modifies this`store, this`task, this`restarts
      ensures Valid()
      ensures store == DeleteByIdAndAuthor(old(store), id, requester)
      ensures r == Deleted <==> id in old(store) && AuthoredBy(old(store)[id], requester)
      ensures var restart := r == Deleted && current.Some? && current.value.id == Some(id as nat);
        && restarts == old(restarts) + (if restart then 1 else 0)
        && task == (if restart then Searching else old(task))
      ensures old(ArmedStored()) ==> ArmedStored()
      ensures old(ArmedEarliest()) ==> ArmedEarliest()
    {
      var before := store;
      store := DeleteByIdAndAuthor(store, id, requester);
      DeleteByIdAndAuthorEffect(before, id, requester);
      if |before| - |store| == 0 {
        return NothingDeleted;
      }
      if current.Some? && current.value.id == Some(id as nat) {
        Restart();
      }
      r := Deleted;
    }

    /** The first query of `reminder clear`: how many rows the requester authored. Only
        reads the store. */
    method CountReminders(requester: int) returns (total: nat)
      ensures total == |Owned(store, requester)|
    {
      total := CountFound(Owned(store, requester));
    }

    /** The rest of `reminder clear`, after the count `total` was taken and the confirmation
        prompt answered `confirm`. Other steps may run while the prompt waits, so the delete
        works on the store as it is now and `deleted` may differ from `total`. With no rows
        counted, or without an explicit confirm, nothing changes; otherwise every row the
        requester authored is deleted, and the task restarts exactly when the current timer's
        `author_id` is the requester, whether or not the current timer was among the deleted
        rows. */
    method ReminderClear(requester: int, total: nat, confirm: Option<bool>) returns (r: ClearOutcome)
      requires Valid()
      modifies this`store, this`task, this`restarts
      ensures Valid()
      ensures var deleted := |Owned(old(store), requester)|;
        if total == 0 then r == NothingToClear && store == old(store)
        else if confirm != Some(true) then r == Aborted && store == old(store)
        else (store == DeleteByAuthor(old(store), requester)
              && (r == Cleared(deleted, total) || r == AuthorKeyError(deleted, total)))
      ensures var restart := (r.Cleared? || r.AuthorKeyError?) && current.Some?
                             && AuthorId(current.value) == Author(IntVal(requester));
        && restarts == old(restarts) + (if restart then 1 else 0)
        && task == (if restart then Searching else old(task))
      ensures r.AuthorKeyError? <==>
        (r != NothingToClear && r != Aborted && current.Some? && AuthorId(current.value) == MissingAuthorKey)
      ensures old(ArmedStored()) ==> ArmedStored()
      ensures old(ArmedEarliest()) ==> ArmedEarliest()
    {
      if total == 0 {
        return NothingToClear;
      }
      if confirm != Some(true) {
        return Aborted;
      }
      DeleteByAuthorEffect(store, requester);
      var deletedCount := |store| - |DeleteByAuthor(store, requester)|;
      store := DeleteByAuthor(store, requester);
      if current.Some? {
        var author := AuthorId(current.value);
        if author == MissingAuthorKey {
          return AuthorKeyError(deletedCount, total);
        }
        if author == Author(IntVal(requester)) {
          Restart();
        }
      }
      r := Cleared(deletedCount, total);
    }
  }

  /** The kwargs the `reminder` command passes besides `created`. */
  function ReminderKwargs(author: int, channel: int, text: string, messageId: int): (k: Kwargs)
    ensures "created" !in k && AuthorId(Temporary(0, 0, ReminderEvent, k)) == Author(IntVal(author))
  {
    map["author" := IntVal(author), "channel" := IntVal(channel),
        "message" := StrVal(text), "message_id" := IntVal(messageId)]
  }
}
