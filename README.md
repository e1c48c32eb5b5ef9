# University Discord bot: reminders, verification codes and context helpers

This project models the core of a Discord bot written for a university server. The model
covers five parts:

- **The reminder scheduler.** This is the `Reminder` cog with its `Timer` value. Users create
  reminders, which are stored as rows of a durable collection. A single dispatch task waits on
  the earliest row, sleeps until it is due, deletes it and dispatches
  `reminder_timer_complete`. Timers due within 60 seconds skip the store. The `list`, `delete`
  and `clear` commands read and delete rows, and decide when the dispatch task is cancelled
  and started afresh.
- **The one-time-password cache.** This is the `Verification` cog's dictionary from user id to
  `{code, expires}`. It has lazy eviction on lookup, idempotent issuing and a sweep pass.
- **The verification views.** These are the university-email check, the modal that sets the
  email, the modal that checks a submitted code, and the buttons that send a code and open
  that modal.
- **The context helpers.** These are `humanize_list`, the `disambiguate` guards, the index
  values of the disambiguation menu, the two `entry_to_code` layouts, `tick` and the
  confirmation `prompt`.
- **The presence activities.** These are `get_types` and `gen_activities`.

Times are whole seconds. The clock, the random choices, the email service and the emoji
theme are all parameters.

The dispatch task is modelled as a small state machine, `Scheduler.Task`. Each method of
`Scheduler.Reminder` is one atomic step. The task is split where it waits on `_have_data`
or sleeps:

- `StartIteration`: look up the earliest timer and arm it, or block on `_have_data`.
- `Wake`: resume after `_have_data` is set.
- `Tick`: the end of the sleep and the call to `call_timer`.
- `FinishShortTimer`: a short timer's detached task finishing its sleep.

`reminder clear` is split at its confirmation prompt: `CountReminders` takes the count,
and `ReminderClear` deletes over the store as it is once the prompt has been answered. The
other commands are single steps, although each awaits a database call; see "## Left out".

"Cancel the task and spawn a new `dispatch_timers`" is `Restart`. It bumps a counter and
puts the task back at its first lookup; `_current_timer` is left as it was, as in the source.

Two invariants are proved of every operation that keeps them:

- `ArmedStored`: the armed timer is still a stored row.
- `ArmedEarliest`: the armed timer expires no later than any stored row.

Those two facts are what makes "the timer that fires is the earliest stored one" hold. The
as-written `reminder delete` breaks `ArmedStored`, as the first finding shows.

Two timers without an id compare equal, because `None == None`
(cogs/reminder/reminder.py:121-125).

## Model

| member | source | states |
|---|---|---|
| `Timers.NewTimer` | cogs/reminder/reminder.py:93-101 | the id is the record's `_id` (`None` when the key is missing); event, times and every kwarg are copied |
| `Timers.Temporary` | cogs/reminder/reminder.py:103-119 | a temporary timer never has an id, because its pseudo-record stores the id under `id`, not `_id`; the other fields are as given |
| `Timers.IdlessTimersEqual` | cogs/reminder/reminder.py:121-125 | any two id-less timers are equal, whatever their other fields |
| `Timers.TemporaryTimersEqual` | cogs/reminder/reminder.py:103-125 | any two temporary timers are equal |
| `Timers.EqualTimersHashAlike` | cogs/reminder/reminder.py:121-128 | equal timers have the same hash |
| `Timers.AuthorId` | cogs/reminder/reminder.py:134-138 | `None` exactly for empty kwargs; `kwargs['author']` when present; a `KeyError` for non-empty kwargs without `author` |
| `Timers.EventNameInjective` | cogs/reminder/reminder.py:190 | different events are dispatched under different `<event>_timer_complete` names |
| `TimerStore.TimerOfRow` | cogs/reminder/reminder.py:94-101 | the timer built from a stored row carries that row's id and fields |
| `TimerStore.DeleteByIdAndAuthorEffect` | cogs/reminder/reminder.py:382-385 | the delete removes row `_id` exactly when the requester authored it; no other row changes; at most one row goes |
| `TimerStore.DeleteByIdAndAuthorIdempotent` | cogs/reminder/reminder.py:382-385 | repeating the same delete changes nothing |
| `TimerStore.DeleteByAuthorEffect` | cogs/reminder/reminder.py:417-419 | exactly the requester's rows go; the others stay unchanged; the number removed is the number the requester owned; none of theirs is left |
| `TimerStore.EarliestAmong` | cogs/reminder/reminder.py:168-172 | the limit-1 cursor sorted by `expires` returns nothing exactly for no candidates; otherwise a candidate no later than any other |
| `TimerStore.EarliestWithinIsEarliest` | cogs/reminder/reminder.py:166-172 | the earliest row inside the window is the earliest row of the whole store |
| `TimerStore.FindSorted` | cogs/reminder/reminder.py:346-351 | at most `limit` distinct matching ids, ascending by `expires`, none later than a match left out; all matches when fewer than `limit` |
| `TimerStore.CountFound` | cogs/reminder/reminder.py:404-408 | the counting loop yields the number of found rows |
| `TimerStore.DeleteById` | cogs/reminder/reminder.py:188 | deleting by `_id` removes that row and nothing else; no id (`None`) removes nothing |
| `Scheduler.NoIdEqualsBuiltin` | cogs/reminder/reminder.py:390 | no timer id, `None` included, equals the builtin `id` the delete guard compares with |
| `Scheduler.SleepSeconds` | cogs/reminder/reminder.py:202-204 | the sleep is `expires - now` when that is non-negative, else zero, and always ends at or after `expires` |
| `Scheduler.ReminderKwargs` | cogs/reminder/reminder.py:301-309 | the `reminder` command's kwargs carry the author, so the timer's `author_id` is that author |
| `Scheduler.Reminder.constructor` | cogs/reminder/reminder.py:147-151 | a fresh task at its first lookup, no current timer, `_have_data` clear, both invariants hold |
| `Scheduler.Reminder.Restart` | cogs/reminder/reminder.py:272-273 | cancel-and-respawn puts the task at its first lookup and counts one restart |
| `Scheduler.Reminder.GetActiveTimer` | cogs/reminder/reminder.py:166-172 | nothing exactly when no row expires inside the window, else the timer of an earliest such row; the store is only read |
| `Scheduler.Reminder.WaitForActiveTimers` | cogs/reminder/reminder.py:174-181 | a found timer sets `_have_data` and is returned; none clears `_have_data` and `_current_timer` |
| `Scheduler.Reminder.StartIteration` | cogs/reminder/reminder.py:195-204 | with a row inside 40 days, the earliest one is armed as the current timer with its computed sleep; otherwise the task waits with `_have_data` clear and no current timer; both invariants hold |
| `Scheduler.Reminder.Wake` | cogs/reminder/reminder.py:182-202 | as written: after waking, a lookup that finds a row arms it; one that finds nothing ends the task (`Crashed`) with no current timer |
| `Scheduler.Reminder.WakeRetrying` | cogs/reminder/reminder.py:180-185 | corrected: the task never ends; a lookup that finds nothing waits again with `_have_data` clear |
| `Scheduler.Reminder.CallTimer` | cogs/reminder/reminder.py:187-191 | the row with the timer's `_id` is deleted and `<event>_timer_complete` is dispatched with the timer |
| `Scheduler.Reminder.Tick` | cogs/reminder/reminder.py:202-205 | fires exactly once the sleep is over and never before `expires`; a fired timer was stored and the earliest row when the invariants held; firing deletes its row and dispatches it; before that nothing changes |
| `Scheduler.Reminder.FinishShortTimer` | cogs/reminder/reminder.py:212-215 | a short timer dispatches exactly once its sleep has ended (at the creation clock plus its delay), without touching the store or the dispatch task; before that nothing changes |
| `Scheduler.Reminder.CreateTimer` | cogs/reminder/reminder.py:241-275 | `created` is popped and used as now; the returned timer is id-less. Within 60 s only a short task is added, due at the clock reading plus the delay. Otherwise exactly one row `{event, when, now, kwargs}` is inserted, `_have_data` is set iff the delay is at most 40 days, and a restart happens iff a current timer exists and `when` is strictly earlier than its expiry. Both invariants hold |
| `Scheduler.Reminder.Remind` | cogs/reminder/reminder.py:298-309 | a text of 1500 characters or more is refused before any change; otherwise the effect is `CreateTimer`'s with the reminder kwargs at the message's creation time |
| `Scheduler.Reminder.ReminderList` | cogs/reminder/reminder.py:346-361 | at most 10 of the requester's `reminder` rows, earliest first, all of them when fewer than 10; the footer distinguishes none, exactly 10 and the count |
| `Scheduler.Reminder.ReminderDelete` | cogs/reminder/reminder.py:382-393 | as written: only the requester's row with that id is deleted; `Deleted` exactly when one was; the task, restart count and current timer never change |
| `Scheduler.Reminder.ReminderDeleteRestarting` | cogs/reminder/reminder.py:382-393 | corrected: the same store effect, and a restart iff the deleted row is the current timer; both invariants hold |
| `Scheduler.Reminder.CountReminders` | cogs/reminder/reminder.py:402-408 | the first query yields the number of rows the requester authored, and changes nothing |
| `Scheduler.Reminder.ReminderClear` | cogs/reminder/reminder.py:410-426 | with no rows counted, nothing to clear; without an explicit confirm, nothing changes. Otherwise all the requester's rows as they stand after the prompt are deleted, and the report is that number against the earlier count. A restart happens iff the current timer's `author_id` is the requester, even if that timer was not deleted. A current timer whose kwargs lack `author` raises after the deletion |
| `SchedulerScenarios.DeletedArmedReminderStillFires` | cogs/reminder/reminder.py:389-393 | an armed reminder deleted by its author still fires at its time, although its row is gone |
| `SchedulerScenarios.DeletedArmedReminderDoesNotFire` | cogs/reminder/reminder.py:389-393 | with the corrected delete, the loop restarts, waits, and dispatches nothing |
| `SchedulerScenarios.WakeAfterDeletionCrashes` | cogs/reminder/reminder.py:180-185 | while the loop waits, a reminder set during a `reminder clear` prompt and removed by the confirmed clear ends the task on wake, and a later reminder cannot revive it |
| `SchedulerScenarios.WakeAfterDeletionKeepsWaiting` | cogs/reminder/reminder.py:180-185 | the same run with the corrected wake: the task waits again and arms the next reminder |
| `SchedulerScenarios.ClearDuringPromptDeletesMoreThanCounted` | cogs/reminder/reminder.py:404-428 | a reminder set while the clear prompt waits is deleted too, and the report reads 2 of 1 |
| `OtpCache.Lookup` | cogs/verification/verify.py:59-66 | the entry is returned iff present and not yet expired; an entry at or past its expiry (`<=`) is removed; nothing else changes |
| `OtpCache.Generate` | cogs/verification/verify.py:44-57 | a returned entry is the stored one and live at `now`; a user without an entry always gets a code of 9 characters from the alphabet |
| `OtpCache.Sweep` | cogs/verification/verify.py:70-72 | one pass keeps exactly the entries whose expiry is not strictly before `now` (`<`), unchanged |
| `OtpCache.GenerateFresh` | cogs/verification/verify.py:47-57 | a user without an entry is issued the drawn code, expiring 5 minutes after `now`; only that key is written |
| `OtpCache.GenerateLive` | cogs/verification/verify.py:45-46 | a user with a live entry gets that entry back and the cache is unchanged |
| `OtpCache.GenerateExpired` | cogs/verification/verify.py:45-46 | a present but expired entry yields `None` and is removed; no new code is issued |
| `OtpCache.NoSecondLiveCode` | cogs/verification/verify.py:44-65 | asking again while the returned code is live gives the same code, whatever is drawn |
| `OtpCache.ExpiredThenFresh` | cogs/verification/verify.py:44-64 | after the expired entry is dropped, the next request issues a fresh code |
| `OtpCache.GetAfterGenerate` | cogs/verification/verify.py:50-65 | `get_otp` returns a newly issued code until five minutes have passed, and nothing afterwards |
| `OtpCache.SweepAgreesWithLookup` | cogs/verification/verify.py:59-72 | sweeping never changes what `get_otp` answers at the same time |
| `OtpCache.BoundaryAsymmetry` | cogs/verification/verify.py:62-71 | at the expiry instant `get_otp` removes the entry while the sweep keeps it |
| `OtpCache.SweepIdempotent` | cogs/verification/verify.py:70-72 | a second sweep at the same time or earlier removes nothing more |
| `OtpCache.Verification.constructor` | cogs/verification/verify.py:36 | the cache starts empty |
| `OtpCache.Verification.GetOtp` | cogs/verification/verify.py:59-66 | the in-place lookup has exactly `Lookup`'s result and new cache |
| `OtpCache.Verification.GenerateOtp` | cogs/verification/verify.py:44-57 | the in-place issue has exactly `Generate`'s result and new cache |
| `OtpCache.Verification.SweepOnce` | cogs/verification/verify.py:70-72 | the loop over a copy of the dictionary leaves exactly `Sweep`'s cache |
| `Views.EmailMatchesIff` | cogs/verification/views.py:17-18 | an email is accepted iff it is one or more digits, then `@`, then exactly the suffix |
| `Views.VerificationStore.FindEmail` | cogs/verification/views.py:42-43 | finds a row iff some verified row has that email |
| `Views.VerificationStore.Insert` | cogs/verification/views.py:85-87 | the row is appended |
| `Views.CheckOtp` | cogs/verification/views.py:64-76 | wrong length first, then no live code (expired), then mismatch; the code is accepted only for an exact match of a live code |
| `Views.AcceptedMeansIssued` | cogs/verification/views.py:69-76 | an accepted code is the one the cache holds for that user, and it is live |
| `Views.AcceptedExactlyIssuedCode` | cogs/verification/views.py:69-76 | within five minutes of issue exactly the issued code is accepted; afterwards none is |
| `Views.GenerateAfterEmptyLookup` | cogs/verification/views.py:121-132 | after `get_otp` answered nothing, `generate_otp` always issues a code, so reading its `code` cannot fail |
| `Views.MailBody` | cogs/verification/views.py:129-133 | the email text ends with the code |
| `Views.VerifyView.constructor` | cogs/verification/views.py:97-101 | a new view has no email and is running |
| `Views.VerifyView.SubmitEmail` | cogs/verification/views.py:38-48 | an invalid email, or one already used by a verified row, is refused and `email` keeps its value; otherwise `email` becomes the value |
| `Views.VerifyView.SubmitOtp` | cogs/verification/views.py:63-89 | a code of the wrong length never consults the cache. Otherwise the lookup's eviction happens and the ladder decides. Only acceptance inserts `{_id, email}` and stops the view |
| `Views.VerifyView.SendRegisterCode` | cogs/verification/views.py:114-140 | no email means nothing happens. A live code is reported and nothing is generated or sent. Otherwise exactly one code is issued from the draw and mailed, and the outcome follows the email service's answer |
| `Views.VerifyView.Register` | cogs/verification/views.py:143-149 | the OTP modal opens iff an email is set |
| `Context.HumanizeList` | utils/context.py:261-266 | none for an empty list (the `items[-1]` error); a single item is returned unchanged |
| `Context.HumanizeTwo` | utils/context.py:266 | two items give `"a, and b"` |
| `Context.HumanizeShape` | utils/context.py:266 | for two or more items: it starts with the first item, ends with `", and "` and the last item, and has the length of the items plus the separators |
| `Context.Disambiguate` | utils/context.py:187-194 | 0 matches gives no results; 1 is returned as it is; more than 25 is too many; otherwise the menu is needed |
| `Context.BuildOptions` | utils/context.py:103-109 | one option per match, in order; each shows the rendered match and has value `str(i)` |
| `Context.Selected` | utils/context.py:125-127 | a selection is found iff its value is a decimal index into the data |
| `Context.PickedOptionSelectsMatch` | utils/context.py:103-127 | picking the i-th option selects the i-th match |
| `Context.MaxNameLength` | utils/context.py:147 | the width is at least every name's length, and equals one of them |
| `Context.EntryLineAligned` | utils/context.py:150 | each line starts with its name, and `": "` starts in the width column |
| `Context.IndentedEntryLineAligned` | utils/context.py:158 | each line starts with a zero-width space; the name ends in the same column and `": "` follows it |
| `Context.FencedLines` | utils/context.py:148-151 | the shared loop yields a fence, one line per entry in order, and a fence |
| `Context.EntryToCode` | utils/context.py:146-152 | none for no entries (`max` of nothing); otherwise `len + 2` lines: a fence, one aligned line per entry, a fence |
| `Context.IndentedEntryToCode` | utils/context.py:154-160 | the same, with the right-justified lines |
| `Context.CodeMessageFenced` | utils/context.py:152 | the sent message begins and ends with the fence |
| `Context.TickKindOf` | utils/context.py:269 | `True` gives success, `False` gives error, `None` gives info |
| `Context.TickKindInjective` | utils/context.py:269 | the three values map to three different theme keys |
| `Context.Tick` | utils/context.py:268-276 | the emoji alone without a label; otherwise the emoji, `": "` and the label |
| `Context.FirstAuthorPressMeaning` | utils/context.py:64-91 | the answer is the first press by the author (`True` confirm, `False` cancel), and `None` exactly when the author never pressed |
| `Context.ConfirmationView.constructor` | utils/context.py:38-44 | the answer starts as `None` |
| `Context.ConfirmationView.InteractionCheck` | utils/context.py:46-53 | only the dialog's author may press |
| `Context.ConfirmationView.Confirm` | utils/context.py:64-77 | confirm sets the answer to `True` and stops |
| `Context.ConfirmationView.Cancel` | utils/context.py:79-91 | cancel sets the answer to `False` and stops |
| `Context.PromptAuthor` | utils/context.py:247 | the `author_id` argument, unless it is missing or 0; then the context's author |
| `Context.Prompt` | utils/context.py:247-259 | the prompt returns the first press by the answering author; `None` when no such press came before the timeout |
| `Activities.GetTypes` | utils/activities.py:26-40 | custom exactly for tags other than `watch`, `play`, `comp` and `listen` |
| `Activities.GetTypesTag` | utils/activities.py:29-36 | each non-custom type comes from exactly one tag |
| `Activities.ThousandsValue` | utils/activities.py:12 | the comma-grouped user count reads back as the count once the commas are removed |
| `Activities.DefaultOptions` | utils/activities.py:10-17 | there are five default entries |
| `Activities.EffectiveOptions` | utils/activities.py:10-17 | given non-empty options are used as they are; missing or empty options give the defaults |
| `Activities.GenActivities` | utils/activities.py:8-23 | one activity per entry, in order, typed by `get_types(tag)` and named by the text; the choice is the one at the drawn index, so one of them |

## Left out

- Discord UI and SDK calls are not modelled. This covers the views' rendering, buttons,
  timeouts and message edits and deletions, `SnoozeModal`, `SnoozeButton`, `ReminderView`,
  `on_reminder_timer_complete`, the embeds of `reminder list`, and role assignment. They are
  foreign calls.
- asyncio is not modelled: real sleeps, task cancellation, the `bot.is_closed()` loop
  condition, and the self-restart on `OSError`, `ConnectionClosed` and `PyMongoError`
  (cogs/reminder/reminder.py:206-210). That is concurrency outside the model; the uncaught
  `AttributeError` of the second finding is modelled as `Crashed`.
- Each modelled step reads the clock once (`now`, `clock`). In the source, each
  `utcnow()` call reads the clock afresh, even two calls within one method.
- Datetimes are whole seconds.
- Time parsing and formatting are not modelled: `FriendlyTime`, `human_timedelta`,
  `format_relative` and `plural`. `utils/time.py` and `utils/formats.py` are not part of this
  model.
- The document store is an abstract map.
  - New `_id`s come from a counter, standing for the database's id assignment.
  - The `status` of `reminder delete` is taken to be truthy exactly when a row was deleted.
  - The `deleted_count` of `reminder clear` is taken to be the number of rows removed.
  - `utils/mongo.py` is not part of this model.
- Scheduler.Reminder.ReminderDelete: row ids are integers the command's `_id: int`
  argument can name. In the source, `create_timer` inserts rows without an `_id`
  (cogs/reminder/reminder.py:256-262), so the database driver gives each row an ObjectId,
  which no int equals. The filter at line 383 then matches no row, and the command as
  written never deletes anything. The model's delete is the one the command evidently
  means to perform. The same holds for `ReminderDeleteRestarting`: its corrected guard
  would compare an ObjectId with the int too.
- Scheduler.Reminder.CreateTimer, `Scheduler.Reminder.Tick` (through `CallTimer`),
  `ReminderDelete` and `ReminderList` are each one atomic step. In the source each awaits one database call:
  the insert at line 262, the delete at line 188, the delete at line 382, the query at
  lines 346-351. Another step could run during that call, for example the dispatch loop
  between the insert and the restart check of `create_timer`. The model does not capture
  those interleavings. `reminder clear` is split at its prompt and keeps the one that
  matters there (`deleted` against `total`, line 428).
- Scheduler.Reminder.StartIteration and `Scheduler.Reminder.Wake` are one atomic step each,
  although each awaits its lookup (`get_active_timer` at cogs/reminder/reminder.py:175 and 185).
  This hides a lost wakeup in the source:
  1. The first lookup's query runs while no row lies within 40 days.
  2. Before it returns, a `create_timer` inserts a row within 40 days and sets `_have_data`
     (lines 262-267).
  3. It does not restart the task, because `_current_timer` is `None` or later than the new
     row (line 270).
  4. The lookup then returns `None`, so lines 180-182 clear `_have_data` and wait.
  5. The new row stays unarmed until another `create_timer` within 40 days sets
     `_have_data` again.

  The model does not capture this interleaving.
- `reminder_set` (cogs/reminder/reminder.py:314-336) is not modelled. It creates the same
  timer as `reminder`, and Discord itself enforces its text length of 1 to 1500.
- `cog_unload` and `cog_command_error` are not modelled; they are task cancellation and
  error messages.
- The `verify` command and its role checks (cogs/verification/verify.py:76-107) are not
  modelled; they are role glue.
- The `clear_cache` loop is not modelled; only one pass of it is. The shown sources never
  start it.
- The random code is the `draw` input, a string of 9 characters from the alphabet.
- `Views.EmailMatchesIff` reads `\d` as the ASCII digits. Python's `\d` also matches other
  Unicode decimal digits.
- `SetEmailModal.on_submit` looks the email up through `self.bot`
  (cogs/verification/views.py:42), which the modal never sets. The model uses the
  verification store that lookup was meant to reach.
- The text-input length limits (10-50 for the email, 1-12 for the code) are not modelled;
  Discord enforces them before a modal is submitted.
- `interaction_check` of `VerifyView` and `DisambiguatorView` is not modelled. Only the
  confirmation dialog's check is modelled, because it decides the prompt's answer.
- The email service is the `delivered` input; `cogs/email/email.py` is not part of this model.
- What `disambiguate` does once the menu is needed is only partly modelled. The wait for a
  selection, and the unset `selected` after a timeout, are left out. The selection itself is
  `Context.Selected`.
- `Context.Prompt` takes the presses that arrive before the timeout as its input.
- `tick` takes the theme's emoji lookup as the `emojiFor` input.
- Context.EntryToCode and `Context.IndentedEntryToCode` take the entries as a list. The
  source accepts any iterable and goes through it twice: once in `max` (utils/context.py:147,
  155), then in the `for` loop. A one-shot iterator, such as a generator, is used up by `max`,
  so the source then sends the two fences alone. That case is not modelled.
- `safe_send`, `send_embed`, `show_help`, `replied_reference` and `replied_message` are not
  modelled: they are message sending, outside the core.
- `gen_activities` reads only the values of the options dictionary, in insertion order, each
  as a `(tag, text)` pair. `random.choice` is the index `pick % n`. `len(bot.users)` is the
  `userCount` input.
- `OtpCache.RequestExpiresMinutes` is declared, with value 15, but no modelled operation reads it.
- `bot.py` and `launcher.py` are not modelled: they are start-up, prefixes and
  presence updates.

## Findings

| source | as written | input that shows it | evidently intended | confidence | as-written member | corrected member |
|---|---|---|---|---|---|---|
| cogs/reminder/reminder.py:390 | `self._current_timer.id == id` compares with the builtin `id`, not the `_id` parameter, so deleting the armed reminder never restarts the dispatch task | user 7 sets a reminder at time 0 for 3600; the loop arms it; user 7 deletes it at 10; at 3600 the loop still dispatches `reminder_timer_complete` for it. This assumes the delete itself removes the row; with driver-assigned ObjectIds it removes nothing, and the corrected guard would compare an ObjectId with an int as well (see "## Left out") | restart when the deleted row is the current timer, so a deleted reminder never fires | not executed | `SchedulerScenarios.DeletedArmedReminderStillFires` (over `Scheduler.Reminder.ReminderDelete`) | `SchedulerScenarios.DeletedArmedReminderDoesNotFire` (over `Scheduler.Reminder.ReminderDeleteRestarting`) |
| cogs/reminder/reminder.py:182-185 | after `_have_data.wait()` the second lookup is assumed to find a row; if the row is deleted in between, it returns `None`. Then `timer.expires` (line 202) raises an `AttributeError` the loop does not catch, and the task ends. `_current_timer` stays `None`, so no later `create_timer` restarts it | user 7 holds one reminder 41 days out, so the loop waits on `_have_data`. They run `reminder clear`, which counts 1 (lines 404-408). While its prompt waits they set a reminder for a day later, which sets `_have_data`. They confirm before the woken task runs its lookup, so the delete at lines 417-419 removes both rows. The lookup finds nothing and the task ends. No stored reminder fires afterwards; reminders due within 60 seconds still fire through `short_timer_optimisation`, which does not use the task. This is a narrow race | go back to waiting when the lookup after waking finds nothing | not executed | `SchedulerScenarios.WakeAfterDeletionCrashes` (over `Scheduler.Reminder.Wake`) | `SchedulerScenarios.WakeAfterDeletionKeepsWaiting` (over `Scheduler.Reminder.WakeRetrying`) |
