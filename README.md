# pomodoro-plus core, modelled in Dafny

This project models the logic of the pomodoro-plus browser timer (`app.js`).
The app is one closure around a single mutable `state` object, and the model
has these parts:

- **The timer segment state machine.** Start and pause, the one-second tick
  with whole-second drift carry, resetting a segment, finishing or skipping
  one, and the focus, short-break and long-break cycle rule.
- **The history log** that finishing a segment appends to, and the pomodoro
  credit it gives to the attached task.
- **The profile registry.** Saving the form, creating a profile, deleting
  one, and selecting one, with the 500-minute cap check.
- **The task ledger.** Adding a task, then toggling, attaching, moving up or
  down, and deleting one, while keeping the session's attached task correct.
- **Load-time repair** of stored state: `migrateState`, `sanitizeTask`,
  `isValidHistory` and `syncTimerToProfileIfInvalid`.
- **The history analytics.** The current streak, the longest streak, task
  usage, per-task totals sorted by time, the weekly-goal percentage and the
  reward tier.
- **The string helpers** `formatTime`, `escapeHtml` and `csvEscape`. The
  last quotes a field as section 2 of RFC 4180 describes: wrap it in double
  quotes and double any embedded quote.

Layout:

- The app's `state` is the snapshot `AppModel.AppState`. It carries a
  `ticking` flag that stands for the interval handle, and an event log that
  stands for the embed messages.
- Each operation is a function on snapshots in `TimerMachine`,
  `ProfileRegistry`, `TaskLedger` or `Persistence`, and the lemmas beside it
  state what it guarantees.
- `App.PomodoroApp` is a class whose fields are the parts of `state`. Its
  methods update them step by step, as the handlers do. Each method is
  proved equal to the function of the old state. The handler methods
  (start/pause, tick, finish, save, new, delete, select, add task and task
  action) are also proved to keep `ValidState`; the reset keeps it when it
  held before; the ticker methods and the parts of the finish (logging,
  crediting, starting the next segment, following auto-start) only state
  the new state.
- `ValidState` is: a non-empty registry of sound profiles whose active id
  names one of them, a recognised phase, positive remaining and total
  seconds, and the `ticking` flag equal to the timer's running flag. It
  does not bound the remaining or total seconds by the cap: a stored
  oversize `remainingSec` survives the load-time repair, as in the source.
- The analytics counter loops are methods. Each is proved against a
  specification function of the history.

Modelling choices:

- **Clock and random values are parameters.** `Date.now()` and
  `Math.random()` become parameters. `finishSegment` reads the clock twice
  and `toggleStartPause` reads it twice, so each receives two readings.
- **Day boundaries are UTC.** `startOfDay` is floor division into
  86 400 000 ms buckets.
- **Durations are integer seconds** rather than float minutes. The
  `Math.round` of a non-negative ratio is written as half-up integer
  division.
- **Stored and form numbers** are modelled as `Domain.Num`: a finite
  integer, `NaN`, or an infinity.

## Model

| member | source | states |
|---|---|---|
| Domain.TaskRefIsNormal | app.js:569 | `x \|\| null` on a task id gives a normal form: never the empty id, absent exactly when the id is absent or empty, and applying it again changes nothing |
| Domain.ToProfile | app.js:1376-1386 | a raw profile accepted by `isValidProfile` becomes a sound profile with the same id, name, durations and cycle count |
| Domain.IsValidProfile | app.js:1376-1386 | `isValidProfile`: an object with string id and name and finite minutes between 1 and 500 for the three durations, and a finite cycle count of at least 1 |
| Domain.OverCapField | app.js:1388-1393 | reports the first of focus, short break, long break whose minutes exceed the cap, and nothing exactly when none does |
| Domain.OverCapIsInvalid | app.js:1376-1393 | a profile with an over-cap field never passes `isValidProfile` |
| Domain.PhaseDurationSec | app.js:499-504 | the segment length never exceeds 500 minutes; focus and short break read their own minutes, every other phase reads the long-break minutes |
| Domain.PhaseDurationOfValidProfile | app.js:499-504 | for a sound profile the length is exactly the phase's minutes times 60, between 60 s and the cap |
| Domain.NextPhase | app.js:616-624 | after focus comes a long break exactly when the count is positive and a multiple of the cycle length, otherwise a short break; after any break comes focus |
| Domain.ActiveProfile | app.js:381-383 | `getActiveProfile` returns a registry member: the one with the active id when there is one, else the first profile |
| Domain.ActiveProfileIsFirstMatch | app.js:381-383 | the profile returned is the first one carrying the active id |
| AppModel.TaskIndex | app.js:850 | `findIndex` on the task list: the first position with that id, or none when no task has it |
| AppModel.TaskIndexAfterUpdate | app.js:853-854 | changing a task without changing its id leaves every lookup by id unchanged |
| Text.NatToString | app.js:790-796 | a non-empty string of decimal digits, one digit below 10 and at most two below 100 |
| Text.NatToStringRoundTrip | app.js:790-796 | reading the digits back gives the number |
| Text.FormatTime | app.js:790-796 | the clock text, with no contract of its own; FormatTimeReadsBack states it |
| Text.FormatTimeReadsBack | app.js:790-796 | the clock is `minutes:seconds`; the part before the colon reads back as the whole minutes of the clamped count, the two digits after it as the remaining seconds (or `00`), and below 100 minutes the text is exactly five characters |
| Text.TrimRemovesOnlyEndSpace | app.js:799 | the trimmed title is the slice of the input between a leading and a trailing run of white space, and starts and ends on a non-space |
| Text.TrimIsIdempotent | app.js:799 | trimming a trimmed title changes nothing |
| Text.EscapeHtmlIsCharwise | app.js:1461-1467 | the four chained replacements (`&` first, then `<`, `>`, `"`) act character by character |
| Text.EscapeHtml | app.js:1461-1467 | the four chained `replaceAll` passes, with no contract of its own; EscapeHtmlIsCharwise, EscapeHtmlRoundTrip and EscapeHtmlHasNoMarkup state it |
| Text.EscapeHtmlRoundTrip | app.js:1461-1467 | unescaping the entities restores the input, so no text is lost or merged |
| Text.EscapeHtmlHasNoMarkup | app.js:1461-1467 | the escaped text contains no `<`, `>` or `"` |
| Text.CsvEscape | app.js:1146-1149 | the field is always wrapped in double quotes |
| Text.CsvEscapeRoundTrip | app.js:1146-1149 | stripping the quotes and un-doubling embedded quotes restores the text |
| Persistence.OrElseIsNonEmptyAndStable | app.js:1437-1438 | `x \|\| fallback` with a non-empty fallback never gives an empty string, keeps a present non-empty value, and falling back a second time changes nothing |
| Persistence.SanitizeTask | app.js:1435-1443 | every repaired task has a non-empty id and title; a present non-empty id or title, a present non-zero creation time and a present count are kept, `done` is true exactly when stored as true; a missing or empty id becomes `t_` and the clock reading, a missing title "Untitled", a missing or zero creation time the clock reading, a missing count 0; a non-object becomes an open, untitled task with a clock-based id |
| Persistence.SanitizeKeepsCompleteTask | app.js:1435-1443 | a task that is already complete passes through unchanged |
| Persistence.SanitizeIsIdempotent | app.js:1435-1443 | repairing a repaired task changes nothing |
| Persistence.ToEntry | app.js:1445-1449 | an entry accepted by `isValidHistory` is kept as stored: id, task reference, phase, planned and actual seconds, completion flag and start time copied, the end time the finite number stored |
| Persistence.IsValidHistory | app.js:1445-1449 | `isValidHistory`: an object with one of the three phase names and a finite end time |
| Persistence.FilterValidHistory | app.js:198 | only entries with a recognised phase survive, never more than were stored, and none is dropped when all are valid |
| Persistence.FilterValidHistoryAppend | app.js:198 | filtering a concatenation is the concatenation of the filtered parts, so survivors keep their stored order |
| Persistence.FilterValidHistorySingle | app.js:198 | one stored entry survives, unchanged, exactly when `isValidHistory` accepts it |
| Persistence.StoredHistoryComesBack | app.js:198 | a saved log whose phases are recognised loads back exactly as it was written |
| Persistence.FilterValidProfiles | app.js:192-194 | only sound profiles survive, and the result is empty exactly when no stored profile is valid |
| Persistence.FilterValidProfilesAppend | app.js:192-194 | filtering a concatenation is the concatenation of the filtered parts, so survivors keep their stored order |
| Persistence.FilterValidProfilesSingle | app.js:192-194 | one stored profile survives, as the profile it spells, exactly when `isValidProfile` accepts it |
| Persistence.StoredProfilesComeBack | app.js:192-194 | a saved registry of sound profiles loads back exactly as it was written |
| Persistence.StoredTasksComeBack | app.js:197 | a stored list of complete tasks is repaired back to itself, task by task and in order |
| Persistence.FindProfile | app.js:200-202 | a profile is found exactly when the registry has that id, and it carries that id |
| Persistence.MigrateState | app.js:188-204 | the snapshot migration, with no contract of its own; MigrateStateRepairs states it |
| Persistence.MigrateStateRepairs | app.js:188-204 | a non-object gives the defaults; the classic profile is used when none are stored; migration fails exactly when profiles are stored and none is valid; otherwise the document is sound and keeps a stored active id that names a surviving profile |
| Persistence.LoadState | app.js:177-186 | whatever is stored, and whether or not migration throws, the loaded document is sound |
| Persistence.SyncTimerRepairs | app.js:385-405 | after the repair the phase is recognised, the remaining and total seconds are positive, and there is no long break with a zero count unless a completed focus entry exists; the count, task, tick reference and start time are kept |
| Persistence.SyncTimerKeepsSoundRecord | app.js:385-405 | a timer record that is already sound is kept as it is |
| Persistence.SyncTimer | app.js:385-405 | the timer repair, with no contract of its own; SyncTimerRepairs and SyncTimerKeepsSoundRecord state it |
| Persistence.InitialState | app.js:161-175 | loading followed by the timer repair, with no contract of its own; InitialStateIsValid and FreshStartIsClassicFocus state it |
| Persistence.InitialStateIsValid | app.js:385-405 | the state the app starts from satisfies the invariant |
| Persistence.FreshStartIsClassicFocus | app.js:177-186 | with nothing stored the app starts on a 25-minute paused focus segment of the classic profile, with no tasks and no history |
| TimerMachine.ResetRestartsSegment | app.js:547-558 | a reset sets remaining equal to total equal to the phase's length, pauses, clears the start time, and keeps the phase, count, task, history and registry |
| TimerMachine.ResetCurrentSegment | app.js:547-558 | the snapshot reset, with no contract of its own; ResetRestartsSegment, ResetIsIdempotent and ResetKeepsValid state its meaning |
| TimerMachine.ResetIsIdempotent | app.js:547-558 | resetting twice is resetting once |
| TimerMachine.ResetKeepsValid | app.js:547-558 | a reset keeps the invariant |
| TimerMachine.ToggleFlipsRunning | app.js:506-518 | start/pause flips the running flag and the ticker with it; starting resets the tick reference to now and stamps the start time only when it was 0; times, phase and count are untouched |
| TimerMachine.ToggleStartPause | app.js:506-518 | the snapshot start/pause, with no contract of its own; ToggleFlipsRunning, PauseThenResume and ToggleKeepsValid state its meaning |
| TimerMachine.PauseThenResume | app.js:506-518 | pausing and resuming leaves the segment as it was except for a fresh tick reference |
| TimerMachine.ToggleKeepsValid | app.js:506-518 | start/pause keeps the invariant |
| TimerMachine.ElapsedSec | app.js:564-565 | the actual seconds lie between 0 and the planned seconds; they equal planned minus remaining when that is in range, and the whole plan when no time is left |
| TimerMachine.PlannedSec | app.js:563 | the planned length: the segment total, or the phase length when that is 0; FinishLogsOneEntry states it of the logged entry |
| TimerMachine.FinishEntry | app.js:566-576 | the logged entry, with no contract of its own; FinishLogsOneEntry states each of its fields |
| TimerMachine.FinishTasks | app.js:578-589 | the credited task list, with no contract of its own; FinishCreditsOnlyAttachedTask states which task changes and how |
| TimerMachine.NextSegment | app.js:590-601 | the next segment's timer, with no contract of its own; FinishFollowsCycleRule and FinishStartsNextSegment state it |
| TimerMachine.CreditTask | app.js:578-589 | crediting keeps the number of tasks |
| TimerMachine.FinishSegment | app.js:560-614 | finishing changes only the history, the tasks, the timer, the ticker and the event log |
| TimerMachine.FinishLogsOneEntry | app.js:560-576 | exactly one entry is appended and earlier ones are kept; it records the phase, the completion flag, the task reference and the end time; planned is the segment total, or the phase length when that is 0; actual equals planned when completed and lies in 0..planned otherwise; the start time is the recorded one or is derived from the end time |
| TimerMachine.FinishFollowsCycleRule | app.js:586-597 | a completed focus adds one to the count and a skip never does; the next phase follows `nextPhase` on that count; entering a long break resets the count to 0 |
| TimerMachine.FinishCreditsOnlyAttachedTask | app.js:578-589 | the task list keeps its ids and titles; a task changes only when it is the first one carrying the session's task id and a focus segment completed; that task gains one pomodoro and is checked off when auto-check is on |
| TimerMachine.FinishStartsNextSegment | app.js:591-614 | the new segment has remaining equal to total equal to its phase's length, no start time, the later clock reading as tick reference, and runs as the auto-start setting for its phase says; the completion or skip event and the phase-change event are posted |
| TimerMachine.FinishKeepsValid | app.js:560-614 | finishing keeps the invariant |
| TimerMachine.Rounds | app.js:560-614 | repeated focus-and-break rounds keep the registry and settings |
| TimerMachine.RoundsCountFocus | app.js:586-597 | starting from zero, k completed rounds below the cycle length end on focus with count k |
| TimerMachine.NthFocusEntersLongBreak | app.js:591-597 | from count 0, after k full focus-and-break rounds of a (k + 1)-cycle profile, completing the next focus leads to a long break with the count reset to 0 |
| TimerMachine.OnTick | app.js:531-545 | a tick keeps the registry, active id and settings |
| TimerMachine.TickWithoutWholeSecondIsNoOp | app.js:531-535 | a tick while paused, or less than one whole second after the reference, changes nothing |
| TimerMachine.TickCarriesRemainder | app.js:534-537 | with time left, a tick takes exactly the elapsed whole seconds off, moves the reference by 1000 ms per second, leaves under one second of carry, and changes nothing else |
| TimerMachine.TickFinishesWhenTimeRunsOut | app.js:539-542 | a tick finishes the segment exactly when the elapsed seconds use up the time left, and logs it as completed with actual equal to planned |
| TimerMachine.SevenPointNineSecondGap | app.js:534-537 | a tick 7.9 s after the reference takes off 7 s and carries 900 ms; a tick at 8.0 s takes off the 8th second |
| TimerMachine.TicksCountWholeSeconds | app.js:531-545 | over any run of ticks in time order that does not finish the segment, exactly the whole seconds between the first reference and the last tick are taken off, with no drift |
| TimerMachine.TickKeepsValid | app.js:531-545 | a tick keeps the invariant |
| ProfileRegistry.FormProfileIsSettled | app.js:427-444 | the record built from the form passes validation exactly when the form's numbers are in range (id and name never block it); its name is non-blank and already trimmed, so saving the shown values again builds the same record |
| ProfileRegistry.FormNameIsTrimmed | app.js:427-434 | the name stored from the form, the trimmed input or "Custom Profile", is non-blank and its own trim |
| ProfileRegistry.SaveCheck | app.js:435-444 | the cap is checked before validity: saving succeeds exactly when the profile is valid, and is refused for the cap exactly when a field is over it, naming that field |
| ProfileRegistry.SaveProfileFromForm | app.js:425-450 | the snapshot save, with no contract of its own; SaveRejectionChangesNothing, SaveStoresForm and SaveKeepsValid state its outcomes |
| ProfileRegistry.ReplaceById | app.js:445 | every profile with the id is replaced and the rest keep their positions |
| ProfileRegistry.SaveRejectionChangesNothing | app.js:425-450 | a refused save changes nothing; the over-cap field reported is the first in the order focus, short break, long break |
| ProfileRegistry.SaveStoresForm | app.js:445-447 | an accepted save stores the form under the active id, keeps the other profiles, and restarts the segment paused with the new length |
| ProfileRegistry.SaveKeepsValid | app.js:425-450 | saving keeps the invariant |
| ProfileRegistry.NewProfile | app.js:452-467 | the registry grows by one and the existing profiles are kept |
| ProfileRegistry.NewProfileAppendsActiveCopy | app.js:452-467 | the new profile copies the active one's durations under a fresh clock-based id and a numbered name, becomes active, and the segment restarts paused; tasks and history are kept |
| ProfileRegistry.NewProfileKeepsValid | app.js:452-467 | creating a profile keeps the invariant |
| ProfileRegistry.WithoutId | app.js:474 | the filter keeps exactly the profiles with another id, never more than there were |
| ProfileRegistry.WithoutIdAppend | app.js:474 | filtering a concatenation is the concatenation of the filtered parts, so the kept profiles stay in order |
| ProfileRegistry.WithoutOnlyAt | app.js:474 | when only one position carries the id, the filter removes exactly that position and keeps the rest in order |
| ProfileRegistry.DeleteProfileAsWritten | app.js:469-480 | `deleteProfile` as written, with no contract of its own: the `length <= 1` guard, the filter, and a `Failure` holding the emptied registry where `profiles[0].id` throws; AsWrittenDeleteEmptiesRegistry and DeleteGuardsAgreeOnDistinctIds state what it does |
| ProfileRegistry.AsWrittenDeleteEmptiesRegistry | app.js:469-480 | the guard as written lets a sound two-profile registry whose profiles share the active id be emptied; see Findings |
| ProfileRegistry.DeleteProfile | app.js:469-480 | with the corrected guard the registry is never left empty |
| ProfileRegistry.DeleteGuardsAgreeOnDistinctIds | app.js:469-480 | with distinct ids the corrected guard refuses exactly when the original one does, and both deletions agree |
| ProfileRegistry.DeleteRemovesActive | app.js:469-480 | with at most one profile nothing changes; otherwise, with distinct ids, the registry becomes the old one with exactly the active profile's position removed and the others in order, the first remaining profile becomes active, and the segment restarts paused |
| ProfileRegistry.DeleteKeepsValid | app.js:469-480 | deleting keeps the invariant |
| ProfileRegistry.SelectActivates | app.js:254-259 | choosing a listed profile makes it active and restarts the segment with its length; the registry, tasks and history are kept |
| ProfileRegistry.SelectProfile | app.js:254-259 | the snapshot selection, with no contract of its own; SelectActivates states it |
| TaskLedger.AddBlankTaskIsIgnored | app.js:799-800 | a title that trims to nothing changes nothing |
| TaskLedger.AddTask | app.js:798-814 | the snapshot add, with no contract of its own; AddBlankTaskIsIgnored, AddTaskAppendsAndAttaches and AddTaskKeepsValid state it |
| TaskLedger.AddTaskAppendsAndAttaches | app.js:798-814 | one open task with the trimmed title and no pomodoros is appended, and both the selection and the session point at it; a fresh id is found at the new last position |
| TaskLedger.AddTaskKeepsValid | app.js:798-814 | adding a task keeps the invariant |
| TaskLedger.Swap | app.js:859-866 | exchanging two positions keeps every other task and the multiset of tasks |
| TaskLedger.UnknownIdIsIgnored | app.js:850-851 | an action on an id the list does not hold changes nothing |
| TaskLedger.OnTaskAction | app.js:846-876 | the snapshot task action, with no contract of its own; the task-action lemmas below state each action |
| TaskLedger.MoveIsPermutation | app.js:859-866 | moving only reorders the list, and does nothing at the first row (up) or the last row (down) |
| TaskLedger.MoveUpSwapsWithPrevious | app.js:859-862 | away from the first row, up exchanges the task with the one above it |
| TaskLedger.MoveUpThenDownRestores | app.js:859-866 | up then down by the same id restores the list |
| TaskLedger.ToggleTwiceRestores | app.js:853-854 | toggling flips `done` on that task alone, and toggling twice changes nothing |
| TaskLedger.AttachPointsSessionAtTask | app.js:855-858 | attaching points the selection and the session at the task and changes neither the list nor the log |
| TaskLedger.DeleteRemovesExactlyOne | app.js:867-872 | deleting removes exactly that task in order, and clears the session and the selection exactly when they pointed at it |
| TaskLedger.DeleteThenFinishLogsNoTask | app.js:867-872 | after deleting the attached task, the next finished segment is logged with no task and credits nothing |
| TaskLedger.TaskActionKeepsValid | app.js:846-876 | every task action keeps the invariant |
| Analytics.StartOfDay | app.js:1455-1459 | the start of the day bucket holding the instant, aligned to 86 400 000 ms |
| Analytics.ComputeStreakDays | app.js:969-982 | the streak is at most 366; every day counted has focus time; the day after the streak (when below 366) has none; a today without focus time gives 0 |
| Analytics.FocusOnly | app.js:985 | the focus entries, exactly |
| Analytics.MinEndedAt | app.js:988 | the earliest end time of the entries |
| Analytics.RunEndingAtIsRun | app.js:991-999 | the run ending on a day is made of active days and is preceded by an inactive day or the start |
| Analytics.HasMinutesOfFocusOnly | app.js:992 | a day has focus minutes exactly when it holds a focus entry |
| Analytics.ExtendLongest | app.js:991-999 | one pass of the loop extends the current run or ends it, and keeps the longest run so far |
| Analytics.LongestOfAllDays | app.js:991-1001 | once past today, the longest run so far is the longest run of active days |
| Analytics.ComputeLongestStreakDays | app.js:984-1002 | 0 without focus history; otherwise the longest run of consecutive active days from the first focus day through today |
| Analytics.FirstSeenIdsAreTheCountedIds | app.js:1011-1042 | the ids in first-seen order are distinct and are exactly the ids with at least one counted session; every other id has no usage |
| Analytics.GroupFocusByTask | app.js:1026-1032 | the accumulated map holds exactly the first-seen ids, each with its total seconds and its session count |
| Analytics.ComputeTaskUsageMap | app.js:1011-1021 | the usage map has exactly the ids of focus entries with a task, each with its seconds and sessions |
| Analytics.TitleFor | app.js:1035-1039 | the title of the first task with the id, or "Deleted Task" when no task has it |
| Analytics.InsertDesc | app.js:1041 | inserting into a descending list keeps it descending and adds exactly that row |
| Analytics.SortDesc | app.js:1041 | the rows sorted non-increasing by time, as a permutation of the input |
| Analytics.SortedRowsAreTheCountedRows | app.js:1023-1042 | the sorted rows are exactly one per counted id, each with its totals and title |
| Analytics.ComputeTaskTotals | app.js:1023-1042 | one row per distinct task id among in-window focus entries, with its seconds, sessions and title, no id twice, sorted non-increasing by time |
| Analytics.WeeklyGoalPct | app.js:889-893 | the percentage never exceeds 100, reaches it exactly from 597 minutes on, and is otherwise the half-up rounding of the week's share of 600 minutes |
| Analytics.WeeklyGoalPctIsMonotone | app.js:889-893 | more focus time never lowers the percentage |
| Analytics.WeekFocusAfterLogging | app.js:889-893 | the week's focus seconds grow by a new entry's seconds exactly when it is a focus entry within the last seven days; with non-negative seconds, logging never lowers the weekly percentage or the tier |
| Analytics.RewardTier | app.js:1004-1009 | Legend from 600 minutes, Deep Work from 300, Flow from 120, otherwise Starter |
| Analytics.RewardTierIsMonotone | app.js:1004-1009 | more focus time never lowers the tier, and meeting the weekly goal means Legend at 100 % |
| App.ListedId | app.js:254-255 | the value of the profile drop-down always names a registered profile |
| App.StepKeepsValid | app.js:215-329 | every user action keeps the invariant, and the history only grows, by at most one entry, keeping its prefix |
| App.Step | app.js:215-329 | one user action dispatched to its handler, with no contract of its own; StepKeepsValid states it |
| App.TickLogsAtMostOne | app.js:531-545 | a tick appends at most one history entry and keeps the earlier ones |
| App.CreditInTwoSteps | app.js:578-589 | the handler's two in-place updates (one more pomodoro, then the optional check-off) give the credited task list |
| App.Run | app.js:215-329 | any sequence of user actions from a sound state leaves a sound state |
| App.RunKeepsHistory | app.js:560-614 | the history is append-only over a session: it keeps its prefix and grows by at most one entry per action |
| App.PomodoroApp.constructor | app.js:161-175 | the app starts from the loaded, repaired state, with the ticker installed when the timer runs |
| App.PomodoroApp.StartTicker | app.js:520-523 | installs the ticker, and does nothing more when it is already installed |
| App.PomodoroApp.StopTicker | app.js:525-529 | removes the ticker, and does nothing more when it is already removed |
| App.PomodoroApp.ToggleStartPause | app.js:506-518 | the in-place start/pause equals the snapshot operation and keeps the invariant |
| App.PomodoroApp.OnTick | app.js:531-545 | the in-place tick equals the snapshot tick and keeps the invariant |
| App.PomodoroApp.ResetCurrentSegment | app.js:547-558 | the in-place reset equals the snapshot reset and keeps the invariant |
| App.PomodoroApp.FinishSegment | app.js:560-614 | the in-place finish, with its push, pomodoro credit, count update, timer update and posts, equals the snapshot finish and keeps the invariant |
| App.PomodoroApp.LogSegment | app.js:563-576 | pushes the history entry for the segment and changes nothing else |
| App.PomodoroApp.CreditSession | app.js:578-589 | credits the attached task and moves the cycle count, and changes nothing else |
| App.PomodoroApp.CreditAttachedTask | app.js:578-588 | its two lookups and writes on the attached task amount to one more pomodoro and, with auto-check on, done, as the snapshot credit says, and change nothing else |
| App.PomodoroApp.StartNextSegment | app.js:590-606 | on a logged and credited state, sets the timer to the next segment of the snapshot finish, makes the ticker follow its running flag and posts the two notifications, and changes nothing else |
| App.PomodoroApp.FollowAutoStart | app.js:602-603 | leaves the ticker installed exactly when the new segment runs, and changes nothing else |
| App.PomodoroApp.SaveProfileFromForm | app.js:425-450 | the in-place save returns the same outcome and state as the snapshot save, and keeps the invariant |
| App.PomodoroApp.NewProfile | app.js:452-467 | the in-place push equals the snapshot operation and keeps the invariant |
| App.PomodoroApp.DeleteProfile | app.js:469-480 | the in-place delete (with the corrected guard) equals the snapshot operation and keeps the invariant |
| App.PomodoroApp.SelectProfile | app.js:254-259 | the in-place selection equals the snapshot operation and keeps the invariant |
| App.PomodoroApp.AddTask | app.js:798-814 | the in-place push and attach equal the snapshot operation and keep the invariant |
| App.PomodoroApp.OnTaskAction | app.js:846-876 | the in-place toggle, attach, swap and splice equal the snapshot operation and keep the invariant |

## Left out

- Rendering and layout are not modelled. This covers the `render*`
  functions, the element table, `fitTimerTextToRing`, `toast`, the dialogs,
  themes, `drawWeeklyBars`, `drawHeatmap` and `renderTaskBreakdown`: they
  are view code with canvas and float geometry.
- `validateTimeCapField`, `showTimeError` and `clearTimeErrors` only drive
  the form's error display and are not modelled.
- Audio and notifications are not modelled, because they are foreign calls
  with side effects only. This covers `playAlarm`, the focus-music
  functions, `onSegmentAlert` and the Notification API.
- Storage and JSON are not modelled: `localStorage`, `JSON.parse` and
  `JSON.stringify` in `saveState`, `writeCloudBackup`,
  `restoreFromCloudBackup` and `onExternalStorageUpdate` are foreign. The
  model starts from the parsed input, a record of optional fields, and
  `saveState` has no effect on the model.
- `setInterval` and `clearInterval` are represented only by the `ticking`
  flag.
- The embed and picture-in-picture surfaces are browser plumbing and are
  not modelled: `applyEmbedMode`, `togglePiPWindow`, `initPiPWindow`,
  `closePiPWindow`, `syncPiP`, and the mini-timer drag and clamp.
  `emitEmbedEvent` is kept only as an appended event log.
- `server.js` is not part of this model. It is HTTP and file I/O around
  Node's path functions.
- Exports are not modelled. `buildExportRows`, `exportAnalyticsCsv` and
  `exportAnalyticsXlsx` format ISO dates and build download blobs; only
  `csvEscape` is modelled.
- In `renderAnalytics`, today's minutes, the session count and the
  completion ratio are display figures only. The model covers the weekly
  goal, the tier, the streaks and the task totals.
- Local time and daylight-saving days are not modelled: days are UTC
  buckets of 86 400 000 ms.
- Float minutes are replaced by integer seconds. The weekly-goal and tier
  thresholds are stated on seconds, and rounding is half-up on
  non-negative values.
- Non-integer minutes are not modelled. `isValidProfile` accepts any
  finite minutes from 1 to 500, such as 25.5, which give segments of a
  fractional number of seconds; the model's minutes are integers.
- Non-integer `cyclesBeforeLongBreak` values are not modelled. The source
  admits any finite number of at least 1; the model takes integers, so JS
  `%` on fractions is not covered.
- `setSetting` and the settings check-boxes are not modelled as user actions, because the settings only parametrise the timer: `App.Run` keeps them fixed.
- Stored fields of the wrong type are not modelled exactly. Ids and titles
  that are not strings become absent, and stored numbers are integers,
  `NaN` or infinities. A stored `done` that is truthy but not `true` (such
  as 1 or "yes") is read as absent, so the model repairs it to false where
  `!!task.done` gives true; a numeric string in `createdAt` or
  `completedPomodoros` is likewise read as absent rather than converted by
  `Number`.
- Analytics.SortDesc: the sort is proved non-increasing and a permutation,
  but the stability of ties that `Array.prototype.sort` guarantees is not
  stated.
- App.PomodoroApp.ResetCurrentSegment: it requires only a non-empty
  registry, as the handler does, so it keeps the invariant only when it
  held before.
- The history entry id is passed in as `entryId` rather than built from a
  clock reading and a random draw, because its only use is as an opaque
  key.
- Persistence.SanitizeTask: the clock reading behind a missing
  `createdAt` is the same parameter that builds the fallback id. The
  source reads `Date.now()` twice for these.

## Findings

| source | as written | input that shows it | evidently intended | confidence | as-written member | corrected member |
|---|---|---|---|---|---|---|
| app.js:469-480 | `deleteProfile` refuses only when the registry has at most one profile, then drops every profile carrying the active id and activates `profiles[0]` | two profiles that share the id "a", with "a" active: the filter leaves nothing, so `profiles[0].id` throws and the registry is left empty | refuse whenever the deletion would leave no profile | not executed | ProfileRegistry.AsWrittenDeleteEmptiesRegistry | ProfileRegistry.DeleteKeepsValid |
