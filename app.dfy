/**
 * The running app: one object holding the source's single `state` (settings,
 * profile registry, timer, tasks, history), the ticker handle as a flag, the
 * task selected in the list and the log of notifications sent to an embedding
 * page. Each handler updates the fields step by step the way the source does,
 * and is proved to end in the state the matching specification function gives.
 * A user session is also modelled as a list of handler calls, and every session
 * is proved to keep the state valid and the history append-only.
 */
module App {
  import opened Wrappers
  import opened Text
  import opened Domain
  import opened AppModel
  import TimerMachine
  import ProfileRegistry
  import TaskLedger
  import Persistence

  /** One user action or timer event, with the clock readings and random draws it consumes. */
  datatype Op =
    | StartPause(now: int, nowAgain: int)
    | Tick(now: int, finishNow: int, finishLater: int, entryId: string)
    | Reset
    | Skip(now: int, later: int, entryId: string)
    | SaveForm(form: ProfileRegistry.ProfileForm)
    | CopyProfile(clock: nat)
    | DeleteActive
    | SelectFromList(index: nat)
    | AddFromInput(input: string, idNow: nat, createdNow: nat, rand: nat)
    | ActOnTask(action: TaskLedger.TaskAction, id: string)

  /**
   * The state after one action. A profile is chosen from the list by its
   * position, since the list only offers ids of the registry; a position past
   * the end names the last profile.
   */
  function Step(s: AppState, op: Op): AppState
    requires ValidState(s)
  {
    match op
    case StartPause(now, nowAgain) => TimerMachine.ToggleStartPause(s, now, nowAgain)
    case Tick(now, finishNow, finishLater, entryId) => TimerMachine.OnTick(s, now, finishNow, finishLater, entryId)
    case Reset => TimerMachine.ResetCurrentSegment(s)
    case Skip(now, later, entryId) => TimerMachine.FinishSegment(s, false, now, later, entryId)
    case SaveForm(form) => ProfileRegistry.SaveProfileFromForm(s, form).1
    case CopyProfile(clock) => ProfileRegistry.NewProfile(s, clock)
    case DeleteActive => ProfileRegistry.DeleteProfile(s)
    case SelectFromList(index) => ProfileRegistry.SelectProfile(s, ListedId(s.profiles, index))
    case AddFromInput(input, idNow, createdNow, rand) => TaskLedger.AddTask(s, input, idNow, createdNow, rand)
    case ActOnTask(action, id) => TaskLedger.OnTaskAction(s, action, id)
  }

  /** The id shown at a position of the profile list (the last one for a position past the end). */
  function ListedId(profiles: seq<Profile>, index: nat): (id: string)
    requires |profiles| > 0
    ensures HasProfile(profiles, id)
  {
    var i := if index < |profiles| then index else |profiles| - 1;
    assert profiles[i].id == profiles[i].id;
    profiles[i].id
  }

  /** Every action keeps the state valid, never drops or rewrites a history entry, and logs at most one. */
  lemma StepKeepsValid(s: AppState, op: Op)
    requires ValidState(s)
    ensures var r := Step(s, op);
            ValidState(r) && |s.history| <= |r.history| <= |s.history| + 1 &&
            r.history[..|s.history|] == s.history
  {
    if op.StartPause? || op.Tick? || op.Reset? || op.Skip? {
      TimerStepKeepsValid(s, op);
    } else if op.SaveForm? || op.CopyProfile? || op.DeleteActive? || op.SelectFromList? {
      ProfileStepKeepsValid(s, op);
    } else {
      TaskStepKeepsValid(s, op);
    }
  }

  /** The timer actions keep the state valid and log at most one entry. */
  lemma TimerStepKeepsValid(s: AppState, op: Op)
    requires ValidState(s) && (op.StartPause? || op.Tick? || op.Reset? || op.Skip?)
    ensures var r := Step(s, op);
            ValidState(r) && |s.history| <= |r.history| <= |s.history| + 1 &&
            r.history[..|s.history|] == s.history
  {
    match op
    case StartPause(now, nowAgain) =>
      TimerMachine.ToggleKeepsValid(s, now, nowAgain);
      TimerMachine.ToggleFlipsRunning(s, now, nowAgain);
    case Tick(now, finishNow, finishLater, entryId) =>
      TimerMachine.TickKeepsValid(s, now, finishNow, finishLater, entryId);
      TickLogsAtMostOne(s, now, finishNow, finishLater, entryId);
    case Reset =>
      TimerMachine.ResetKeepsValid(s);
      TimerMachine.ResetRestartsSegment(s);
    case Skip(now, later, entryId) =>
      TimerMachine.FinishKeepsValid(s, false, now, later, entryId);
      TimerMachine.FinishLogsOneEntry(s, false, now, later, entryId);
  }

  /** The profile actions keep the state valid and leave the history as it is. */
  lemma ProfileStepKeepsValid(s: AppState, op: Op)
    requires ValidState(s) && (op.SaveForm? || op.CopyProfile? || op.DeleteActive? || op.SelectFromList?)
    ensures var r := Step(s, op); ValidState(r) && r.history == s.history
  {
    match op
    case SaveForm(form) => ProfileRegistry.SaveKeepsValid(s, form);
    case CopyProfile(clock) => ProfileRegistry.NewProfileKeepsValid(s, clock);
    case DeleteActive => ProfileRegistry.DeleteKeepsValid(s);
    case SelectFromList(index) => ProfileRegistry.SelectActivates(s, ListedId(s.profiles, index));
  }

  /** The task actions keep the state valid and leave the history as it is. */
  lemma TaskStepKeepsValid(s: AppState, op: Op)
    requires ValidState(s) && (op.AddFromInput? || op.ActOnTask?)
    ensures var r := Step(s, op); ValidState(r) && r.history == s.history
  {
    match op
    case AddFromInput(input, idNow, createdNow, rand) => TaskLedger.AddTaskKeepsValid(s, input, idNow, createdNow, rand);
    case ActOnTask(action, id) => TaskLedger.TaskActionKeepsValid(s, action, id);
  }

  lemma TickLogsAtMostOne(s: AppState, now: int, finishNow: int, finishLater: int, entryId: string)
    requires |s.profiles| > 0
    ensures var r := TimerMachine.OnTick(s, now, finishNow, finishLater, entryId);
            |s.history| <= |r.history| <= |s.history| + 1 && r.history[..|s.history|] == s.history
  {
    if s.timer.isRunning {
      var elapsedSec := (now - s.timer.lastTickEpochMs) / 1000;
      var advanced := s.(timer := s.timer.(lastTickEpochMs := s.timer.lastTickEpochMs + elapsedSec * 1000,
                                            remainingSec := s.timer.remainingSec - elapsedSec));
      TimerMachine.FinishLogsOneEntry(advanced, true, finishNow, finishLater, entryId);
    }
  }

  /**
   * `finishSegment` finds the attached task twice, once to count the pomodoro
   * and once to mark it done; both finds land on the same task, and together
   * they are the specified credit.
   */
  lemma CreditInTwoSteps(tasks: seq<Task>, id: string, i: nat, autoCheck: bool)
    requires id != "" && TaskIndex(tasks, id) == Some(i)
    ensures var bumped := tasks[i := tasks[i].(completedPomodoros := tasks[i].completedPomodoros + 1)];
            TaskIndex(bumped, id) == Some(i) &&
            (if autoCheck then bumped[i := bumped[i].(done := true)] else bumped) ==
              TimerMachine.CreditTask(tasks, Some(id), autoCheck)
  {
    var bumped := tasks[i := tasks[i].(completedPomodoros := tasks[i].completedPomodoros + 1)];
    TaskIndexAfterUpdate(tasks, i, bumped[i], id);
  }

  /** The state after a whole session of actions, in order. */
  function Run(s: AppState, ops: seq<Op>): (r: AppState)
    requires ValidState(s)
    ensures ValidState(r)
    decreases |ops|
  {
    if ops == [] then s
    else
      StepKeepsValid(s, ops[0]);
      Run(Step(s, ops[0]), ops[1..])
  }

  /** Over any session the history only grows at its end, by at most one entry per action. */
  lemma {:induction false} RunKeepsHistory(s: AppState, ops: seq<Op>)
    requires ValidState(s)
    ensures var r := Run(s, ops);
            |s.history| <= |r.history| <= |s.history| + |ops| && r.history[..|s.history|] == s.history
    decreases |ops|
  {
    if ops != [] {
      var m := Step(s, ops[0]);
      StepKeepsValid(s, ops[0]);
      RunKeepsHistory(m, ops[1..]);
      var r := Run(m, ops[1..]);
      assert r.history[..|s.history|] == r.history[..|m.history|][..|s.history|];
    }
  }

  /** The app object: the fields of the source's `state` plus the ticker handle, the selection and the event log. */
  class PomodoroApp {
    var settings: Settings
    var profiles: seq<Profile>
    var activeProfileId: string
    var timer: TimerState
    var tasks: seq<Task>
    var history: seq<HistoryEntry>
    var ticking: bool
    var selectedTaskId: Option<string>
    var events: seq<EmbedEvent>

    /** The fields as one value. */
    function State(): AppState
      reads this
    {
      AppState(settings, profiles, activeProfileId, timer, tasks, history, ticking, selectedTaskId, events)
    }

    ghost predicate Valid()
      reads this
    {
      ValidState(State())
    }

    /** Module start-up and `init`: load the stored document, repair the timer, install the ticker when it runs. */
    constructor (stored: Option<Raw<Persistence.RawState>>, now: nat)
      ensures State() == Persistence.InitialState(stored, now)
      ensures Valid()
    {
      var d := Persistence.LoadState(stored, now);
      settings := d.settings;
      profiles := d.profiles;
      activeProfileId := d.activeProfileId;
      tasks := d.tasks;
      history := d.history;
      timer := Persistence.SyncTimer(d.timer, ActiveProfile(d.profiles, d.activeProfileId), d.history);
      ticking := false;
      selectedTaskId := None;
      events := [];
      new;
      if timer.isRunning {
        StartTicker();
      }
      Persistence.InitialStateIsValid(stored, now);
    }

    /** `startTicker`: installs the ticker unless one is already installed. */
    method StartTicker()
      modifies this
      ensures State() == old(State()).(ticking := true)
    {
      if ticking {
        return;
      }
      ticking := true;
    }

    /** `stopTicker`: removes the ticker if one is installed. */
    method StopTicker()
      modifies this
      ensures State() == old(State()).(ticking := false)
    {
      if !ticking {
        return;
      }
      ticking := false;
    }

    /** `toggleStartPause`, reading the clock twice as the source does. */
    method ToggleStartPause(now: int, nowAgain: int)
      requires Valid()
      modifies this
      ensures State() == TimerMachine.ToggleStartPause(old(State()), now, nowAgain)
      ensures Valid()
    {
      timer := timer.(isRunning := !timer.isRunning);
      if timer.isRunning {
        timer := timer.(lastTickEpochMs := now);
        if timer.startedAt == 0 {
          timer := timer.(startedAt := nowAgain);
        }
        StartTicker();
      } else {
        StopTicker();
      }
      TimerMachine.ToggleKeepsValid(old(State()), now, nowAgain);
    }

    /** `onTick` at clock reading `now`; a finish it triggers reads `finishNow`, `finishLater` and `entryId`. */
    method OnTick(now: int, finishNow: int, finishLater: int, entryId: string)
      requires Valid()
      modifies this
      ensures State() == TimerMachine.OnTick(old(State()), now, finishNow, finishLater, entryId)
      ensures Valid()
    {
      TimerMachine.TickKeepsValid(State(), now, finishNow, finishLater, entryId);
      if !timer.isRunning {
        return;
      }
      var elapsedSec := (now - timer.lastTickEpochMs) / 1000;
      if elapsedSec <= 0 {
        return;
      }
      timer := timer.(lastTickEpochMs := timer.lastTickEpochMs + elapsedSec * 1000);
      timer := timer.(remainingSec := timer.remainingSec - elapsedSec);
      if timer.remainingSec <= 0 {
        FinishSegment(true, finishNow, finishLater, entryId);
        return;
      }
    }

    /** `resetCurrentSegment`. */
    method ResetCurrentSegment()
      requires |profiles| > 0
      modifies this
      ensures State() == TimerMachine.ResetCurrentSegment(old(State()))
      ensures old(Valid()) ==> Valid()
    {
      if Valid() {
        TimerMachine.ResetKeepsValid(State());
      }
      var profile := ActiveProfile(profiles, activeProfileId);
      var sec := PhaseDurationSec(timer.phase, profile);
      timer := timer.(remainingSec := sec);
      timer := timer.(segmentTotalSec := sec);
      timer := timer.(isRunning := false);
      timer := timer.(startedAt := 0);
      StopTicker();
    }

    /**
     * `finishSegment(completed)`; `now` is stamped on the history entry,
     * `later` becomes the tick reference and `entryId` is the entry's id.
     */
    method FinishSegment(completed: bool, now: int, later: int, entryId: string)
      requires RegistryOk(State())
      modifies this
      ensures State() == TimerMachine.FinishSegment(old(State()), completed, now, later, entryId)
      ensures Valid()
    {
      ghost var s := State();
      LogSegment(completed, now, entryId);
      CreditSession(completed);
      StartNextSegment(s, completed, later);
      TimerMachine.FinishKeepsValid(s, completed, now, later, entryId);
    }

    /**
     * The last part of `finishSegment`, run on `s` once logged and credited:
     * start the next phase's segment, run or stop the ticker per its
     * auto-start setting, and post the two notifications.
     */
    method StartNextSegment(ghost s: AppState, completed: bool, later: int)
      requires |s.profiles| > 0 && profiles == s.profiles && activeProfileId == s.activeProfileId && settings == s.settings
      requires timer == s.timer.(completedFocusInCycle :=
                 if completed && s.timer.phase == Focus then s.timer.completedFocusInCycle + 1 else s.timer.completedFocusInCycle)
      modifies this
      ensures var next := TimerMachine.NextSegment(s, completed, later);
              State() == old(State()).(timer := next, ticking := next.isRunning,
                events := old(events) + [if completed then SessionComplete(s.timer.phase) else PhaseSkip(s.timer.phase),
                                         PhaseChange(next.phase)])
    {
      var currentPhase := timer.phase;
      var profile := ActiveProfile(profiles, activeProfileId);
      var next := NextPhase(currentPhase, timer.completedFocusInCycle, profile.cyclesBeforeLongBreak);
      var nextSec := PhaseDurationSec(next, profile);
      var count := if next == LongBreak then 0 else timer.completedFocusInCycle;
      var shouldRun := if next == Focus then settings.autoStartFocus else settings.autoStartBreak;
      timer := timer.(phase := next, remainingSec := nextSec, segmentTotalSec := nextSec, startedAt := 0,
                      lastTickEpochMs := later, isRunning := shouldRun, completedFocusInCycle := count);
      assert timer == TimerMachine.NextSegment(s, completed, later);
      FollowAutoStart(shouldRun);
      var ended := if completed then SessionComplete(currentPhase) else PhaseSkip(currentPhase);
      events := events + [ended, PhaseChange(next)];
    }

    /** Stop the ticker when the new segment waits, install it when it runs and none is installed. */
    method FollowAutoStart(shouldRun: bool)
      modifies this
      ensures State() == old(State()).(ticking := shouldRun)
    {
      if !shouldRun {
        StopTicker();
      }
      if shouldRun && !ticking {
        StartTicker();
      }
    }

    /** The first part of `finishSegment`: log the segment just ended. */
    method LogSegment(completed: bool, now: int, entryId: string)
      requires |profiles| > 0
      modifies this
      ensures State() == old(State()).(history := old(history) + [TimerMachine.FinishEntry(old(State()), completed, now, entryId)])
    {
      var profile := ActiveProfile(profiles, activeProfileId);
      var plannedSec := TimerMachine.PlannedSec(timer, profile);
      var actualSec := TimerMachine.ElapsedSec(plannedSec, timer.remainingSec);
      history := history + [HistoryEntry(entryId, TaskRef(timer.sessionTaskId), timer.phase, plannedSec,
                                         if completed then plannedSec else actualSec, completed,
                                         if timer.startedAt != 0 then timer.startedAt else now - actualSec * 1000, now)];
    }

    /**
     * The second part of `finishSegment`: on a completed focus segment, one
     * more pomodoro on the attached task and the task marked done when
     * auto-check is on, and one more focus in the cycle (the source bumps the
     * count between the two task writes; they touch different fields).
     */
    method CreditSession(completed: bool)
      modifies this
      ensures State() == old(State()).(tasks := TimerMachine.FinishTasks(old(State()), completed),
                                       timer := old(timer).(completedFocusInCycle :=
                                         if completed && old(timer).phase == Focus
                                         then old(timer).completedFocusInCycle + 1
                                         else old(timer).completedFocusInCycle))
    {
      if completed && timer.phase == Focus {
        CreditAttachedTask();
        timer := timer.(completedFocusInCycle := timer.completedFocusInCycle + 1);
      }
    }

    /** The two task writes of a completed focus segment, each looking the attached task up again. */
    method CreditAttachedTask()
      modifies this
      ensures State() == old(State()).(tasks := TimerMachine.CreditTask(old(tasks), old(timer).sessionTaskId,
                                                                        old(settings).autoCheckTaskOnFocusEnd))
    {
      ghost var before := tasks;
      if TaskRef(timer.sessionTaskId).Some? {
        var found := TaskIndex(tasks, timer.sessionTaskId.value);
        if found.Some? {
          var i := found.value;
          tasks := tasks[i := tasks[i].(completedPomodoros := tasks[i].completedPomodoros + 1)];
          CreditInTwoSteps(before, timer.sessionTaskId.value, i, settings.autoCheckTaskOnFocusEnd);
        }
      }
      if settings.autoCheckTaskOnFocusEnd && TaskRef(timer.sessionTaskId).Some? {
        var found := TaskIndex(tasks, timer.sessionTaskId.value);
        if found.Some? {
          var i := found.value;
          tasks := tasks[i := tasks[i].(done := true)];
        }
      }
    }

    /** `saveProfileFromForm`: the outcome is what the source reports (its toast and field error). */
    method SaveProfileFromForm(form: ProfileRegistry.ProfileForm) returns (outcome: ProfileRegistry.SaveOutcome)
      requires Valid()
      modifies this
      ensures (outcome, State()) == ProfileRegistry.SaveProfileFromForm(old(State()), form)
      ensures Valid()
    {
      ProfileRegistry.SaveKeepsValid(State(), form);
      var profile := ProfileRegistry.FormProfile(activeProfileId, form);
      var invalidKey := OverCapField(profile);
      if invalidKey.Some? {
        return ProfileRegistry.RejectedOverCap(invalidKey.value);
      }
      if !IsValidProfile(Obj(profile)) {
        return ProfileRegistry.RejectedInvalid;
      }
      profiles := ProfileRegistry.ReplaceById(profiles, profile.id.value, ToProfile(profile));
      ResetCurrentSegment();
      outcome := ProfileRegistry.Saved;
    }

    /** `newProfile`, with `now` the clock reading that names the copy. */
    method NewProfile(now: nat)
      requires Valid()
      modifies this
      ensures State() == ProfileRegistry.NewProfile(old(State()), now)
      ensures Valid()
    {
      ProfileRegistry.NewProfileKeepsValid(State(), now);
      var id := ProfileRegistry.NewProfileId(now);
      var source := ActiveProfile(profiles, activeProfileId);
      var profileIndex := |profiles| + 1;
      var created := source.(id := id, name := "New Profile " + NatToString(profileIndex));
      profiles := profiles + [created];
      activeProfileId := id;
      ResetCurrentSegment();
    }

    /** `deleteProfile`, with the guard that refuses whenever nothing would be left. */
    method DeleteProfile()
      requires Valid()
      modifies this
      ensures State() == ProfileRegistry.DeleteProfile(old(State()))
      ensures Valid()
    {
      ProfileRegistry.DeleteKeepsValid(State());
      if |profiles| <= 1 || ProfileRegistry.WithoutId(profiles, activeProfileId) == [] {
        return;
      }
      profiles := ProfileRegistry.WithoutId(profiles, activeProfileId);
      activeProfileId := profiles[0].id;
      ResetCurrentSegment();
    }

    /** The profile list's change handler: activate the chosen profile and reset the segment. */
    method SelectProfile(id: string)
      requires Valid() && HasProfile(profiles, id)
      modifies this
      ensures State() == ProfileRegistry.SelectProfile(old(State()), id)
      ensures Valid()
    {
      ProfileRegistry.SelectActivates(State(), id);
      activeProfileId := id;
      ResetCurrentSegment();
    }

    /** `addTask`: `input` is the text field; the clock readings and the random draw are parameters. */
    method AddTask(input: string, idNow: nat, createdNow: nat, rand: nat)
      requires Valid()
      modifies this
      ensures State() == TaskLedger.AddTask(old(State()), input, idNow, createdNow, rand)
      ensures Valid()
    {
      TaskLedger.AddTaskKeepsValid(State(), input, idNow, createdNow, rand);
      var title := Trim(input);
      if title == "" {
        return;
      }
      var task := Persistence.SanitizeTask(Obj(Persistence.RawTask(Some(TaskLedger.NewTaskId(idNow, rand)), Some(title),
                                                                   Some(false), Some(createdNow), Some(0))), createdNow);
      tasks := tasks + [task];
      selectedTaskId := Some(task.id);
      timer := timer.(sessionTaskId := Some(task.id));
    }

    /** `onTaskAction` for a click on the control `action` of the row with id `id`. */
    method OnTaskAction(action: TaskLedger.TaskAction, id: string)
      requires Valid()
      modifies this
      ensures State() == TaskLedger.OnTaskAction(old(State()), action, id)
      ensures Valid()
    {
      TaskLedger.TaskActionKeepsValid(State(), action, id);
      var found := TaskIndex(tasks, id);
      if found.None? {
        return;
      }
      var idx := found.value;
      match action
      case Toggle =>
        tasks := tasks[idx := tasks[idx].(done := !tasks[idx].done)];
      case Attach =>
        selectedTaskId := Some(id);
        timer := timer.(sessionTaskId := Some(id));
      case MoveUp =>
        if idx > 0 {
          var tmp := tasks[idx - 1];
          tasks := tasks[idx - 1 := tasks[idx]];
          tasks := tasks[idx := tmp];
        }
      case MoveDown =>
        if idx < |tasks| - 1 {
          var tmp := tasks[idx + 1];
          tasks := tasks[idx + 1 := tasks[idx]];
          tasks := tasks[idx := tmp];
        }
      case Delete =>
        var deletingSelected := timer.sessionTaskId == Some(id);
        tasks := tasks[..idx] + tasks[idx + 1..];
        if deletingSelected {
          timer := timer.(sessionTaskId := None);
        }
        if selectedTaskId == Some(id) {
          selectedTaskId := None;
        }
    }
  }
}
