/**
 * The segment state machine: start/pause, the drift-carrying tick, segment
 * reset and the segment finish that logs history, credits the attached task
 * and moves to the next phase. Each operation is a function from the state
 * before to the state after; the App module's class performs the same steps
 * in place and is proved equal to these functions.
 */
module TimerMachine {
  import opened Wrappers
  import opened Domain
  import opened AppModel

  /** `resetCurrentSegment`: a fresh, paused segment of the current phase's full length. */
  function ResetCurrentSegment(s: AppState): AppState
    requires |s.profiles| > 0
  {
    var sec := PhaseDurationSec(s.timer.phase, Active(s));
    s.(timer := s.timer.(remainingSec := sec, segmentTotalSec := sec, isRunning := false, startedAt := 0),
       ticking := false)
  }

  lemma ResetRestartsSegment(s: AppState)
    requires |s.profiles| > 0
    ensures var r := ResetCurrentSegment(s);
            r.timer.remainingSec == r.timer.segmentTotalSec == PhaseDurationSec(s.timer.phase, Active(s)) &&
            !r.timer.isRunning && !r.ticking && r.timer.startedAt == 0 &&
            r.timer.phase == s.timer.phase && r.timer.completedFocusInCycle == s.timer.completedFocusInCycle &&
            r.timer.sessionTaskId == s.timer.sessionTaskId && r.timer.lastTickEpochMs == s.timer.lastTickEpochMs &&
            r.history == s.history && r.tasks == s.tasks && r.profiles == s.profiles
  {
  }

  /** Resetting twice is resetting once. */
  lemma ResetIsIdempotent(s: AppState)
    requires |s.profiles| > 0
    ensures ResetCurrentSegment(ResetCurrentSegment(s)) == ResetCurrentSegment(s)
  {
  }

  lemma ResetKeepsValid(s: AppState)
    requires ValidState(s)
    ensures ValidState(ResetCurrentSegment(s))
  {
    PhaseDurationOfValidProfile(s.timer.phase, Active(s));
  }

  /**
   * `toggleStartPause`: flips running; on resume stamps the tick reference and,
   * for a segment never started, its start time. `now` and `nowAgain` are the
   * two clock readings the source takes.
   */
  function ToggleStartPause(s: AppState, now: int, nowAgain: int): AppState
  {
    if !s.timer.isRunning then
      s.(timer := s.timer.(isRunning := true, lastTickEpochMs := now,
                           startedAt := if s.timer.startedAt == 0 then nowAgain else s.timer.startedAt),
         ticking := true)
    else
      s.(timer := s.timer.(isRunning := false), ticking := false)
  }

  lemma ToggleFlipsRunning(s: AppState, now: int, nowAgain: int)
    ensures var r := ToggleStartPause(s, now, nowAgain);
            r.timer.isRunning == !s.timer.isRunning && r.ticking == r.timer.isRunning &&
            (r.timer.isRunning ==> r.timer.lastTickEpochMs == now) &&
            (s.timer.startedAt != 0 ==> r.timer.startedAt == s.timer.startedAt) &&
            (r.timer.isRunning && s.timer.startedAt == 0 ==> r.timer.startedAt == nowAgain) &&
            r.timer.remainingSec == s.timer.remainingSec && r.timer.segmentTotalSec == s.timer.segmentTotalSec &&
            r.timer.phase == s.timer.phase && r.timer.completedFocusInCycle == s.timer.completedFocusInCycle &&
            r.history == s.history && r.tasks == s.tasks && r.profiles == s.profiles
  {
  }

  /** Pausing and resuming keeps the segment: only the tick reference (and a missing start stamp) changes. */
  lemma PauseThenResume(s: AppState, a: int, b: int, now: int, nowAgain: int)
    requires s.timer.isRunning
    ensures ToggleStartPause(ToggleStartPause(s, a, b), now, nowAgain) ==
            s.(timer := s.timer.(lastTickEpochMs := now,
                                 startedAt := if s.timer.startedAt == 0 then nowAgain else s.timer.startedAt),
               ticking := true)
  {
  }

  lemma ToggleKeepsValid(s: AppState, now: int, nowAgain: int)
    requires ValidState(s)
    ensures ValidState(ToggleStartPause(s, now, nowAgain))
  {
  }

  /** `plannedSec`: the segment's recorded length, or the phase duration when that is 0 (falsy). */
  function PlannedSec(t: TimerState, profile: Profile): int
  {
    if t.segmentTotalSec != 0 then t.segmentTotalSec else PhaseDurationSec(t.phase, profile)
  }

  /** `Math.max(0, Math.min(planned, planned - Math.max(0, remaining)))`. */
  function ElapsedSec(plannedSec: int, remainingSec: int): (r: int)
    ensures plannedSec >= 0 ==> 0 <= r <= plannedSec
    ensures 0 <= remainingSec <= plannedSec ==> r == plannedSec - remainingSec
    ensures remainingSec <= 0 && plannedSec >= 0 ==> r == plannedSec
  {
    Max(0, Min(plannedSec, plannedSec - Max(0, remainingSec)))
  }

  /** The completion bookkeeping on the attached task: one more pomodoro, and done when auto-check is on. */
  function CreditTask(tasks: seq<Task>, sessionTaskId: Option<string>, autoCheck: bool): (r: seq<Task>)
    ensures |r| == |tasks|
  {
    if TaskRef(sessionTaskId).None? then tasks
    else match TaskIndex(tasks, sessionTaskId.value)
      case None => tasks
      case Some(i) =>
        tasks[i := tasks[i].(completedPomodoros := tasks[i].completedPomodoros + 1,
                             done := autoCheck || tasks[i].done)]
  }

  /** The history entry `finishSegment` logs; `now` is the clock reading and `entryId` the generated id. */
  function FinishEntry(s: AppState, completed: bool, now: int, entryId: string): HistoryEntry
    requires |s.profiles| > 0
  {
    var t := s.timer;
    var plannedSec := PlannedSec(t, Active(s));
    var actualSec := ElapsedSec(plannedSec, t.remainingSec);
    HistoryEntry(entryId, TaskRef(t.sessionTaskId), t.phase, plannedSec,
                 if completed then plannedSec else actualSec, completed,
                 if t.startedAt != 0 then t.startedAt else now - actualSec * 1000, now)
  }

  /** The task list after a finish: only a completed focus segment credits the attached task. */
  function FinishTasks(s: AppState, completed: bool): seq<Task>
  {
    if completed && s.timer.phase == Focus
    then CreditTask(s.tasks, s.timer.sessionTaskId, s.settings.autoCheckTaskOnFocusEnd)
    else s.tasks
  }

  /** The timer of the segment a finish starts; `later` is the new tick reference. */
  function NextSegment(s: AppState, completed: bool, later: int): TimerState
    requires |s.profiles| > 0
  {
    var t := s.timer;
    var profile := Active(s);
    var count := if completed && t.phase == Focus then t.completedFocusInCycle + 1 else t.completedFocusInCycle;
    var next := NextPhase(t.phase, count, profile.cyclesBeforeLongBreak);
    var nextSec := PhaseDurationSec(next, profile);
    t.(phase := next, remainingSec := nextSec, segmentTotalSec := nextSec, startedAt := 0,
       lastTickEpochMs := later, isRunning := if next == Focus then s.settings.autoStartFocus else s.settings.autoStartBreak,
       completedFocusInCycle := if next == LongBreak then 0 else count)
  }

  /**
   * `finishSegment(completed)`: logs the entry, credits the task, starts the
   * next segment (running per the auto-start setting for its phase) and posts
   * the two notifications. `now` is the clock reading stamped on the entry,
   * `later` the one stored as the next tick reference, `entryId` the
   * generated history id.
   */
  function FinishSegment(s: AppState, completed: bool, now: int, later: int, entryId: string): (r: AppState)
    requires |s.profiles| > 0
    ensures r == s.(history := r.history, tasks := r.tasks, timer := r.timer, ticking := r.ticking, events := r.events)
  {
    var next := NextSegment(s, completed, later);
    s.(history := s.history + [FinishEntry(s, completed, now, entryId)],
       tasks := FinishTasks(s, completed),
       timer := next,
       ticking := next.isRunning,
       events := s.events + [if completed then SessionComplete(s.timer.phase) else PhaseSkip(s.timer.phase),
                             PhaseChange(next.phase)])
  }

  /**
   * The finish appends exactly one entry and leaves the earlier ones alone. The
   * entry's planned length is the segment's (or the phase duration when 0); a
   * completed segment records all of it, a skipped one the time elapsed,
   * between 0 and the planned length.
   */
  lemma FinishLogsOneEntry(s: AppState, completed: bool, now: int, later: int, entryId: string)
    requires |s.profiles| > 0
    ensures var r := FinishSegment(s, completed, now, later, entryId);
            var t := s.timer;
            |r.history| == |s.history| + 1 && r.history[..|s.history|] == s.history &&
            var e := r.history[|s.history|];
            e.id == entryId && e.phase == t.phase && e.completed == completed && e.endedAt == now &&
            e.taskId == TaskRef(t.sessionTaskId) &&
            e.plannedSec == (if t.segmentTotalSec != 0 then t.segmentTotalSec else PhaseDurationSec(t.phase, Active(s))) &&
            (completed ==> e.actualSec == e.plannedSec) &&
            (!completed && e.plannedSec >= 0 ==> 0 <= e.actualSec <= e.plannedSec) &&
            (!completed && 0 <= t.remainingSec <= e.plannedSec ==> e.actualSec == e.plannedSec - t.remainingSec) &&
            (t.startedAt != 0 ==> e.startedAt == t.startedAt) &&
            (t.startedAt == 0 && e.plannedSec >= 0 && (!completed || t.remainingSec <= 0) ==>
               e.startedAt == now - e.actualSec * 1000)
  {
    var r := FinishSegment(s, completed, now, later, entryId);
    assert r.history[..|s.history|] == s.history;
  }

  /**
   * The cycle rule: only a completed focus segment counts; the next phase
   * follows `nextPhase` on the updated count, and entering a long break resets
   * the count to 0.
   */
  lemma FinishFollowsCycleRule(s: AppState, completed: bool, now: int, later: int, entryId: string)
    requires |s.profiles| > 0
    ensures var r := FinishSegment(s, completed, now, later, entryId);
            var c := s.timer.completedFocusInCycle + (if completed && s.timer.phase == Focus then 1 else 0);
            r.timer.phase == NextPhase(s.timer.phase, c, Active(s).cyclesBeforeLongBreak) &&
            r.timer.completedFocusInCycle == (if r.timer.phase == LongBreak then 0 else c) &&
            (s.timer.phase != Focus ==> r.timer.phase == Focus) &&
            (s.timer.phase == Focus ==> (r.timer.phase == LongBreak <==>
               c > 0 && Active(s).cyclesBeforeLongBreak != 0 && c % Active(s).cyclesBeforeLongBreak == 0))
  {
  }

  /**
   * Only a completed focus segment with an attached, existing task touches the
   * task list, and then only that task: one more pomodoro, done when
   * auto-check is on. Ids and titles never change.
   */
  lemma FinishCreditsOnlyAttachedTask(s: AppState, completed: bool, now: int, later: int, entryId: string)
    requires |s.profiles| > 0
    ensures var r := FinishSegment(s, completed, now, later, entryId);
            var sid := s.timer.sessionTaskId;
            |r.tasks| == |s.tasks| &&
            (forall i :: 0 <= i < |s.tasks| ==> r.tasks[i].id == s.tasks[i].id && r.tasks[i].title == s.tasks[i].title) &&
            (forall i :: 0 <= i < |s.tasks| && r.tasks[i] != s.tasks[i] ==>
               completed && s.timer.phase == Focus && TaskRef(sid).Some? && TaskIndex(s.tasks, sid.value) == Some(i)) &&
            (completed && s.timer.phase == Focus && TaskRef(sid).Some? && TaskIndex(s.tasks, sid.value).Some? ==>
               var i := TaskIndex(s.tasks, sid.value).value;
               r.tasks[i].completedPomodoros == s.tasks[i].completedPomodoros + 1 &&
               r.tasks[i].done == (s.settings.autoCheckTaskOnFocusEnd || s.tasks[i].done))
  {
  }

  /**
   * The next segment starts fresh: full length of the next phase, no start
   * stamp, tick reference at the second clock reading, and running exactly
   * when the auto-start flag for the phase entered is on.
   */
  lemma FinishStartsNextSegment(s: AppState, completed: bool, now: int, later: int, entryId: string)
    requires |s.profiles| > 0
    ensures var r := FinishSegment(s, completed, now, later, entryId);
            r.timer.remainingSec == r.timer.segmentTotalSec == PhaseDurationSec(r.timer.phase, Active(s)) &&
            r.timer.startedAt == 0 && r.timer.lastTickEpochMs == later &&
            r.timer.isRunning == (if r.timer.phase == Focus then s.settings.autoStartFocus else s.settings.autoStartBreak) &&
            r.ticking == r.timer.isRunning &&
            r.timer.sessionTaskId == s.timer.sessionTaskId &&
            r.events == s.events + [if completed then SessionComplete(s.timer.phase) else PhaseSkip(s.timer.phase),
                                    PhaseChange(r.timer.phase)]
  {
  }

  lemma FinishKeepsValid(s: AppState, completed: bool, now: int, later: int, entryId: string)
    requires RegistryOk(s)
    ensures ValidState(FinishSegment(s, completed, now, later, entryId))
  {
    var r := FinishSegment(s, completed, now, later, entryId);
    PhaseDurationOfValidProfile(r.timer.phase, Active(s));
  }

  /** One focus segment completed and the break after it finished (either way). */
  function CompleteRound(s: AppState, breakCompleted: bool): AppState
    requires |s.profiles| > 0
  {
    FinishSegment(FinishSegment(s, true, 0, 0, ""), breakCompleted, 0, 0, "")
  }

  function Rounds(s: AppState, k: nat): (r: AppState)
    requires |s.profiles| > 0
    ensures r.profiles == s.profiles && r.activeProfileId == s.activeProfileId && r.settings == s.settings
  {
    if k == 0 then s else CompleteRound(Rounds(s, k - 1), true)
  }

  lemma SmallRemainder(k: int, n: int)
    requires 0 <= k < n
    ensures k % n == k
  {
  }

  /** A focus segment that does not fill the cycle goes to a short break, and the break back to focus. */
  lemma RoundStep(p: AppState)
    requires |p.profiles| > 0 && p.timer.phase == Focus
    requires 0 <= p.timer.completedFocusInCycle && p.timer.completedFocusInCycle + 1 < Active(p).cyclesBeforeLongBreak
    ensures CompleteRound(p, true).timer.phase == Focus
    ensures CompleteRound(p, true).timer.completedFocusInCycle == p.timer.completedFocusInCycle + 1
  {
    var m := FinishSegment(p, true, 0, 0, "");
    FinishFollowsCycleRule(p, true, 0, 0, "");
    SmallRemainder(p.timer.completedFocusInCycle + 1, Active(p).cyclesBeforeLongBreak);
    assert m.timer.phase == ShortBreak;
    FinishFollowsCycleRule(m, true, 0, 0, "");
  }

  /** Before the cycle is full, each round returns to focus with the count one higher. */
  lemma {:induction false} RoundsCountFocus(s: AppState, k: nat)
    requires |s.profiles| > 0 && s.timer.phase == Focus && s.timer.completedFocusInCycle == 0
    requires k < Active(s).cyclesBeforeLongBreak
    ensures Rounds(s, k).timer.phase == Focus && Rounds(s, k).timer.completedFocusInCycle == k
  {
    if k > 0 {
      RoundsCountFocus(s, k - 1);
      var p := Rounds(s, k - 1);
      assert Active(p) == Active(s);
      RoundStep(p);
    }
  }

  /**
   * From a fresh cycle, the n-th completed focus segment (n = k + 1, the
   * profile's cycles before a long break; after k full rounds) enters the long
   * break with the count back at 0; with the default profile, the 4th.
   */
  lemma NthFocusEntersLongBreak(s: AppState, k: nat)
    requires |s.profiles| > 0 && s.timer.phase == Focus && s.timer.completedFocusInCycle == 0
    requires k + 1 == Active(s).cyclesBeforeLongBreak
    ensures var r := FinishSegment(Rounds(s, k), true, 0, 0, "");
            r.timer.phase == LongBreak && r.timer.completedFocusInCycle == 0
  {
    RoundsCountFocus(s, k);
    FullCycleEntersLongBreak(Rounds(s, k));
  }

  /** The focus segment that fills the cycle goes to the long break and resets the count. */
  lemma FullCycleEntersLongBreak(p: AppState)
    requires |p.profiles| > 0 && p.timer.phase == Focus
    requires 0 <= p.timer.completedFocusInCycle && p.timer.completedFocusInCycle + 1 == Active(p).cyclesBeforeLongBreak
    ensures var r := FinishSegment(p, true, 0, 0, "");
            r.timer.phase == LongBreak && r.timer.completedFocusInCycle == 0
  {
    FinishFollowsCycleRule(p, true, 0, 0, "");
    var n := Active(p).cyclesBeforeLongBreak;
    assert n % n == 0;
  }

  /**
   * `onTick`: whole seconds elapsed since the tick reference, rounded down; the
   * reference advances by exactly those seconds, so the sub-second remainder
   * carries to the next tick. A segment that runs out is finished as completed.
   * `finishNow`, `finishLater` and `entryId` are what that finish reads.
   */
  function OnTick(s: AppState, now: int, finishNow: int, finishLater: int, entryId: string): (r: AppState)
    requires |s.profiles| > 0
    ensures r.profiles == s.profiles && r.activeProfileId == s.activeProfileId && r.settings == s.settings
  {
    if !s.timer.isRunning then s
    else
      var elapsedSec := (now - s.timer.lastTickEpochMs) / 1000;
      if elapsedSec <= 0 then s
      else
        var advanced := s.(timer := s.timer.(lastTickEpochMs := s.timer.lastTickEpochMs + elapsedSec * 1000,
                                              remainingSec := s.timer.remainingSec - elapsedSec));
        if advanced.timer.remainingSec <= 0 then FinishSegment(advanced, true, finishNow, finishLater, entryId)
        else advanced
  }

  /** A paused timer, or less than a whole second since the reference, leaves everything as it is. */
  lemma TickWithoutWholeSecondIsNoOp(s: AppState, now: int, finishNow: int, finishLater: int, entryId: string)
    requires |s.profiles| > 0
    requires !s.timer.isRunning || now - s.timer.lastTickEpochMs < 1000
    ensures OnTick(s, now, finishNow, finishLater, entryId) == s
  {
  }

  /**
   * With time left after the elapsed seconds, a tick takes exactly those
   * seconds off the segment, advances the reference by 1000 ms per second, and
   * leaves less than one second of carry; nothing else changes.
   */
  lemma TickCarriesRemainder(s: AppState, now: int, finishNow: int, finishLater: int, entryId: string)
    requires |s.profiles| > 0 && s.timer.isRunning
    requires var e := (now - s.timer.lastTickEpochMs) / 1000; e > 0 && s.timer.remainingSec - e > 0
    ensures var e := (now - s.timer.lastTickEpochMs) / 1000;
            var r := OnTick(s, now, finishNow, finishLater, entryId);
            r == s.(timer := s.timer.(lastTickEpochMs := s.timer.lastTickEpochMs + e * 1000,
                                      remainingSec := s.timer.remainingSec - e)) &&
            0 <= now - r.timer.lastTickEpochMs < 1000
  {
  }

  /** A tick finishes the segment, as completed, exactly when the elapsed seconds use up the time left. */
  lemma TickFinishesWhenTimeRunsOut(s: AppState, now: int, finishNow: int, finishLater: int, entryId: string)
    requires |s.profiles| > 0 && s.timer.isRunning
    requires (now - s.timer.lastTickEpochMs) / 1000 > 0
    ensures var r := OnTick(s, now, finishNow, finishLater, entryId);
            (|r.history| == |s.history| + 1 <==> s.timer.remainingSec - (now - s.timer.lastTickEpochMs) / 1000 <= 0) &&
            (|r.history| == |s.history| + 1 ==> r.history[|s.history|].completed &&
                                                  r.history[|s.history|].actualSec == r.history[|s.history|].plannedSec)
  {
  }

  /** A tick 7.9 s after the reference takes off 7 s and carries 0.9 s; one at 8.0 s takes off the 8th. */
  lemma SevenPointNineSecondGap(s: AppState)
    requires |s.profiles| > 0 && s.timer.isRunning && s.timer.remainingSec > 8
    ensures var t0 := s.timer.lastTickEpochMs;
            var r1 := OnTick(s, t0 + 7900, 0, 0, "");
            var r2 := OnTick(r1, t0 + 8000, 0, 0, "");
            r1.timer.remainingSec == s.timer.remainingSec - 7 && t0 + 7900 - r1.timer.lastTickEpochMs == 900 &&
            r2.timer.remainingSec == s.timer.remainingSec - 8 && r2.timer.lastTickEpochMs == t0 + 8000
  {
  }

  /** The effect of a run of ticks (none of which finishes the segment). */
  function TickAll(s: AppState, times: seq<int>): (r: AppState)
    requires |s.profiles| > 0
    ensures r.profiles == s.profiles
  {
    if times == [] then s
    else
      var last := times[|times| - 1];
      OnTick(TickAll(s, times[..|times| - 1]), last, last, last, "")
  }

  lemma ShiftedFloor(x: int, k: int)
    ensures (x - 1000 * k) / 1000 == x / 1000 - k
  {
  }

  lemma FloorMonotone(x: int, y: int)
    requires x <= y
    ensures x / 1000 <= y / 1000
  {
  }

  /**
   * No drift: however the ticks fall, as long as they come in time order and
   * the segment does not run out, the time taken off is exactly the whole
   * seconds between the first reference and the last tick, and the reference
   * sits that many whole seconds later.
   */
  lemma {:induction false} TicksCountWholeSeconds(s: AppState, times: seq<int>)
    requires |s.profiles| > 0 && s.timer.isRunning && |times| > 0
    requires forall i, j :: 0 <= i < j < |times| ==> times[i] <= times[j]
    requires s.timer.lastTickEpochMs <= times[0]
    requires s.timer.remainingSec > (times[|times| - 1] - s.timer.lastTickEpochMs) / 1000
    ensures var q := (times[|times| - 1] - s.timer.lastTickEpochMs) / 1000;
            TickAll(s, times) ==
              s.(timer := s.timer.(remainingSec := s.timer.remainingSec - q,
                                   lastTickEpochMs := s.timer.lastTickEpochMs + 1000 * q))
  {
    var n := |times|;
    var t0, last := s.timer.lastTickEpochMs, times[n - 1];
    var prefix := times[..n - 1];
    var qp := if n == 1 then 0 else (prefix[n - 2] - t0) / 1000;
    var mid := s.(timer := s.timer.(remainingSec := s.timer.remainingSec - qp, lastTickEpochMs := t0 + 1000 * qp));
    if n == 1 {
      assert prefix == [];
      assert mid.timer == s.timer;
    } else {
      FloorMonotone(prefix[n - 2] - t0, last - t0);
      FloorMonotone(t0 - t0, prefix[n - 2] - t0);
      TicksCountWholeSeconds(s, prefix);
    }
    assert TickAll(s, prefix) == mid;
    assert TickAll(s, times) == OnTick(mid, last, last, last, "");
    FloorMonotone(times[0] - t0, last - t0);
    TickAfterShift(s, qp, last);
  }

  /** The last tick of a run, from a reference already `qp` whole seconds on. */
  lemma TickAfterShift(s: AppState, qp: int, last: int)
    requires |s.profiles| > 0 && s.timer.isRunning
    requires var t0 := s.timer.lastTickEpochMs; 0 <= qp <= (last - t0) / 1000 < s.timer.remainingSec
    ensures var t0 := s.timer.lastTickEpochMs;
            var q := (last - t0) / 1000;
            OnTick(s.(timer := s.timer.(remainingSec := s.timer.remainingSec - qp, lastTickEpochMs := t0 + 1000 * qp)),
                   last, last, last, "") ==
              s.(timer := s.timer.(remainingSec := s.timer.remainingSec - q, lastTickEpochMs := t0 + 1000 * q))
  {
    var t0 := s.timer.lastTickEpochMs;
    var mid := s.(timer := s.timer.(remainingSec := s.timer.remainingSec - qp, lastTickEpochMs := t0 + 1000 * qp));
    ShiftedFloor(last - t0, qp);
    var e := (last - mid.timer.lastTickEpochMs) / 1000;
    assert e == (last - t0) / 1000 - qp;
    if e > 0 {
      TickCarriesRemainder(mid, last, last, last, "");
    } else {
      TickWithoutWholeSecondIsNoOp(mid, last, last, last, "");
    }
  }

  lemma TickKeepsValid(s: AppState, now: int, finishNow: int, finishLater: int, entryId: string)
    requires ValidState(s)
    ensures ValidState(OnTick(s, now, finishNow, finishLater, entryId))
  {
    if s.timer.isRunning && (now - s.timer.lastTickEpochMs) / 1000 > 0 {
      var e := (now - s.timer.lastTickEpochMs) / 1000;
      var advanced := s.(timer := s.timer.(lastTickEpochMs := s.timer.lastTickEpochMs + e * 1000,
                                            remainingSec := s.timer.remainingSec - e));
      if advanced.timer.remainingSec <= 0 {
        FinishKeepsValid(advanced, true, finishNow, finishLater, entryId);
      }
    }
  }
}
