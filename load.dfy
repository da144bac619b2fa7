/**
 * Load-time repair: turning whatever was stored into a usable state. The
 * stored text is taken as already parsed into records of optional fields;
 * which keys were present, and which values had the expected type, is what
 * the `Option`s and `Raw`s record.
 */
module Persistence {
  import opened Wrappers
  import opened Text
  import opened Domain
  import opened AppModel

  /** A stored task; `None` for a missing key or a value of another type. */
  datatype RawTask = RawTask(
    id: Option<string>,
    title: Option<string>,
    done: Option<bool>,
    createdAt: Option<int>,
    completedPomodoros: Option<int>)

  /** `x || fallback` for an optional string: the empty string is falsy. */
  function OrElse(o: Option<string>, fallback: string): (r: string)
    ensures o.Some? && o.value != "" ==> r == o.value
    ensures !(o.Some? && o.value != "") ==> r == fallback
  {
    if o.Some? && o.value != "" then o.value else fallback
  }

  /** With a non-empty fallback the result is never empty, and falling back a second time changes nothing. */
  lemma OrElseIsNonEmptyAndStable(o: Option<string>, fallback: string)
    requires fallback != ""
    ensures OrElse(o, fallback) != ""
    ensures OrElse(Some(OrElse(o, fallback)), fallback) == OrElse(o, fallback)
    ensures o.Some? && o.value != "" ==> OrElse(o, fallback) == o.value
  {
  }

  /** `x || fallback` for an optional number: 0 is falsy. */
  function IntOrElse(o: Option<int>, fallback: int): int
  {
    if o.Some? && o.value != 0 then o.value else fallback
  }

  /**
   * `sanitizeTask`: every field filled in. A missing or empty id becomes
   * "t_" and the clock reading, a missing or empty title "Untitled", a missing
   * or zero creation time the clock reading, a missing count 0.
   */
  function SanitizeTask(raw: Raw<RawTask>, now: nat): (t: Task)
    ensures t.id != "" && t.title != ""
    ensures raw.NotAnObject? ==> t == Task("t_" + NatToString(now), "Untitled", false, now, 0)
    ensures raw.Obj? ==>
            var f := raw.fields;
            (f.id.Some? && f.id.value != "" ==> t.id == f.id.value) &&
            (f.title.Some? && f.title.value != "" ==> t.title == f.title.value) &&
            (t.done <==> f.done == Some(true)) &&
            (f.createdAt.Some? && f.createdAt.value != 0 ==> t.createdAt == f.createdAt.value) &&
            (f.completedPomodoros.Some? ==> t.completedPomodoros == f.completedPomodoros.value)
    ensures raw.Obj? ==>
            var f := raw.fields;
            (f.id.None? || f.id == Some("") ==> t.id == "t_" + NatToString(now)) &&
            (f.title.None? || f.title == Some("") ==> t.title == "Untitled") &&
            (f.createdAt.None? || f.createdAt == Some(0) ==> t.createdAt == now) &&
            (f.completedPomodoros.None? ==> t.completedPomodoros == 0)
  {
    var f := if raw.Obj? then raw.fields else RawTask(None, None, None, None, None);
    Task(OrElse(f.id, "t_" + NatToString(now)),
         OrElse(f.title, "Untitled"),
         f.done == Some(true),
         IntOrElse(f.createdAt, now),
         IntOrElse(f.completedPomodoros, 0))
  }

  /** How a task is stored: every field present. */
  function AsRaw(t: Task): Raw<RawTask>
  {
    Obj(RawTask(Some(t.id), Some(t.title), Some(t.done), Some(t.createdAt), Some(t.completedPomodoros)))
  }

  /** A task stored with all fields filled in (and a non-zero creation time) comes back as it was. */
  lemma SanitizeKeepsCompleteTask(t: Task, now: nat)
    requires t.id != "" && t.title != "" && t.createdAt != 0
    ensures SanitizeTask(AsRaw(t), now) == t
  {
  }

  /** Sanitizing is idempotent: a sanitized task stored and loaded again, at any clock reading, is unchanged. */
  lemma SanitizeIsIdempotent(raw: Raw<RawTask>, now: nat, later: nat)
    requires SanitizeTask(raw, now).createdAt != 0
    ensures SanitizeTask(AsRaw(SanitizeTask(raw, now)), later) == SanitizeTask(raw, now)
  {
    SanitizeKeepsCompleteTask(SanitizeTask(raw, now), later);
  }

  /** A stored history record; only the fields `isValidHistory` inspects are left raw. */
  datatype RawHistoryEntry = RawHistoryEntry(
    id: string,
    taskId: Option<string>,
    phase: Phase,
    plannedSec: int,
    actualSec: int,
    completed: bool,
    startedAt: int,
    endedAt: Num)

  /** `isValidHistory`: an object with a recognised phase and a finite end time. */
  predicate IsValidHistory(e: Raw<RawHistoryEntry>)
  {
    e.Obj? && IsRecognized(e.fields.phase) && e.fields.endedAt.Finite?
  }

  /** A valid stored record kept as it is: every field copied, the end time as the finite number it holds. */
  function ToEntry(e: RawHistoryEntry): (h: HistoryEntry)
    requires IsValidHistory(Obj(e))
    ensures IsRecognized(h.phase) && Finite(h.endedAt) == e.endedAt
    ensures h.id == e.id && h.taskId == e.taskId && h.phase == e.phase && h.plannedSec == e.plannedSec &&
            h.actualSec == e.actualSec && h.completed == e.completed && h.startedAt == e.startedAt
  {
    HistoryEntry(e.id, e.taskId, e.phase, e.plannedSec, e.actualSec, e.completed, e.startedAt, e.endedAt.value)
  }

  /** `history.filter(isValidHistory)`, in order. */
  function FilterValidHistory(hs: seq<Raw<RawHistoryEntry>>): (r: seq<HistoryEntry>)
    ensures |r| <= |hs|
    ensures forall i :: 0 <= i < |r| ==> IsRecognized(r[i].phase)
    ensures (forall i :: 0 <= i < |hs| ==> IsValidHistory(hs[i])) ==> |r| == |hs|
  {
    if hs == [] then []
    else (if IsValidHistory(hs[0]) then [ToEntry(hs[0].fields)] else []) + FilterValidHistory(hs[1..])
  }

  /** Filtering a concatenation filters each part: `filter` keeps the survivors in their stored order. */
  lemma {:induction false} FilterValidHistoryAppend(xs: seq<Raw<RawHistoryEntry>>, ys: seq<Raw<RawHistoryEntry>>)
    ensures FilterValidHistory(xs + ys) == FilterValidHistory(xs) + FilterValidHistory(ys)
  {
    if xs == [] {
      assert xs + ys == ys;
    } else {
      assert (xs + ys)[1..] == xs[1..] + ys;
      FilterValidHistoryAppend(xs[1..], ys);
    }
  }

  /** One stored record survives, unchanged, exactly when it is valid. */
  lemma FilterValidHistorySingle(x: Raw<RawHistoryEntry>)
    ensures FilterValidHistory([x]) == if IsValidHistory(x) then [ToEntry(x.fields)] else []
  {
    assert [x][1..] == [];
  }

  /** How `saveState` writes a history entry. */
  function StoredEntry(h: HistoryEntry): Raw<RawHistoryEntry>
  {
    Obj(RawHistoryEntry(h.id, h.taskId, h.phase, h.plannedSec, h.actualSec, h.completed, h.startedAt, Finite(h.endedAt)))
  }

  /** A stored log of entries with recognised phases loads back as it was written: nothing dropped, nothing changed. */
  lemma {:induction false} StoredHistoryComesBack(hs: seq<HistoryEntry>)
    requires forall i :: 0 <= i < |hs| ==> IsRecognized(hs[i].phase)
    ensures FilterValidHistory(seq(|hs|, i requires 0 <= i < |hs| => StoredEntry(hs[i]))) == hs
  {
    var st := seq(|hs|, i requires 0 <= i < |hs| => StoredEntry(hs[i]));
    if hs != [] {
      var rest := seq(|hs| - 1, i requires 0 <= i < |hs| - 1 => StoredEntry(hs[1..][i]));
      assert st[1..] == rest;
      StoredHistoryComesBack(hs[1..]);
      assert st[0] == StoredEntry(hs[0]);
      assert hs == [hs[0]] + hs[1..];
    }
  }

  /** `profiles.filter(isValidProfile)`, in order. */
  function FilterValidProfiles(ps: seq<Raw<RawProfile>>): (r: seq<Profile>)
    ensures |r| <= |ps|
    ensures forall i :: 0 <= i < |r| ==> ProfileOk(r[i])
    ensures r == [] <==> forall i :: 0 <= i < |ps| ==> !IsValidProfile(ps[i])
  {
    if ps == [] then []
    else
      var rest := FilterValidProfiles(ps[1..]);
      assert forall i :: 1 <= i < |ps| ==> ps[i] == ps[1..][i - 1];
      (if IsValidProfile(ps[0]) then [ToProfile(ps[0].fields)] else []) + rest
  }

  /** Filtering a concatenation filters each part, in order. */
  lemma {:induction false} FilterValidProfilesAppend(xs: seq<Raw<RawProfile>>, ys: seq<Raw<RawProfile>>)
    ensures FilterValidProfiles(xs + ys) == FilterValidProfiles(xs) + FilterValidProfiles(ys)
  {
    if xs == [] {
      assert xs + ys == ys;
    } else {
      assert (xs + ys)[1..] == xs[1..] + ys;
      FilterValidProfilesAppend(xs[1..], ys);
    }
  }

  /** One stored profile survives, as the profile it spells, exactly when it is valid. */
  lemma FilterValidProfilesSingle(x: Raw<RawProfile>)
    ensures FilterValidProfiles([x]) == if IsValidProfile(x) then [ToProfile(x.fields)] else []
  {
    assert [x][1..] == [];
  }

  /** How `saveState` writes a profile. */
  function StoredProfile(p: Profile): Raw<RawProfile>
  {
    Obj(RawProfile(Some(p.id), Some(p.name), Finite(p.focusMin), Finite(p.shortBreakMin), Finite(p.longBreakMin),
                   Finite(p.cyclesBeforeLongBreak)))
  }

  /** A stored registry of sound profiles loads back as it was written. */
  lemma {:induction false} StoredProfilesComeBack(ps: seq<Profile>)
    requires forall i :: 0 <= i < |ps| ==> ProfileOk(ps[i])
    ensures FilterValidProfiles(seq(|ps|, i requires 0 <= i < |ps| => StoredProfile(ps[i]))) == ps
  {
    var st := seq(|ps|, i requires 0 <= i < |ps| => StoredProfile(ps[i]));
    if ps != [] {
      var rest := seq(|ps| - 1, i requires 0 <= i < |ps| - 1 => StoredProfile(ps[1..][i]));
      assert st[1..] == rest;
      StoredProfilesComeBack(ps[1..]);
      assert st[0] == StoredProfile(ps[0]);
      assert IsValidProfile(st[0]);
      assert ps == [ps[0]] + ps[1..];
    }
  }

  datatype RawSettings = RawSettings(
    autoStartFocus: Option<bool>,
    autoStartBreak: Option<bool>,
    autoCheckTaskOnFocusEnd: Option<bool>)

  /**
   * A stored timer record; `sessionTaskId` is `Some(None)` for a stored null.
   * `remainingSec` and `segmentTotalSec` keep the number as stored, since the
   * later repair tests them for finiteness.
   */
  datatype RawTimer = RawTimer(
    phase: Option<Phase>,
    remainingSec: Option<Num>,
    isRunning: Option<bool>,
    completedFocusInCycle: Option<int>,
    sessionTaskId: Option<Option<string>>,
    lastTickEpochMs: Option<int>,
    segmentTotalSec: Option<Num>,
    startedAt: Option<int>)

  /** The timer record after defaults are spread under the stored keys. */
  datatype LoadedTimer = LoadedTimer(
    phase: Phase,
    remainingSec: Num,
    isRunning: bool,
    completedFocusInCycle: int,
    sessionTaskId: Option<string>,
    lastTickEpochMs: int,
    segmentTotalSec: Num,
    startedAt: int)

  /** The parsed stored object; `None` for a missing key or, for the arrays, a value that is not an array. */
  datatype RawState = RawState(
    settings: Option<RawSettings>,
    profiles: Option<seq<Raw<RawProfile>>>,
    activeProfileId: Option<string>,
    timerState: Option<RawTimer>,
    tasks: Option<seq<Raw<RawTask>>>,
    history: Option<seq<Raw<RawHistoryEntry>>>)

  datatype Document = Document(
    version: int,
    settings: Settings,
    profiles: seq<Profile>,
    activeProfileId: string,
    timer: LoadedTimer,
    tasks: seq<Task>,
    history: seq<HistoryEntry>)

  /** The one way migration fails: every stored profile was invalid, and `profiles[0]` of the empty filter throws. */
  datatype LoadError = NoValidProfile

  const DefaultTimer: LoadedTimer := LoadedTimer(Focus, Finite(25 * 60), false, 0, None, 0, Finite(25 * 60), 0)

  const DefaultSettings: Settings := Settings(false, false, false)

  const DefaultDocument: Document := Document(1, DefaultSettings, [Classic], "classic", DefaultTimer, [], [])

  function MergeSettings(o: Option<RawSettings>): Settings
  {
    match o
    case None => DefaultSettings
    case Some(r) =>
      Settings(r.autoStartFocus == Some(true), r.autoStartBreak == Some(true), r.autoCheckTaskOnFocusEnd == Some(true))
  }

  function Get<T>(o: Option<T>, d: T): T
  {
    if o.Some? then o.value else d
  }

  /** `{ ...defaults.timerState, ...(input.timerState || {}) }`: every stored key wins. */
  function MergeTimer(o: Option<RawTimer>): LoadedTimer
  {
    match o
    case None => DefaultTimer
    case Some(r) =>
      LoadedTimer(Get(r.phase, Focus), Get(r.remainingSec, Finite(25 * 60)), Get(r.isRunning, false),
                  Get(r.completedFocusInCycle, 0), Get(r.sessionTaskId, None), Get(r.lastTickEpochMs, 0),
                  Get(r.segmentTotalSec, Finite(25 * 60)), Get(r.startedAt, 0))
  }

  function SanitizeTasks(ts: seq<Raw<RawTask>>, now: nat): (r: seq<Task>)
    ensures |r| == |ts| && forall i :: 0 <= i < |ts| ==> r[i] == SanitizeTask(ts[i], now)
  {
    seq(|ts|, i requires 0 <= i < |ts| => SanitizeTask(ts[i], now))
  }

  /** A stored list of complete tasks (non-zero creation times) loads back as it was written, in order. */
  lemma StoredTasksComeBack(ts: seq<Task>, now: nat)
    requires forall i :: 0 <= i < |ts| ==> ts[i].id != "" && ts[i].title != "" && ts[i].createdAt != 0
    ensures SanitizeTasks(seq(|ts|, i requires 0 <= i < |ts| => AsRaw(ts[i])), now) == ts
  {
    var r := SanitizeTasks(seq(|ts|, i requires 0 <= i < |ts| => AsRaw(ts[i])), now);
    forall i | 0 <= i < |ts|
      ensures r[i] == ts[i]
    {
      SanitizeKeepsCompleteTask(ts[i], now);
    }
  }

  /** The first profile with the given id, if any: `profiles.find((p) => p.id === id)`. */
  function FindProfile(ps: seq<Profile>, id: string): (r: Option<Profile>)
    ensures r.Some? <==> HasProfile(ps, id)
    ensures r.Some? ==> r.value in ps && r.value.id == id
  {
    match FirstIndexWhere(ps, (p: Profile) => p.id == id)
    case Some(i) => Some(ps[i])
    case None => None
  }

  /**
   * `migrateState`: defaults for anything that is not an object; otherwise the
   * stored parts merged over the defaults, profiles and history filtered,
   * tasks sanitized, and the active id repaired. `now` is the clock reading
   * the task sanitizer falls back to.
   */
  function MigrateState(input: Raw<RawState>, now: nat): Result<Document, LoadError>
  {
    match input
    case NotAnObject => Success(DefaultDocument)
    case Obj(r) =>
      var profiles := if r.profiles.Some? && |r.profiles.value| > 0 then FilterValidProfiles(r.profiles.value) else [Classic];
      if profiles == [] then Failure(NoValidProfile)
      else
        var requested := OrElse(r.activeProfileId, profiles[0].id);
        var active := if FindProfile(profiles, requested).Some? then requested else profiles[0].id;
        Success(Document(1, MergeSettings(r.settings), profiles, active, MergeTimer(r.timerState),
                         if r.tasks.Some? then SanitizeTasks(r.tasks.value, now) else [],
                         if r.history.Some? then FilterValidHistory(r.history.value) else []))
  }

  /** A migrated document's registry is non-empty and valid and its active id names one of its profiles. */
  predicate DocumentOk(d: Document)
  {
    d.version == 1 &&
    |d.profiles| > 0 && (forall i :: 0 <= i < |d.profiles| ==> ProfileOk(d.profiles[i])) &&
    HasProfile(d.profiles, d.activeProfileId) &&
    (forall i :: 0 <= i < |d.history| ==> IsRecognized(d.history[i].phase))
  }

  lemma DefaultDocumentOk()
    ensures DocumentOk(DefaultDocument)
  {
    assert DefaultDocument.profiles[0].id == "classic";
  }

  /**
   * What migration guarantees: defaults for a non-object, the classic profile
   * when none are stored, failure exactly when stored profiles exist and none
   * is valid, and otherwise a sound document whose active id is the stored one
   * whenever that names a surviving profile.
   */
  lemma MigrateStateRepairs(input: Raw<RawState>, now: nat)
    ensures input.NotAnObject? ==> MigrateState(input, now) == Success(DefaultDocument)
    ensures MigrateState(input, now).Success? ==> DocumentOk(MigrateState(input, now).value)
    ensures MigrateState(input, now).Failure? <==>
              input.Obj? && input.fields.profiles.Some? && |input.fields.profiles.value| > 0 &&
              forall i :: 0 <= i < |input.fields.profiles.value| ==> !IsValidProfile(input.fields.profiles.value[i])
    ensures input.Obj? && (input.fields.profiles.None? || input.fields.profiles == Some([])) ==>
              MigrateState(input, now).Success? && MigrateState(input, now).value.profiles == [Classic]
    ensures input.Obj? && MigrateState(input, now).Success? && input.fields.activeProfileId.Some? &&
            input.fields.activeProfileId.value != "" &&
            HasProfile(MigrateState(input, now).value.profiles, input.fields.activeProfileId.value) ==>
              MigrateState(input, now).value.activeProfileId == input.fields.activeProfileId.value
  {
    DefaultDocumentOk();
    if input.Obj? {
      var r := input.fields;
      var profiles := if r.profiles.Some? && |r.profiles.value| > 0 then FilterValidProfiles(r.profiles.value) else [Classic];
      if profiles != [] {
        assert HasProfile(profiles, profiles[0].id) by { assert profiles[0].id == profiles[0].id; }
      }
    }
  }

  /** `loadState`: nothing stored, unparsable text (both `None`) or a failed migration all give the defaults. */
  function LoadState(stored: Option<Raw<RawState>>, now: nat): (d: Document)
    ensures DocumentOk(d)
  {
    DefaultDocumentOk();
    MigrateStateRepairs(if stored.Some? then stored.value else NotAnObject, now);
    match stored
    case None => DefaultDocument
    case Some(input) =>
      match MigrateState(input, now)
      case Success(doc) => doc
      case Failure(_) => DefaultDocument
  }

  predicate HasCompletedFocus(history: seq<HistoryEntry>)
  {
    exists i :: 0 <= i < |history| && history[i].phase == Focus && history[i].completed
  }

  predicate PositiveNum(n: Num)
  {
    n.Finite? && n.value > 0
  }

  /**
   * `syncTimerToProfileIfInvalid`: an unrecognised phase becomes focus; a
   * non-finite or non-positive remaining time restarts a full focus segment
   * (at the profile's unclamped focus minutes); a bad segment length becomes
   * the phase duration; and a long break no completed focus segment could have
   * earned becomes a paused focus segment.
   */
  function SyncTimer(t: LoadedTimer, profile: Profile, history: seq<HistoryEntry>): (r: TimerState)
  {
    var phase1 := if IsRecognized(t.phase) then t.phase else Focus;
    var remainingOk := PositiveNum(t.remainingSec);
    var phase2 := if remainingOk then phase1 else Focus;
    var remaining2 := if remainingOk then t.remainingSec.value else profile.focusMin * 60;
    var total2 := if remainingOk then t.segmentTotalSec else Finite(profile.focusMin * 60);
    var total3 := if PositiveNum(total2) then total2.value else PhaseDurationSec(phase2, profile);
    var unearned := phase2 == LongBreak && t.completedFocusInCycle == 0 && !HasCompletedFocus(history);
    var base := TimerState(phase2, remaining2, t.isRunning, t.completedFocusInCycle, t.sessionTaskId,
                           t.lastTickEpochMs, total3, t.startedAt);
    if unearned then
      var sec := PhaseDurationSec(Focus, profile);
      base.(phase := Focus, segmentTotalSec := sec, remainingSec := sec, isRunning := false)
    else base
  }

  /**
   * After the repair the phase is recognised, the segment has time left and a
   * positive length, and there is no long break with a zero count unless a
   * completed focus segment is on record.
   */
  lemma SyncTimerRepairs(t: LoadedTimer, profile: Profile, history: seq<HistoryEntry>)
    requires ProfileOk(profile)
    ensures var r := SyncTimer(t, profile, history);
            IsRecognized(r.phase) && r.remainingSec > 0 && r.segmentTotalSec > 0 &&
            !(r.phase == LongBreak && r.completedFocusInCycle == 0 && !HasCompletedFocus(history)) &&
            r.completedFocusInCycle == t.completedFocusInCycle && r.sessionTaskId == t.sessionTaskId &&
            r.lastTickEpochMs == t.lastTickEpochMs && r.startedAt == t.startedAt
  {
    PhaseDurationOfValidProfile(Focus, profile);
    PhaseDurationOfValidProfile(if IsRecognized(t.phase) && PositiveNum(t.remainingSec) then t.phase else Focus, profile);
  }

  /** A record that is already sound passes through unchanged. */
  lemma SyncTimerKeepsSoundRecord(t: LoadedTimer, profile: Profile, history: seq<HistoryEntry>)
    requires IsRecognized(t.phase) && PositiveNum(t.remainingSec) && PositiveNum(t.segmentTotalSec)
    requires !(t.phase == LongBreak && t.completedFocusInCycle == 0 && !HasCompletedFocus(history))
    ensures SyncTimer(t, profile, history) ==
              TimerState(t.phase, t.remainingSec.value, t.isRunning, t.completedFocusInCycle, t.sessionTaskId,
                         t.lastTickEpochMs, t.segmentTotalSec.value, t.startedAt)
  {
  }

  /**
   * The state `init` starts from: the loaded document with its timer repaired
   * against the active profile, the ticker installed when the timer runs, no
   * task selected and nothing posted yet.
   */
  function InitialState(stored: Option<Raw<RawState>>, now: nat): AppState
  {
    var d := LoadState(stored, now);
    var timer := SyncTimer(d.timer, ActiveProfile(d.profiles, d.activeProfileId), d.history);
    AppState(d.settings, d.profiles, d.activeProfileId, timer, d.tasks, d.history, timer.isRunning, None, [])
  }

  /** Whatever was stored, the app starts in a valid state. */
  lemma InitialStateIsValid(stored: Option<Raw<RawState>>, now: nat)
    ensures ValidState(InitialState(stored, now))
  {
    var d := LoadState(stored, now);
    var p := ActiveProfile(d.profiles, d.activeProfileId);
    assert ProfileOk(p) by {
      var i :| 0 <= i < |d.profiles| && d.profiles[i] == p;
    }
    SyncTimerRepairs(d.timer, p, d.history);
  }

  /** With nothing stored the app starts paused at a full classic focus segment. */
  lemma FreshStartIsClassicFocus(now: nat)
    ensures var s := InitialState(None, now);
            s.profiles == [Classic] && s.activeProfileId == "classic" &&
            s.timer == TimerState(Focus, 1500, false, 0, None, 0, 1500, 0) && !s.ticking &&
            s.tasks == [] && s.history == []
  {
  }
}
