/**
 * Entities of the timer and the pure rules about them: profile validation,
 * the over-cap check, the phase duration lookup, the phase transition and
 * the active-profile lookup.
 */
module Domain {
  import opened Wrappers

  /** No segment may be longer than this many minutes. */
  const MaxMinutesPerSegment: int := 500
  const MaxSegmentSec: int := MaxMinutesPerSegment * 60

  /**
   * A segment's phase. `Unrecognized` stands for any stored value that is not
   * one of the three names (a typo, a missing key, a non-string).
   */
  datatype Phase = Focus | ShortBreak | LongBreak | Unrecognized(name: string)

  predicate IsRecognized(p: Phase) { !p.Unrecognized? }

  /** A JavaScript number as it comes from storage or a form field. */
  datatype Num = Finite(value: int) | NaN | Infinity(negative: bool)

  /** A stored value that may not be an object at all (`null`, a number, a string). */
  datatype Raw<+T> = NotAnObject | Obj(fields: T)

  /** A profile record before validation: `id` and `name` are `None` when not strings. */
  datatype RawProfile = RawProfile(
    id: Option<string>,
    name: Option<string>,
    focusMin: Num,
    shortBreakMin: Num,
    longBreakMin: Num,
    cyclesBeforeLongBreak: Num)

  /** A profile that passed `isValidProfile`. */
  datatype Profile = Profile(
    id: string,
    name: string,
    focusMin: int,
    shortBreakMin: int,
    longBreakMin: int,
    cyclesBeforeLongBreak: int)

  datatype Task = Task(id: string, title: string, done: bool, createdAt: int, completedPomodoros: int)

  /** One finished or skipped segment; `taskId` is a weak reference that may dangle. */
  datatype HistoryEntry = HistoryEntry(
    id: string,
    taskId: Option<string>,
    phase: Phase,
    plannedSec: int,
    actualSec: int,
    completed: bool,
    startedAt: int,
    endedAt: int)

  datatype TimerState = TimerState(
    phase: Phase,
    remainingSec: int,
    isRunning: bool,
    completedFocusInCycle: int,
    sessionTaskId: Option<string>,
    lastTickEpochMs: int,
    segmentTotalSec: int,
    startedAt: int)

  /** The settings the timer logic reads; the others only drive the view and audio. */
  datatype Settings = Settings(autoStartFocus: bool, autoStartBreak: bool, autoCheckTaskOnFocusEnd: bool)

  /** The compiled-in default profile, "Classic 25/5". */
  const Classic: Profile := Profile("classic", "Classic 25/5", 25, 5, 15, 4)

  /** `x || null` for a string-or-null: the empty string is falsy and becomes null. */
  function TaskRef(o: Option<string>): (r: Option<string>)
    ensures r.Some? <==> o.Some? && o.value != ""
    ensures r.Some? ==> r == o
  {
    if o.Some? && o.value != "" then o else None
  }

  /** The reference is a normal form: never an empty id, and applying `|| null` again changes nothing. */
  lemma TaskRefIsNormal(o: Option<string>)
    ensures TaskRef(o) != Some("")
    ensures TaskRef(TaskRef(o)) == TaskRef(o)
    ensures TaskRef(o) == None <==> o == None || o == Some("")
  {
  }

  predicate MinutesInRange(n: Num)
  {
    n.Finite? && 1 <= n.value <= MaxMinutesPerSegment
  }

  /** `isValidProfile`: string id and name (empty allowed), durations in [1, 500], cycles at least 1. */
  predicate IsValidProfile(p: Raw<RawProfile>)
  {
    p.Obj? &&
    p.fields.id.Some? && p.fields.name.Some? &&
    MinutesInRange(p.fields.focusMin) &&
    MinutesInRange(p.fields.shortBreakMin) &&
    MinutesInRange(p.fields.longBreakMin) &&
    p.fields.cyclesBeforeLongBreak.Finite? && p.fields.cyclesBeforeLongBreak.value >= 1
  }

  /** The invariant every profile in the registry keeps. */
  predicate ProfileOk(p: Profile)
  {
    1 <= p.focusMin <= MaxMinutesPerSegment &&
    1 <= p.shortBreakMin <= MaxMinutesPerSegment &&
    1 <= p.longBreakMin <= MaxMinutesPerSegment &&
    p.cyclesBeforeLongBreak >= 1
  }

  /** The record a valid raw profile stands for. */
  function ToProfile(r: RawProfile): (p: Profile)
    requires IsValidProfile(Obj(r))
    ensures ProfileOk(p)
    ensures Some(p.id) == r.id && Some(p.name) == r.name
    ensures Finite(p.focusMin) == r.focusMin && Finite(p.shortBreakMin) == r.shortBreakMin
    ensures Finite(p.longBreakMin) == r.longBreakMin && Finite(p.cyclesBeforeLongBreak) == r.cyclesBeforeLongBreak
  {
    Profile(r.id.value, r.name.value, r.focusMin.value, r.shortBreakMin.value, r.longBreakMin.value,
            r.cyclesBeforeLongBreak.value)
  }

  datatype Field = FocusField | ShortBreakField | LongBreakField

  /** `value > 500` on a JavaScript number: NaN and -Infinity compare false, +Infinity true. */
  predicate OverCap(n: Num)
  {
    match n
    case Finite(v) => v > MaxMinutesPerSegment
    case NaN => false
    case Infinity(negative) => !negative
  }

  /** `overCapField`: the first duration above the cap, in the order focus, short break, long break. */
  function OverCapField(p: RawProfile): (r: Option<Field>)
    ensures r == None <==> !OverCap(p.focusMin) && !OverCap(p.shortBreakMin) && !OverCap(p.longBreakMin)
    ensures r == Some(FocusField) <==> OverCap(p.focusMin)
    ensures r == Some(ShortBreakField) <==> !OverCap(p.focusMin) && OverCap(p.shortBreakMin)
    ensures r == Some(LongBreakField) <==>
              !OverCap(p.focusMin) && !OverCap(p.shortBreakMin) && OverCap(p.longBreakMin)
  {
    if OverCap(p.focusMin) then Some(FocusField)
    else if OverCap(p.shortBreakMin) then Some(ShortBreakField)
    else if OverCap(p.longBreakMin) then Some(LongBreakField)
    else None
  }

  /** A profile reported over cap would also have failed validation: the cap check only refines the message. */
  lemma OverCapIsInvalid(p: RawProfile)
    requires OverCapField(p).Some?
    ensures !IsValidProfile(Obj(p))
  {
  }

  function Min(a: int, b: int): int { if a <= b then a else b }

  function Max(a: int, b: int): int { if a >= b then a else b }

  /**
   * `phaseDurationSec`: the profile's minutes for the phase, in seconds, clamped to
   * the 500-minute cap; every phase other than focus and short break reads the
   * long-break duration.
   */
  function PhaseDurationSec(phase: Phase, p: Profile): (r: int)
    ensures r <= MaxSegmentSec
    ensures phase == Focus ==> r == Min(MaxSegmentSec, p.focusMin * 60)
    ensures phase == ShortBreak ==> r == Min(MaxSegmentSec, p.shortBreakMin * 60)
    ensures phase != Focus && phase != ShortBreak ==> r == Min(MaxSegmentSec, p.longBreakMin * 60)
  {
    if phase == Focus then Min(MaxSegmentSec, p.focusMin * 60)
    else if phase == ShortBreak then Min(MaxSegmentSec, p.shortBreakMin * 60)
    else Min(MaxSegmentSec, p.longBreakMin * 60)
  }

  /** For a valid profile the clamp never bites: the duration is the profile's minutes times 60, at least one minute. */
  lemma PhaseDurationOfValidProfile(phase: Phase, p: Profile)
    requires ProfileOk(p)
    ensures 60 <= PhaseDurationSec(phase, p) <= MaxSegmentSec
    ensures PhaseDurationSec(phase, p) ==
              (if phase == Focus then p.focusMin else if phase == ShortBreak then p.shortBreakMin else p.longBreakMin) * 60
  {
  }

  /**
   * `nextPhase`. JavaScript's `%` keeps the dividend's sign and Dafny's is
   * Euclidean; they agree here because the dividend is positive. A zero
   * divisor gives NaN in JavaScript, which is never `=== 0`.
   */
  function NextPhase(current: Phase, completedFocusInCycle: int, cyclesBeforeLongBreak: int): (r: Phase)
    ensures IsRecognized(r)
    ensures current == Focus ==>
              (r == LongBreak <==>
                 completedFocusInCycle > 0 && cyclesBeforeLongBreak != 0 &&
                 completedFocusInCycle % cyclesBeforeLongBreak == 0)
    ensures current == Focus ==> r != Focus
    ensures current != Focus ==> r == Focus
  {
    if current == Focus then
      if completedFocusInCycle > 0 && cyclesBeforeLongBreak != 0 && completedFocusInCycle % cyclesBeforeLongBreak == 0
      then LongBreak
      else ShortBreak
    else Focus
  }

  /** The first index whose element satisfies `p`: JavaScript's `findIndex` (and `find`). */
  function FirstIndexWhere<T>(s: seq<T>, p: T -> bool): (r: Option<nat>)
    ensures r.Some? ==> r.value < |s| && p(s[r.value]) && forall j :: 0 <= j < r.value ==> !p(s[j])
    ensures r.None? ==> forall j :: 0 <= j < |s| ==> !p(s[j])
  {
    if s == [] then None
    else if p(s[0]) then Some(0)
    else match FirstIndexWhere(s[1..], p)
      case None => None
      case Some(i) => Some(i + 1)
  }

  /** Two sequences that agree on `p` pointwise have the same first match. */
  lemma FirstIndexWhereAgrees<T>(s: seq<T>, t: seq<T>, p: T -> bool)
    requires |s| == |t| && forall j :: 0 <= j < |s| ==> p(s[j]) == p(t[j])
    ensures FirstIndexWhere(s, p) == FirstIndexWhere(t, p)
  {
    var a, b := FirstIndexWhere(s, p), FirstIndexWhere(t, p);
    if a.Some? && b.Some? {
      assert !(a.value < b.value) && !(b.value < a.value);
    }
  }

  predicate HasProfile(profiles: seq<Profile>, id: string)
  {
    exists i :: 0 <= i < |profiles| && profiles[i].id == id
  }

  /** `getActiveProfile`: the first profile with the active id, else the first profile. */
  function ActiveProfile(profiles: seq<Profile>, activeId: string): (p: Profile)
    requires |profiles| > 0
    ensures p in profiles
    ensures HasProfile(profiles, activeId) ==> p.id == activeId
    ensures !HasProfile(profiles, activeId) ==> p == profiles[0]
    ensures forall j :: 0 <= j < |profiles| && profiles[j].id == activeId ==> p.id == activeId
  {
    match FirstIndexWhere(profiles, (q: Profile) => q.id == activeId)
    case Some(i) => profiles[i]
    case None => profiles[0]
  }

  /** The active profile is the FIRST one carrying the active id. */
  lemma ActiveProfileIsFirstMatch(profiles: seq<Profile>, activeId: string, i: nat)
    requires i < |profiles| && profiles[i].id == activeId
    requires forall j :: 0 <= j < i ==> profiles[j].id != activeId
    ensures ActiveProfile(profiles, activeId) == profiles[i]
  {
    var r := FirstIndexWhere(profiles, (q: Profile) => q.id == activeId);
    assert r.Some?;
    assert !(r.value < i);
  }
}
