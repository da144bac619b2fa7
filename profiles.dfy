/**
 * The profile registry: saving the form over the active profile, creating a
 * copy, deleting the active profile, and choosing another one from the list.
 */
module ProfileRegistry {
  import opened Wrappers
  import opened Text
  import opened Domain
  import opened AppModel
  import opened TimerMachine

  /** The profile form's inputs, the numeric ones already passed through `Number(...)`. */
  datatype ProfileForm = ProfileForm(
    name: string,
    focusMin: Num,
    shortBreakMin: Num,
    longBreakMin: Num,
    cyclesBeforeLongBreak: Num)

  datatype SaveOutcome = Saved | RejectedOverCap(field: Field) | RejectedInvalid

  /** The record built from the form: the active id, and the trimmed name or "Custom Profile" when blank. */
  function FormProfile(activeId: string, form: ProfileForm): (r: RawProfile)
    ensures r.id == Some(activeId) && r.name.Some? && r.name.value != ""
    ensures Trim(form.name) != "" ==> r.name == Some(Trim(form.name))
    ensures Trim(form.name) == "" ==> r.name == Some("Custom Profile")
    ensures r.focusMin == form.focusMin && r.shortBreakMin == form.shortBreakMin
    ensures r.longBreakMin == form.longBreakMin && r.cyclesBeforeLongBreak == form.cyclesBeforeLongBreak
  {
    var name := Trim(form.name);
    RawProfile(Some(activeId), Some(if name == "" then "Custom Profile" else name),
               form.focusMin, form.shortBreakMin, form.longBreakMin, form.cyclesBeforeLongBreak)
  }

  /**
   * The record passes validation exactly when the form's numbers are in range
   * (the id and the name never block it), and its name is non-blank and
   * already trimmed, so saving the shown values again builds the same record.
   */
  lemma FormProfileIsSettled(activeId: string, form: ProfileForm)
    ensures var r := FormProfile(activeId, form);
            (IsValidProfile(Obj(r)) <==>
               MinutesInRange(form.focusMin) && MinutesInRange(form.shortBreakMin) && MinutesInRange(form.longBreakMin) &&
               form.cyclesBeforeLongBreak.Finite? && form.cyclesBeforeLongBreak.value >= 1) &&
            r.name.value != "" && Trim(r.name.value) == r.name.value &&
            FormProfile(activeId, form.(name := r.name.value)) == r
  {
    FormNameIsTrimmed(activeId, form);
    var r := FormProfile(activeId, form);
    var again := FormProfile(activeId, form.(name := r.name.value));
    assert again.name == Some(r.name.value);
  }

  lemma FormNameIsTrimmed(activeId: string, form: ProfileForm)
    ensures var shown := FormProfile(activeId, form).name.value;
            shown != "" && Trim(shown) == shown
  {
    if Trim(form.name) == "" {
      TrimOfTrimmed("Custom Profile");
    } else {
      TrimIsIdempotent(form.name);
    }
  }

  /** The over-cap check comes first and names the first field above the cap; validation comes second. */
  function SaveCheck(p: RawProfile): (r: SaveOutcome)
    ensures r == Saved <==> IsValidProfile(Obj(p))
    ensures r.RejectedOverCap? <==> OverCapField(p).Some?
    ensures r.RejectedOverCap? ==> OverCapField(p) == Some(r.field)
  {
    match OverCapField(p)
    case Some(f) => OverCapIsInvalid(p); RejectedOverCap(f)
    case None => if IsValidProfile(Obj(p)) then Saved else RejectedInvalid
  }

  /** `profiles.map((q) => q.id === id ? p : q)`. */
  function ReplaceById(ps: seq<Profile>, id: string, p: Profile): (r: seq<Profile>)
    ensures |r| == |ps|
    ensures forall i :: 0 <= i < |ps| ==> r[i] == (if ps[i].id == id then p else ps[i])
  {
    if ps == [] then [] else [if ps[0].id == id then p else ps[0]] + ReplaceById(ps[1..], id, p)
  }

  /** `saveProfileFromForm`: the outcome reported and the state after it. */
  function SaveProfileFromForm(s: AppState, form: ProfileForm): (SaveOutcome, AppState)
    requires |s.profiles| > 0
  {
    var p := FormProfile(s.activeProfileId, form);
    var outcome := SaveCheck(p);
    if outcome == Saved then
      (Saved, ResetCurrentSegment(s.(profiles := ReplaceById(s.profiles, s.activeProfileId, ToProfile(p)))))
    else (outcome, s)
  }

  /** A rejected form changes nothing; an over-cap rejection names the first over-cap field, focus first. */
  lemma SaveRejectionChangesNothing(s: AppState, form: ProfileForm)
    requires |s.profiles| > 0
    ensures var (outcome, r) := SaveProfileFromForm(s, form);
            (outcome != Saved ==> r == s) &&
            (outcome == Saved <==> IsValidProfile(Obj(FormProfile(s.activeProfileId, form)))) &&
            (OverCap(form.focusMin) ==> outcome == RejectedOverCap(FocusField)) &&
            (!OverCap(form.focusMin) && OverCap(form.shortBreakMin) ==> outcome == RejectedOverCap(ShortBreakField)) &&
            (!OverCap(form.focusMin) && !OverCap(form.shortBreakMin) && OverCap(form.longBreakMin) ==>
               outcome == RejectedOverCap(LongBreakField))
  {
  }

  /** The registry after a saved form: every profile carrying the active id carries the form, the others are kept. */
  lemma SavedRegistry(s: AppState, form: ProfileForm)
    requires |s.profiles| > 0 && SaveProfileFromForm(s, form).0 == Saved
    ensures var r := SaveProfileFromForm(s, form).1;
            var p := FormProfile(s.activeProfileId, form);
            |r.profiles| == |s.profiles| &&
            (forall i :: 0 <= i < |s.profiles| && s.profiles[i].id != s.activeProfileId ==> r.profiles[i] == s.profiles[i]) &&
            (forall i :: 0 <= i < |s.profiles| && s.profiles[i].id == s.activeProfileId ==>
               Some(r.profiles[i].name) == p.name &&
               Finite(r.profiles[i].focusMin) == form.focusMin && Finite(r.profiles[i].shortBreakMin) == form.shortBreakMin &&
               Finite(r.profiles[i].longBreakMin) == form.longBreakMin &&
               Finite(r.profiles[i].cyclesBeforeLongBreak) == form.cyclesBeforeLongBreak)
  {
    var p := FormProfile(s.activeProfileId, form);
    var q := ToProfile(p);
    var s1 := s.(profiles := ReplaceById(s.profiles, s.activeProfileId, q));
    assert SaveProfileFromForm(s, form).1 == ResetCurrentSegment(s1);
    assert ResetCurrentSegment(s1).profiles == s1.profiles;
  }

  lemma SaveStoresForm(s: AppState, form: ProfileForm)
    requires |s.profiles| > 0 && HasProfile(s.profiles, s.activeProfileId)
    requires SaveProfileFromForm(s, form).0 == Saved
    ensures var r := SaveProfileFromForm(s, form).1;
            var p := FormProfile(s.activeProfileId, form);
            |r.profiles| == |s.profiles| && r.activeProfileId == s.activeProfileId &&
            (forall i :: 0 <= i < |s.profiles| && s.profiles[i].id != s.activeProfileId ==> r.profiles[i] == s.profiles[i]) &&
            (forall i :: 0 <= i < |s.profiles| && s.profiles[i].id == s.activeProfileId ==>
               Some(r.profiles[i].name) == p.name &&
               Finite(r.profiles[i].focusMin) == form.focusMin && Finite(r.profiles[i].shortBreakMin) == form.shortBreakMin &&
               Finite(r.profiles[i].longBreakMin) == form.longBreakMin &&
               Finite(r.profiles[i].cyclesBeforeLongBreak) == form.cyclesBeforeLongBreak) &&
            Active(r) == ToProfile(p) &&
            r.timer.remainingSec == r.timer.segmentTotalSec == PhaseDurationSec(s.timer.phase, ToProfile(p)) &&
            !r.timer.isRunning
  {
    var p := FormProfile(s.activeProfileId, form);
    var q := ToProfile(p);
    var s1 := s.(profiles := ReplaceById(s.profiles, s.activeProfileId, q));
    assert SaveProfileFromForm(s, form).1 == ResetCurrentSegment(s1);
    var i :| 0 <= i < |s.profiles| && s.profiles[i].id == s.activeProfileId;
    assert s1.profiles[i] == q;
    assert Active(s1) == q;
    ResetRestartsSegment(s1);
    SavedRegistry(s, form);
  }

  /** Replacing by id with a valid profile of that id keeps the registry sound. */
  lemma ReplaceKeepsRegistry(s: AppState, p: Profile)
    requires RegistryOk(s) && ProfileOk(p) && p.id == s.activeProfileId
    ensures RegistryOk(s.(profiles := ReplaceById(s.profiles, s.activeProfileId, p)))
  {
    var ps := ReplaceById(s.profiles, s.activeProfileId, p);
    var i :| 0 <= i < |s.profiles| && s.profiles[i].id == s.activeProfileId;
    assert ps[i].id == s.activeProfileId;
  }

  lemma SaveKeepsValid(s: AppState, form: ProfileForm)
    requires ValidState(s)
    ensures ValidState(SaveProfileFromForm(s, form).1)
    ensures SaveProfileFromForm(s, form).1.history == s.history && SaveProfileFromForm(s, form).1.tasks == s.tasks
  {
    var p := FormProfile(s.activeProfileId, form);
    if SaveCheck(p) == Saved {
      ReplaceKeepsRegistry(s, ToProfile(p));
      ResetKeepsValid(s.(profiles := ReplaceById(s.profiles, s.activeProfileId, ToProfile(p))));
    }
  }

  /** The id `newProfile` gives the copy: "p_" and the clock reading in decimal. */
  function NewProfileId(now: nat): string
  {
    "p_" + NatToString(now)
  }

  /**
   * `newProfile`: a copy of the active profile under a fresh id and the name
   * "New Profile n" (n the registry size after the push), appended, made active,
   * and the segment reset.
   */
  function NewProfile(s: AppState, now: nat): (r: AppState)
    requires |s.profiles| > 0
    ensures |r.profiles| == |s.profiles| + 1 && r.profiles[..|s.profiles|] == s.profiles
  {
    var source := Active(s);
    var created := source.(id := NewProfileId(now), name := "New Profile " + NatToString(|s.profiles| + 1));
    var r := ResetCurrentSegment(s.(profiles := s.profiles + [created], activeProfileId := created.id));
    assert r.profiles[..|s.profiles|] == s.profiles;
    r
  }

  /**
   * The registry grows by one copy of the active profile's durations; the copy
   * is active unless its id was already taken, in which case the earlier
   * profile with that id is the one looked up.
   */
  lemma NewProfileAppendsActiveCopy(s: AppState, now: nat)
    requires |s.profiles| > 0
    ensures var r := NewProfile(s, now);
            var c := r.profiles[|s.profiles|];
            |r.profiles| == |s.profiles| + 1 &&
            c.id == NewProfileId(now) && c.name == "New Profile " + NatToString(|s.profiles| + 1) &&
            c.focusMin == Active(s).focusMin && c.shortBreakMin == Active(s).shortBreakMin &&
            c.longBreakMin == Active(s).longBreakMin && c.cyclesBeforeLongBreak == Active(s).cyclesBeforeLongBreak &&
            r.activeProfileId == c.id && HasProfile(r.profiles, r.activeProfileId) &&
            (!HasProfile(s.profiles, NewProfileId(now)) ==> Active(r) == c) &&
            r.timer.remainingSec == r.timer.segmentTotalSec == PhaseDurationSec(s.timer.phase, Active(r)) &&
            !r.timer.isRunning && r.history == s.history && r.tasks == s.tasks
  {
    var r := NewProfile(s, now);
    var n := |s.profiles|;
    var c := r.profiles[n];
    assert r.profiles[n].id == r.activeProfileId;
    if !HasProfile(s.profiles, NewProfileId(now)) {
      assert forall j :: 0 <= j < n ==> r.profiles[j].id != c.id;
      ActiveProfileIsFirstMatch(r.profiles, r.activeProfileId, n);
    }
  }

  lemma NewProfileKeepsValid(s: AppState, now: nat)
    requires ValidState(s)
    ensures ValidState(NewProfile(s, now))
    ensures NewProfile(s, now).history == s.history && NewProfile(s, now).tasks == s.tasks
  {
    var source := Active(s);
    var created := source.(id := NewProfileId(now), name := "New Profile " + NatToString(|s.profiles| + 1));
    var q := s.(profiles := s.profiles + [created], activeProfileId := created.id);
    assert q.profiles[|s.profiles|].id == q.activeProfileId;
    assert RegistryOk(q);
    ResetKeepsValid(q);
  }

  /** `profiles.filter((p) => p.id !== id)`. */
  function WithoutId(ps: seq<Profile>, id: string): (r: seq<Profile>)
    ensures |r| <= |ps|
    ensures forall p :: p in r <==> p in ps && p.id != id
    ensures forall i :: 0 <= i < |r| ==> r[i].id != id
  {
    if ps == [] then [] else (if ps[0].id == id then [] else [ps[0]]) + WithoutId(ps[1..], id)
  }

  predicate DistinctIds(ps: seq<Profile>)
  {
    forall i, j :: 0 <= i < j < |ps| ==> ps[i].id != ps[j].id
  }

  /** Filtering a concatenation filters each part: `filter` keeps the survivors in order. */
  lemma {:induction false} WithoutIdAppend(xs: seq<Profile>, ys: seq<Profile>, id: string)
    ensures WithoutId(xs + ys, id) == WithoutId(xs, id) + WithoutId(ys, id)
  {
    if xs == [] {
      assert xs + ys == ys;
    } else {
      assert (xs + ys)[1..] == xs[1..] + ys;
      WithoutIdAppend(xs[1..], ys, id);
    }
  }

  /** When only position k carries the id, filtering it out is removing that one position, the rest in order. */
  lemma WithoutOnlyAt(ps: seq<Profile>, id: string, k: nat)
    requires k < |ps| && ps[k].id == id
    requires forall j :: 0 <= j < |ps| && j != k ==> ps[j].id != id
    ensures WithoutId(ps, id) == ps[..k] + ps[k + 1..]
  {
    var before, after := ps[..k], ps[k + 1..];
    var tail := [ps[k]] + after;
    assert ps == before + tail;
    assert forall j :: 0 <= j < |before| ==> before[j] == ps[j];
    WithoutAbsentId(before, id);
    assert forall j :: 0 <= j < |after| ==> after[j] == ps[k + 1 + j];
    WithoutAbsentId(after, id);
    WithoutIdOfMatch(ps[k], id);
    WithoutIdAppend([ps[k]], after, id);
    assert WithoutId(tail, id) == after;
    WithoutIdAppend(before, tail, id);
  }

  lemma WithoutIdOfMatch(p: Profile, id: string)
    requires p.id == id
    ensures WithoutId([p], id) == []
  {
    assert [p][1..] == [];
  }

  /** With distinct ids, filtering out a present id removes exactly one profile. */
  lemma {:induction false} WithoutPresentId(ps: seq<Profile>, id: string)
    requires DistinctIds(ps) && HasProfile(ps, id)
    ensures |WithoutId(ps, id)| == |ps| - 1
  {
    if ps[0].id == id {
      assert forall j :: 0 <= j < |ps[1..]| ==> ps[1..][j].id != id by {
        forall j | 0 <= j < |ps[1..]| ensures ps[1..][j].id != id {
          assert ps[j + 1].id != ps[0].id;
        }
      }
      WithoutAbsentId(ps[1..], id);
    } else {
      var i :| 0 <= i < |ps| && ps[i].id == id;
      assert ps[1..][i - 1].id == id;
      WithoutPresentId(ps[1..], id);
    }
  }

  lemma {:induction false} WithoutAbsentId(ps: seq<Profile>, id: string)
    requires forall j :: 0 <= j < |ps| ==> ps[j].id != id
    ensures WithoutId(ps, id) == ps
  {
    if ps != [] {
      WithoutAbsentId(ps[1..], id);
      assert [ps[0]] + ps[1..] == ps;
    }
  }

  /** The guard as written: refuse only when at most one profile is left. */
  predicate AsWrittenRefusesDelete(s: AppState)
  {
    |s.profiles| <= 1
  }

  /**
   * `deleteProfile` as written. `Failure` carries the state left behind when
   * the lookup of `profiles[0]` on an emptied registry throws: the registry
   * already reassigned to the empty filter result.
   */
  function DeleteProfileAsWritten(s: AppState): (r: Result<AppState, AppState>)
    requires |s.profiles| > 0
  {
    if AsWrittenRefusesDelete(s) then Success(s)
    else
      var rest := WithoutId(s.profiles, s.activeProfileId);
      if rest == [] then Failure(s.(profiles := rest))
      else Success(ResetCurrentSegment(s.(profiles := rest, activeProfileId := rest[0].id)))
  }

  /** Two profiles sharing the active id: the written guard lets the delete through and the registry ends empty. */
  lemma AsWrittenDeleteEmptiesRegistry()
    ensures var p := Classic.(id := "a");
            var s := AppState(Settings(false, false, false), [p, p], "a",
                              TimerState(Focus, 1500, false, 0, None, 0, 1500, 0), [], [], false, None, []);
            ValidState(s) && DeleteProfileAsWritten(s).Failure? && DeleteProfileAsWritten(s).error.profiles == []
  {
    var p := Classic.(id := "a");
    var s := AppState(Settings(false, false, false), [p, p], "a",
                      TimerState(Focus, 1500, false, 0, None, 0, 1500, 0), [], [], false, None, []);
    assert s.profiles[0].id == "a";
    assert WithoutId(s.profiles, "a") == [];
  }

  /** The guard as intended: refuse whenever the delete would leave no profile. */
  predicate RefusesDelete(s: AppState)
  {
    |s.profiles| <= 1 || WithoutId(s.profiles, s.activeProfileId) == []
  }

  /**
   * `deleteProfile` with the corrected guard: remove every profile carrying the
   * active id, activate the first one left and reset the segment.
   */
  function DeleteProfile(s: AppState): (r: AppState)
    requires |s.profiles| > 0
    ensures |r.profiles| > 0
  {
    if RefusesDelete(s) then s
    else
      var rest := WithoutId(s.profiles, s.activeProfileId);
      ResetCurrentSegment(s.(profiles := rest, activeProfileId := rest[0].id))
  }

  /** When ids are distinct (as the registry keeps them unless two copies share a clock reading) the guards agree. */
  lemma DeleteGuardsAgreeOnDistinctIds(s: AppState)
    requires |s.profiles| > 0 && DistinctIds(s.profiles) && HasProfile(s.profiles, s.activeProfileId)
    ensures RefusesDelete(s) <==> AsWrittenRefusesDelete(s)
    ensures DeleteProfileAsWritten(s) == Success(DeleteProfile(s))
  {
    if |s.profiles| > 1 {
      WithoutPresentId(s.profiles, s.activeProfileId);
    }
  }

  /**
   * A delete is refused when at most one profile exists; otherwise, with
   * distinct ids, it removes exactly the active profile, keeps every other
   * one, activates the first remaining profile and resets the segment.
   */
  lemma DeleteRemovesActive(s: AppState)
    requires |s.profiles| > 0
    ensures |s.profiles| <= 1 ==> DeleteProfile(s) == s
    ensures |s.profiles| > 1 && DistinctIds(s.profiles) && HasProfile(s.profiles, s.activeProfileId) ==>
              var r := DeleteProfile(s);
              |r.profiles| == |s.profiles| - 1 &&
              Active(s) !in r.profiles &&
              (forall p :: p in s.profiles && p != Active(s) ==> p in r.profiles) &&
              (forall k :: 0 <= k < |s.profiles| && s.profiles[k].id == s.activeProfileId ==>
                 r.profiles == s.profiles[..k] + s.profiles[k + 1..]) &&
              r.activeProfileId == r.profiles[0].id && Active(r) == r.profiles[0] &&
              r.timer.remainingSec == r.timer.segmentTotalSec == PhaseDurationSec(s.timer.phase, r.profiles[0]) &&
              !r.timer.isRunning && r.history == s.history && r.tasks == s.tasks
  {
    if |s.profiles| > 1 && DistinctIds(s.profiles) && HasProfile(s.profiles, s.activeProfileId) {
      WithoutPresentId(s.profiles, s.activeProfileId);
      var r := DeleteProfile(s);
      forall p | p in s.profiles && p != Active(s) ensures p in r.profiles {
        var i :| 0 <= i < |s.profiles| && s.profiles[i] == p;
        var k :| 0 <= k < |s.profiles| && s.profiles[k] == Active(s);
        assert i != k;
      }
      forall k | 0 <= k < |s.profiles| && s.profiles[k].id == s.activeProfileId
        ensures r.profiles == s.profiles[..k] + s.profiles[k + 1..]
      {
        WithoutOnlyAt(s.profiles, s.activeProfileId, k);
      }
      ActiveProfileIsFirstMatch(r.profiles, r.activeProfileId, 0);
    }
  }

  /** The corrected delete never leaves the registry empty or invalid. */
  lemma DeleteKeepsValid(s: AppState)
    requires ValidState(s)
    ensures ValidState(DeleteProfile(s))
    ensures DeleteProfile(s).history == s.history && DeleteProfile(s).tasks == s.tasks
  {
    if !RefusesDelete(s) {
      var rest := WithoutId(s.profiles, s.activeProfileId);
      var q := s.(profiles := rest, activeProfileId := rest[0].id);
      assert rest[0] in s.profiles;
      assert forall i :: 0 <= i < |rest| ==> rest[i] in s.profiles;
      assert RegistryOk(q);
      ResetKeepsValid(q);
    }
  }

  /** Choosing a profile from the list: activate it and reset the segment. */
  function SelectProfile(s: AppState, id: string): AppState
    requires |s.profiles| > 0
  {
    ResetCurrentSegment(s.(activeProfileId := id))
  }

  /** The list offers only registry ids: choosing one makes that profile active and restarts with its durations. */
  lemma SelectActivates(s: AppState, id: string)
    requires ValidState(s) && HasProfile(s.profiles, id)
    ensures var r := SelectProfile(s, id);
            ValidState(r) && Active(r).id == id &&
            r.timer.remainingSec == r.timer.segmentTotalSec == PhaseDurationSec(s.timer.phase, Active(r)) &&
            r.profiles == s.profiles && r.history == s.history && r.tasks == s.tasks
  {
    ResetKeepsValid(s.(activeProfileId := id));
  }
}
