/**
 * The whole mutable state of one timer instance as a value: the fields of the
 * source's single `state` object plus the ticker flag, the task selected in
 * the list, and the log of notifications sent to an embedding page.
 */
module AppModel {
  import opened Wrappers
  import opened Domain

  /** The two notifications posted to an embedding page on every segment transition. */
  datatype EmbedEvent = SessionComplete(phase: Phase) | PhaseSkip(phase: Phase) | PhaseChange(phase: Phase)

  datatype AppState = AppState(
    settings: Settings,
    profiles: seq<Profile>,
    activeProfileId: string,
    timer: TimerState,
    tasks: seq<Task>,
    history: seq<HistoryEntry>,
    ticking: bool,                    // a periodic tick evaluator is installed
    selectedTaskId: Option<string>,   // the task highlighted in the list
    events: seq<EmbedEvent>)

  /** The registry never empties, holds only valid profiles, and the active id names one of them. */
  predicate RegistryOk(s: AppState)
  {
    |s.profiles| > 0 &&
    (forall i :: 0 <= i < |s.profiles| ==> ProfileOk(s.profiles[i])) &&
    HasProfile(s.profiles, s.activeProfileId)
  }

  /**
   * What holds between user actions: a sound registry, a recognised phase, a
   * segment with time left and a positive length, and a ticker installed
   * exactly while the timer runs.
   */
  predicate ValidState(s: AppState)
  {
    RegistryOk(s) &&
    IsRecognized(s.timer.phase) &&
    s.timer.remainingSec > 0 &&
    s.timer.segmentTotalSec > 0 &&
    s.ticking == s.timer.isRunning
  }

  function Active(s: AppState): Profile
    requires |s.profiles| > 0
  {
    ActiveProfile(s.profiles, s.activeProfileId)
  }

  /** `state.tasks.findIndex((t) => t.id === id)`. */
  function TaskIndex(tasks: seq<Task>, id: string): (r: Option<nat>)
    ensures r.Some? ==> r.value < |tasks| && tasks[r.value].id == id &&
                        forall j :: 0 <= j < r.value ==> tasks[j].id != id
    ensures r.None? ==> forall j :: 0 <= j < |tasks| ==> tasks[j].id != id
  {
    FirstIndexWhere(tasks, (t: Task) => t.id == id)
  }

  /** Changing fields other than the id leaves every lookup by id where it was. */
  lemma TaskIndexAfterUpdate(tasks: seq<Task>, i: nat, t: Task, id: string)
    requires i < |tasks| && t.id == tasks[i].id
    ensures TaskIndex(tasks[i := t], id) == TaskIndex(tasks, id)
  {
    FirstIndexWhereAgrees(tasks, tasks[i := t], (x: Task) => x.id == id);
  }
}
