/**
 * The task ledger: adding a task from the input field and the per-task
 * actions of the list (toggle, attach, move up, move down, delete), with the
 * session attachment they maintain.
 */
module TaskLedger {
  import opened Wrappers
  import opened Text
  import opened Domain
  import opened AppModel
  import opened TimerMachine
  import opened Persistence

  /** The id `addTask` generates: "t_", a clock reading, "_" and a random draw. */
  function NewTaskId(now: nat, rand: nat): string
  {
    "t_" + NatToString(now) + "_" + NatToString(rand)
  }

  /**
   * `addTask`: `input` is the text field, `idNow` the clock reading in the id,
   * `createdNow` the one for the creation time, `rand` the random draw.
   */
  function AddTask(s: AppState, input: string, idNow: nat, createdNow: nat, rand: nat): AppState
  {
    var title := Trim(input);
    if title == "" then s
    else
      var task := SanitizeTask(Obj(RawTask(Some(NewTaskId(idNow, rand)), Some(title), Some(false),
                                           Some(createdNow), Some(0))), createdNow);
      s.(tasks := s.tasks + [task], selectedTaskId := Some(task.id),
         timer := s.timer.(sessionTaskId := Some(task.id)))
  }

  /** A title that trims to nothing is ignored. */
  lemma AddBlankTaskIsIgnored(s: AppState, input: string, idNow: nat, createdNow: nat, rand: nat)
    requires forall i :: 0 <= i < |input| ==> IsJsSpace(input[i])
    ensures AddTask(s, input, idNow, createdNow, rand) == s
  {
  }

  /**
   * Otherwise exactly one open task with the trimmed title and no pomodoros is
   * appended, and both the selection and the session point at it; when its id
   * is new, the next completed focus segment credits it.
   */
  lemma AddTaskAppendsAndAttaches(s: AppState, input: string, idNow: nat, createdNow: nat, rand: nat)
    requires Trim(input) != ""
    ensures var r := AddTask(s, input, idNow, createdNow, rand);
            var id := NewTaskId(idNow, rand);
            r.tasks == s.tasks + [Task(id, Trim(input), false, createdNow, 0)] &&
            r.selectedTaskId == Some(id) && r.timer.sessionTaskId == Some(id) &&
            TaskRef(r.timer.sessionTaskId) == Some(id) &&
            r.timer == s.timer.(sessionTaskId := Some(id)) &&
            r.history == s.history && r.profiles == s.profiles && r.settings == s.settings &&
            ((forall j :: 0 <= j < |s.tasks| ==> s.tasks[j].id != id) ==> TaskIndex(r.tasks, id) == Some(|s.tasks|))
  {
    var id := NewTaskId(idNow, rand);
    var r := AddTask(s, input, idNow, createdNow, rand);
    assert id != "";
    if forall j :: 0 <= j < |s.tasks| ==> s.tasks[j].id != id {
      assert r.tasks[|s.tasks|].id == id;
    }
  }

  lemma AddTaskKeepsValid(s: AppState, input: string, idNow: nat, createdNow: nat, rand: nat)
    requires ValidState(s)
    ensures ValidState(AddTask(s, input, idNow, createdNow, rand))
  {
  }

  /** The `data-action` of the button or checkbox clicked. */
  datatype TaskAction = Toggle | Attach | MoveUp | MoveDown | Delete

  /** The list with positions `i` and `j` exchanged. */
  function Swap(tasks: seq<Task>, i: nat, j: nat): (r: seq<Task>)
    requires i < |tasks| && j < |tasks|
    ensures |r| == |tasks| && r[i] == tasks[j] && r[j] == tasks[i]
    ensures forall k :: 0 <= k < |tasks| && k != i && k != j ==> r[k] == tasks[k]
    ensures multiset(r) == multiset(tasks)
  {
    tasks[i := tasks[j]][j := tasks[i]]
  }

  /** `onTaskAction`: nothing happens for an id the list does not hold; otherwise the first task with it is acted on. */
  function OnTaskAction(s: AppState, action: TaskAction, id: string): AppState
  {
    match TaskIndex(s.tasks, id)
    case None => s
    case Some(idx) =>
      match action
      case Toggle => s.(tasks := s.tasks[idx := s.tasks[idx].(done := !s.tasks[idx].done)])
      case Attach => s.(selectedTaskId := Some(id), timer := s.timer.(sessionTaskId := Some(id)))
      case MoveUp => if idx > 0 then s.(tasks := Swap(s.tasks, idx - 1, idx)) else s
      case MoveDown => if idx < |s.tasks| - 1 then s.(tasks := Swap(s.tasks, idx + 1, idx)) else s
      case Delete =>
        s.(tasks := s.tasks[..idx] + s.tasks[idx + 1..],
           timer := s.timer.(sessionTaskId := if s.timer.sessionTaskId == Some(id) then None else s.timer.sessionTaskId),
           selectedTaskId := if s.selectedTaskId == Some(id) then None else s.selectedTaskId)
  }

  lemma UnknownIdIsIgnored(s: AppState, action: TaskAction, id: string)
    requires forall j :: 0 <= j < |s.tasks| ==> s.tasks[j].id != id
    ensures OnTaskAction(s, action, id) == s
  {
  }

  /** Moving reorders the list and nothing else: the same tasks, and no change at the first (up) or last (down) row. */
  lemma MoveIsPermutation(s: AppState, action: TaskAction, id: string)
    requires action == MoveUp || action == MoveDown
    ensures var r := OnTaskAction(s, action, id);
            multiset(r.tasks) == multiset(s.tasks) &&
            r == s.(tasks := r.tasks) &&
            (TaskIndex(s.tasks, id) == Some(0) && action == MoveUp ==> r == s) &&
            (TaskIndex(s.tasks, id) == Some(|s.tasks| - 1) && action == MoveDown ==> r == s)
  {
  }

  /** Away from the first row, "up" exchanges the task with the one above it. */
  lemma MoveUpSwapsWithPrevious(s: AppState, id: string, idx: nat)
    requires TaskIndex(s.tasks, id) == Some(idx) && idx > 0
    ensures var r := OnTaskAction(s, MoveUp, id);
            r.tasks[idx - 1] == s.tasks[idx] && r.tasks[idx] == s.tasks[idx - 1] &&
            forall k :: 0 <= k < |s.tasks| && k != idx && k != idx - 1 ==> r.tasks[k] == s.tasks[k]
  {
  }

  lemma TaskIndexIs(tasks: seq<Task>, id: string, i: nat)
    requires i < |tasks| && tasks[i].id == id && forall j :: 0 <= j < i ==> tasks[j].id != id
    ensures TaskIndex(tasks, id) == Some(i)
  {
    var q := TaskIndex(tasks, id);
    assert !(q.value < i);
  }

  lemma SwapTwice(tasks: seq<Task>, i: nat, j: nat)
    requires i < |tasks| && j < |tasks|
    ensures Swap(Swap(tasks, i, j), j, i) == tasks
  {
  }

  /** Moving a task up and then down again (by the same id) restores the list. */
  lemma MoveUpThenDownRestores(s: AppState, id: string, idx: nat)
    requires TaskIndex(s.tasks, id) == Some(idx) && idx > 0
    ensures OnTaskAction(OnTaskAction(s, MoveUp, id), MoveDown, id) == s
  {
    var t := Swap(s.tasks, idx - 1, idx);
    TaskIndexIs(t, id, idx - 1);
    var u := s.(tasks := t);
    assert OnTaskAction(s, MoveUp, id) == u;
    assert OnTaskAction(u, MoveDown, id) == u.(tasks := Swap(t, idx, idx - 1));
    SwapTwice(s.tasks, idx - 1, idx);
  }

  /** Toggling flips `done` on that task alone, and toggling twice changes nothing. */
  lemma ToggleTwiceRestores(s: AppState, id: string, idx: nat)
    requires TaskIndex(s.tasks, id) == Some(idx)
    ensures var r := OnTaskAction(s, Toggle, id);
            r.tasks[idx].done == !s.tasks[idx].done && r == s.(tasks := r.tasks) &&
            r.tasks == s.tasks[idx := s.tasks[idx].(done := !s.tasks[idx].done)] &&
            OnTaskAction(r, Toggle, id) == s
  {
    var r := OnTaskAction(s, Toggle, id);
    TaskIndexAfterUpdate(s.tasks, idx, r.tasks[idx], id);
    assert r.tasks[idx := r.tasks[idx].(done := !r.tasks[idx].done)] == s.tasks;
  }

  /** Attaching points the selection and the session at the task and changes neither the list nor the log. */
  lemma AttachPointsSessionAtTask(s: AppState, id: string)
    requires TaskIndex(s.tasks, id).Some? && id != ""
    ensures var r := OnTaskAction(s, Attach, id);
            r.timer.sessionTaskId == Some(id) && r.selectedTaskId == Some(id) && r.tasks == s.tasks &&
            TaskRef(r.timer.sessionTaskId) == Some(id) && r.history == s.history
  {
  }

  /**
   * Deleting removes exactly that task, keeping the order of the rest, and
   * clears the session and the selection exactly when they pointed at it.
   */
  lemma DeleteRemovesExactlyOne(s: AppState, id: string, idx: nat)
    requires TaskIndex(s.tasks, id) == Some(idx)
    ensures var r := OnTaskAction(s, Delete, id);
            |r.tasks| == |s.tasks| - 1 &&
            r.tasks == s.tasks[..idx] + s.tasks[idx + 1..] &&
            multiset(r.tasks) + multiset{s.tasks[idx]} == multiset(s.tasks) &&
            (r.timer.sessionTaskId.None? <==> s.timer.sessionTaskId.None? || s.timer.sessionTaskId == Some(id)) &&
            (s.timer.sessionTaskId != Some(id) ==> r.timer.sessionTaskId == s.timer.sessionTaskId) &&
            (r.selectedTaskId.None? <==> s.selectedTaskId.None? || s.selectedTaskId == Some(id)) &&
            r.timer == s.timer.(sessionTaskId := r.timer.sessionTaskId) && r.history == s.history
  {
    assert s.tasks == s.tasks[..idx] + [s.tasks[idx]] + s.tasks[idx + 1..];
  }

  /** After deleting the attached task, the next finished segment is logged with no task and credits nothing. */
  lemma DeleteThenFinishLogsNoTask(s: AppState, id: string, completed: bool, now: int, later: int, entryId: string)
    requires |s.profiles| > 0 && TaskIndex(s.tasks, id).Some? && s.timer.sessionTaskId == Some(id)
    ensures var d := OnTaskAction(s, Delete, id);
            var r := FinishSegment(d, completed, now, later, entryId);
            r.history[|s.history|].taskId == None && r.tasks == d.tasks
  {
    FinishLogsOneEntry(OnTaskAction(s, Delete, id), completed, now, later, entryId);
  }

  lemma TaskActionKeepsValid(s: AppState, action: TaskAction, id: string)
    requires ValidState(s)
    ensures ValidState(OnTaskAction(s, action, id))
  {
  }
}
