/**
 * Read-only folds over the history log: the current and the longest daily
 * streak, focus time grouped per task, the per-task totals table, the weekly
 * goal and the reward tier. Times are whole seconds and epoch milliseconds;
 * a day is a UTC bucket of 86 400 000 ms.
 */
module Analytics {
  import opened Wrappers
  import opened Domain
  import opened AppModel

  const DayMs: int := 86_400_000

  /** `startOfDay`: the start of the day bucket holding `ms` (rounding down, also before 1970). */
  function StartOfDay(ms: int): (r: int)
    ensures r <= ms < r + DayMs && r % DayMs == 0
  {
    ms - ms % DayMs
  }

  /** `sum` of `actualSec` over the focus entries that ended in `[from, to)`, in log order. */
  function FocusSecIn(history: seq<HistoryEntry>, from: int, to: int): int
  {
    if history == [] then 0
    else
      var h := history[|history| - 1];
      FocusSecIn(history[..|history| - 1], from, to) +
      (if h.phase == Focus && from <= h.endedAt < to then h.actualSec else 0)
  }

  /** Focus seconds logged on the day `i` days before the one holding `now`. */
  function DayFocusSec(history: seq<HistoryEntry>, now: int, i: nat): int
  {
    var dayStart := StartOfDay(now - i * DayMs);
    FocusSecIn(history, dayStart, dayStart + DayMs)
  }

  /**
   * `computeStreakDays`: consecutive days with focus time, counting back from
   * today, at most 366. Today without focus time gives 0 even if yesterday had some.
   */
  method ComputeStreakDays(history: seq<HistoryEntry>, now: int) returns (streak: nat)
    ensures streak <= 366
    ensures forall i: nat :: i < streak ==> DayFocusSec(history, now, i) > 0
    ensures streak < 366 ==> DayFocusSec(history, now, streak) <= 0
    ensures DayFocusSec(history, now, 0) <= 0 ==> streak == 0
  {
    streak := 0;
    var i := 0;
    while i < 366
      invariant 0 <= i <= 366 && streak == i
      invariant forall k: nat :: k < i ==> DayFocusSec(history, now, k) > 0
    {
      var dayStart := StartOfDay(now - i * DayMs);
      var seconds := FocusSecIn(history, dayStart, dayStart + DayMs);
      if seconds > 0 {
        streak := streak + 1;
      } else {
        break;
      }
      i := i + 1;
    }
  }

  /** The focus entries of the log, in order. */
  function FocusOnly(history: seq<HistoryEntry>): (r: seq<HistoryEntry>)
    ensures forall i :: 0 <= i < |r| ==> r[i] in history && r[i].phase == Focus
    ensures forall i :: 0 <= i < |history| && history[i].phase == Focus ==> history[i] in r
  {
    if history == [] then []
    else (if history[0].phase == Focus then [history[0]] else []) + FocusOnly(history[1..])
  }

  /** `Math.min(...entries.map((h) => h.endedAt))`. */
  function MinEndedAt(entries: seq<HistoryEntry>): (m: int)
    requires |entries| > 0
    ensures forall i :: 0 <= i < |entries| ==> m <= entries[i].endedAt
    ensures exists i :: 0 <= i < |entries| && m == entries[i].endedAt
  {
    if |entries| == 1 then entries[0].endedAt
    else
      var rest := MinEndedAt(entries[1..]);
      assert forall i :: 1 <= i < |entries| ==> entries[i] == entries[1..][i - 1];
      Min(entries[0].endedAt, rest)
  }

  /** The day bucket starting at `day` holds a focus entry with time on it. */
  predicate DayActive(history: seq<HistoryEntry>, day: int)
  {
    exists i :: 0 <= i < |history| && history[i].phase == Focus &&
                day <= history[i].endedAt < day + DayMs && history[i].actualSec > 0
  }

  /** Day number `k` counted from the day starting at `first`. */
  predicate ActiveDayAt(history: seq<HistoryEntry>, first: int, k: nat)
  {
    DayActive(history, first + k * DayMs)
  }

  /** The length of the run of active days ending with day `k`. */
  function RunEndingAt(history: seq<HistoryEntry>, first: int, k: nat): (r: nat)
    ensures r <= k + 1
  {
    if !ActiveDayAt(history, first, k) then 0
    else if k == 0 then 1
    else RunEndingAt(history, first, k - 1) + 1
  }

  /** `RunEndingAt` is the run it names: those days are all active and the day before it is not. */
  lemma {:induction false} RunEndingAtIsRun(history: seq<HistoryEntry>, first: int, k: nat)
    ensures forall j: nat :: k + 1 - RunEndingAt(history, first, k) <= j <= k ==> ActiveDayAt(history, first, j)
    ensures RunEndingAt(history, first, k) <= k ==> !ActiveDayAt(history, first, k - RunEndingAt(history, first, k))
  {
    if k > 0 && ActiveDayAt(history, first, k) {
      RunEndingAtIsRun(history, first, k - 1);
    }
  }

  predicate HasFocus(history: seq<HistoryEntry>)
  {
    exists i :: 0 <= i < |history| && history[i].phase == Focus
  }

  /** The first day bucket the longest streak looks at: the one holding the earliest focus entry. */
  function FirstFocusDay(history: seq<HistoryEntry>): int
    requires HasFocus(history)
  {
    var i :| 0 <= i < |history| && history[i].phase == Focus;
    assert history[i] in FocusOnly(history);
    StartOfDay(MinEndedAt(FocusOnly(history)))
  }

  /** `focusHistory.some(...)`: a focus entry in the bucket starting at `day` with time on it. */
  predicate HasMinutes(focus: seq<HistoryEntry>, day: int)
  {
    exists i :: 0 <= i < |focus| && day <= focus[i].endedAt < day + DayMs && focus[i].actualSec > 0
  }

  lemma HasMinutesOnlyIfActive(history: seq<HistoryEntry>, day: int)
    requires HasMinutes(FocusOnly(history), day)
    ensures DayActive(history, day)
  {
    var focus := FocusOnly(history);
    var i :| 0 <= i < |focus| && day <= focus[i].endedAt < day + DayMs && focus[i].actualSec > 0;
    var j :| 0 <= j < |history| && history[j] == focus[i];
    assert history[j].phase == Focus;
  }

  lemma ActiveOnlyIfHasMinutes(history: seq<HistoryEntry>, day: int)
    requires DayActive(history, day)
    ensures HasMinutes(FocusOnly(history), day)
  {
    var focus := FocusOnly(history);
    var j :| 0 <= j < |history| && history[j].phase == Focus &&
             day <= history[j].endedAt < day + DayMs && history[j].actualSec > 0;
    assert history[j] in focus;
    var i :| 0 <= i < |focus| && focus[i] == history[j];
  }

  /** Testing the focus entries for time in a day is testing the log. */
  lemma HasMinutesOfFocusOnly(history: seq<HistoryEntry>, day: int)
    ensures HasMinutes(FocusOnly(history), day) == DayActive(history, day)
  {
    if HasMinutes(FocusOnly(history), day) {
      HasMinutesOnlyIfActive(history, day);
    }
    if DayActive(history, day) {
      ActiveOnlyIfHasMinutes(history, day);
    }
  }

  lemma NextDay(first: int, k: nat)
    ensures first + (k + 1) * DayMs == first + k * DayMs + DayMs
  {
  }

  /** Once day `k` is past `last`, no later day is in range. */
  lemma PastLastDay(first: int, last: int, k: nat, j: nat)
    requires first + k * DayMs > last && DayInRange(first, last, j)
    ensures j < k
  {
  }

  /** Day `k` from `first` is no later than the day bucket `last`. */
  predicate DayInRange(first: int, last: int, k: nat)
  {
    first + k * DayMs <= last
  }

  /** `longest` is the longest run ending on one of the first `k` days, all of them up to `last`. */
  predicate LongestSoFar(history: seq<HistoryEntry>, first: int, last: int, k: nat, longest: nat)
  {
    (forall j: nat :: j < k ==> RunEndingAt(history, first, j) <= longest) &&
    (longest == 0 || exists j: nat :: j < k && DayInRange(first, last, j) && RunEndingAt(history, first, j) == longest)
  }

  /** One more day: the run ending on it is one longer than yesterday's, or 0, and the maximum takes it in. */
  lemma ExtendLongest(history: seq<HistoryEntry>, first: int, last: int, k: nat, longest: nat)
    requires LongestSoFar(history, first, last, k, longest) && DayInRange(first, last, k)
    ensures RunEndingAt(history, first, k) ==
              if ActiveDayAt(history, first, k) then (if k == 0 then 0 else RunEndingAt(history, first, k - 1)) + 1 else 0
    ensures LongestSoFar(history, first, last, k + 1, Max(longest, RunEndingAt(history, first, k)))
  {
    var next := Max(longest, RunEndingAt(history, first, k));
    forall j: nat | j < k + 1 ensures RunEndingAt(history, first, j) <= next {
      if j < k {
        assert RunEndingAt(history, first, j) <= longest;
      }
    }
    if next != longest {
      assert RunEndingAt(history, first, k) == next;
    } else if longest != 0 {
      var j: nat :| j < k && DayInRange(first, last, j) && RunEndingAt(history, first, j) == longest;
      assert j < k + 1;
    }
  }

  /**
   * `longest` is the longest run of active days ending on a day from `first`
   * up to the bucket `last`: no run is longer, and one that long exists (or it is 0).
   */
  ghost predicate IsLongestRun(history: seq<HistoryEntry>, first: int, last: int, longest: nat)
  {
    (forall k: nat :: DayInRange(first, last, k) ==> RunEndingAt(history, first, k) <= longest) &&
    (longest == 0 || exists k: nat :: DayInRange(first, last, k) && RunEndingAt(history, first, k) == longest)
  }

  /** Once the walk is past `last`, the first `k` days are the days up to `last`. */
  lemma LongestOfAllDays(history: seq<HistoryEntry>, first: int, last: int, k: nat, longest: nat)
    requires LongestSoFar(history, first, last, k, longest) && first + k * DayMs > last
    ensures IsLongestRun(history, first, last, longest)
  {
    forall j: nat | DayInRange(first, last, j) ensures RunEndingAt(history, first, j) <= longest {
      PastLastDay(first, last, k, j);
    }
  }

  /** The log has a focus entry exactly when its focus entries are not empty. */
  lemma HasFocusOfFocusOnly(history: seq<HistoryEntry>)
    ensures HasFocus(history) <==> |FocusOnly(history)| > 0
  {
    var focus := FocusOnly(history);
    if HasFocus(history) {
      var i :| 0 <= i < |history| && history[i].phase == Focus;
      assert history[i] in focus;
    }
    if |focus| > 0 {
      assert focus[0] in history;
    }
  }

  /** One pass of the day walk: the counters after it are the run ending on day `k` and the longest so far. */
  lemma StreakStep(history: seq<HistoryEntry>, first: int, last: int, k: nat, current: nat, longest: nat,
                   has: bool, current': nat, longest': nat)
    requires DayInRange(first, last, k) && LongestSoFar(history, first, last, k, longest)
    requires current == (if k == 0 then 0 else RunEndingAt(history, first, k - 1))
    requires has == ActiveDayAt(history, first, k)
    requires current' == (if has then current + 1 else 0) && longest' == (if has then Max(longest, current') else longest)
    ensures current' == RunEndingAt(history, first, k) && LongestSoFar(history, first, last, k + 1, longest')
  {
    ExtendLongest(history, first, last, k, longest);
  }

  /**
   * `computeLongestStreakDays`: walks the days from the earliest focus entry's
   * up to today's and returns the longest run of days with time on a focus
   * entry; 0 when the log has no focus entry.
   */
  method ComputeLongestStreakDays(history: seq<HistoryEntry>, now: int) returns (longest: nat)
    ensures !HasFocus(history) ==> longest == 0
    ensures HasFocus(history) ==> IsLongestRun(history, FirstFocusDay(history), StartOfDay(now), longest)
  {
    var focus := FocusOnly(history);
    HasFocusOfFocusOnly(history);
    if |focus| == 0 {
      return 0;
    }
    var first := StartOfDay(MinEndedAt(focus));
    assert first == FirstFocusDay(history);
    forall day | true ensures HasMinutes(focus, day) <==> DayActive(history, day) {
      HasMinutesOfFocusOnly(history, day);
    }
    longest := WalkDays(history, focus, first, StartOfDay(now));
  }

  /** The day walk of `computeLongestStreakDays`, from the bucket `first` through the bucket `last`. */
  method WalkDays(history: seq<HistoryEntry>, focus: seq<HistoryEntry>, first: int, last: int) returns (longest: nat)
    requires forall day :: HasMinutes(focus, day) <==> DayActive(history, day)
    ensures IsLongestRun(history, first, last, longest)
  {
    longest := 0;
    var current: nat := 0;
    var day := first;
    ghost var k: nat := 0;
    while day <= last
      invariant day == first + k * DayMs
      invariant current == (if k == 0 then 0 else RunEndingAt(history, first, k - 1))
      invariant LongestSoFar(history, first, last, k, longest)
      decreases last - day
    {
      var hasMinutes := HasMinutes(focus, day);
      ghost var current0, longest0 := current, longest;
      if hasMinutes {
        current := current + 1;
        longest := Max(longest, current);
      } else {
        current := 0;
      }
      StreakStep(history, first, last, k, current0, longest0, hasMinutes, current, longest);
      NextDay(first, k);
      day := day + DayMs;
      k := k + 1;
    }
    LongestOfAllDays(history, first, last, k, longest);
  }

  /** A log entry that `computeTaskUsageMap` / `computeTaskTotals` count: focus, a task id, and inside the window. */
  predicate Counted(h: HistoryEntry, from: Option<int>)
  {
    h.phase == Focus && TaskRef(h.taskId).Some? && (from.None? || h.endedAt >= from.value)
  }

  datatype Usage = Usage(sessions: nat, seconds: int)

  /** Sessions and seconds counted for one task id. */
  function UsageFor(history: seq<HistoryEntry>, id: string, from: Option<int>): Usage
  {
    if history == [] then Usage(0, 0)
    else
      var u := UsageFor(history[..|history| - 1], id, from);
      var h := history[|history| - 1];
      if Counted(h, from) && h.taskId.value == id then Usage(u.sessions + 1, u.seconds + h.actualSec) else u
  }

  /** The counted task ids in the order a `Map` first receives them. */
  function FirstSeenIds(history: seq<HistoryEntry>, from: Option<int>): seq<string>
  {
    if history == [] then []
    else
      var o := FirstSeenIds(history[..|history| - 1], from);
      var h := history[|history| - 1];
      if Counted(h, from) && h.taskId.value !in o then o + [h.taskId.value] else o
  }

  predicate NoDups<T(==)>(s: seq<T>)
  {
    forall i, j :: 0 <= i < j < |s| ==> s[i] != s[j]
  }

  /** Some counted entry carries the task id. */
  predicate HasCountedId(history: seq<HistoryEntry>, from: Option<int>, id: string)
  {
    exists i :: 0 <= i < |history| && Counted(history[i], from) && history[i].taskId.value == id
  }

  lemma HasCountedIdSplit(history: seq<HistoryEntry>, from: Option<int>, id: string)
    requires history != []
    ensures var n := |history| - 1;
            HasCountedId(history, from, id) <==>
              HasCountedId(history[..n], from, id) || (Counted(history[n], from) && history[n].taskId.value == id)
  {
    var n := |history| - 1;
    if HasCountedId(history, from, id) {
      var i :| 0 <= i < |history| && Counted(history[i], from) && history[i].taskId.value == id;
      if i < n { assert history[..n][i] == history[i]; }
    }
    if HasCountedId(history[..n], from, id) {
      var i :| 0 <= i < n && Counted(history[..n][i], from) && history[..n][i].taskId.value == id;
      assert history[i] == history[..n][i];
    }
  }

  /** Each id appears once, exactly the ids of counted entries, and exactly those with a session. */
  lemma {:induction false} FirstSeenIdsAreTheCountedIds(history: seq<HistoryEntry>, from: Option<int>)
    ensures NoDups(FirstSeenIds(history, from))
    ensures forall id :: id in FirstSeenIds(history, from) <==> UsageFor(history, id, from).sessions > 0
    ensures forall id :: id !in FirstSeenIds(history, from) ==> UsageFor(history, id, from) == Usage(0, 0)
    ensures forall id :: id in FirstSeenIds(history, from) <==> HasCountedId(history, from, id)
  {
    if history != [] {
      var prefix := history[..|history| - 1];
      FirstSeenIdsAreTheCountedIds(prefix, from);
      forall id ensures HasCountedId(history, from, id) <==>
                        HasCountedId(prefix, from, id) ||
                        (Counted(history[|history| - 1], from) && history[|history| - 1].taskId.value == id)
      {
        HasCountedIdSplit(history, from, id);
      }
    }
  }

  lemma UnseenIdHasNoUsage(history: seq<HistoryEntry>, from: Option<int>, id: string)
    requires id !in FirstSeenIds(history, from)
    ensures UsageFor(history, id, from) == Usage(0, 0)
  {
    FirstSeenIdsAreTheCountedIds(history, from);
  }

  /**
   * The grouping loop shared by `computeTaskUsageMap` (no window) and
   * `computeTaskTotals` (entries ending at or after `from`): a `Map` from task
   * id to sessions and seconds, and its key order.
   */
  method GroupFocusByTask(history: seq<HistoryEntry>, from: Option<int>) returns (usage: map<string, Usage>, order: seq<string>)
    ensures order == FirstSeenIds(history, from) && NoDups(order)
    ensures forall id :: id in usage <==> id in order
    ensures forall id :: id in usage ==> usage[id] == UsageFor(history, id, from) && usage[id].sessions > 0
  {
    usage := map[];
    order := [];
    var i := 0;
    while i < |history|
      invariant 0 <= i <= |history|
      invariant order == FirstSeenIds(history[..i], from)
      invariant forall id :: id in usage <==> id in order
      invariant forall id :: id in usage ==> usage[id] == UsageFor(history[..i], id, from)
    {
      var h := history[i];
      assert history[..i + 1][..i] == history[..i];
      if Counted(h, from) {
        var id := h.taskId.value;
        if id !in usage {
          UnseenIdHasNoUsage(history[..i], from, id);
        }
        var entry := if id in usage then usage[id] else Usage(0, 0);
        usage := usage[id := Usage(entry.sessions + 1, entry.seconds + h.actualSec)];
        if id !in order {
          order := order + [id];
        }
      }
      i := i + 1;
    }
    assert history[..|history|] == history;
    FirstSeenIdsAreTheCountedIds(history, from);
  }

  /** `computeTaskUsageMap`: sessions and seconds of focus per task id over the whole log. */
  method ComputeTaskUsageMap(history: seq<HistoryEntry>) returns (usage: map<string, Usage>)
    ensures forall id :: id in usage <==> HasCountedId(history, None, id)
    ensures forall id :: id in usage ==> usage[id] == UsageFor(history, id, None)
  {
    var order;
    usage, order := GroupFocusByTask(history, None);
    FirstSeenIdsAreTheCountedIds(history, None);
  }

  /** A row of the per-task table: the title, or "Deleted Task" for an id no task has any more. */
  datatype TaskTotal = TaskTotal(taskId: string, seconds: int, sessions: nat, title: string)

  function TitleFor(tasks: seq<Task>, id: string): (t: string)
    ensures (forall j :: 0 <= j < |tasks| ==> tasks[j].id != id) ==> t == "Deleted Task"
    ensures TaskIndex(tasks, id).Some? ==> t == tasks[TaskIndex(tasks, id).value].title
  {
    match TaskIndex(tasks, id)
    case Some(i) => tasks[i].title
    case None => "Deleted Task"
  }

  function RowFor(history: seq<HistoryEntry>, tasks: seq<Task>, from: Option<int>, id: string): TaskTotal
  {
    var u := UsageFor(history, id, from);
    TaskTotal(id, u.seconds, u.sessions, TitleFor(tasks, id))
  }

  predicate SortedDesc(rows: seq<TaskTotal>)
  {
    forall i, j :: 0 <= i < j < |rows| ==> rows[i].seconds >= rows[j].seconds
  }

  lemma AppendKeepsSorted(front: seq<TaskTotal>, y: TaskTotal)
    requires SortedDesc(front) && forall z :: z in front ==> z.seconds >= y.seconds
    ensures SortedDesc(front + [y])
  {
    forall i, j | 0 <= i < j < |front| + 1 ensures (front + [y])[i].seconds >= (front + [y])[j].seconds {
      if j == |front| { assert (front + [y])[i] in front; }
    }
  }

  /** Insert after every row with at least as many seconds: the step of a stable descending sort. */
  function InsertDesc(sorted: seq<TaskTotal>, x: TaskTotal): (r: seq<TaskTotal>)
    requires SortedDesc(sorted)
    ensures SortedDesc(r) && multiset(r) == multiset(sorted) + multiset{x} && |r| == |sorted| + 1
  {
    if sorted == [] then [x]
    else
      var n := |sorted| - 1;
      var last := sorted[n];
      if last.seconds >= x.seconds then
        AppendKeepsSorted(sorted, x);
        sorted + [x]
      else
        assert sorted == sorted[..n] + [last];
        var front := InsertDesc(sorted[..n], x);
        forall z | z in front ensures z.seconds >= last.seconds {
          assert z in multiset(front);
          if z != x { assert z in sorted[..n]; }
        }
        AppendKeepsSorted(front, last);
        front + [last]
  }

  /** `.sort((a, b) => b.minutes - a.minutes)`. */
  function SortDesc(rows: seq<TaskTotal>): (r: seq<TaskTotal>)
    ensures SortedDesc(r) && multiset(r) == multiset(rows) && |r| == |rows|
  {
    if rows == [] then []
    else
      assert rows == rows[..|rows| - 1] + [rows[|rows| - 1]];
      InsertDesc(SortDesc(rows[..|rows| - 1]), rows[|rows| - 1])
  }

  /** A value twice in a sequence's multiset sits at two positions. */
  lemma {:induction false} TwiceMeansDuplicate<T>(s: seq<T>, x: T)
    requires multiset(s)[x] >= 2
    ensures !NoDups(s)
  {
    var n := |s| - 1;
    assert s == s[..n] + [s[n]];
    if s[n] == x {
      assert x in multiset(s[..n]);
      var i :| 0 <= i < n && s[..n][i] == x;
      assert s[i] == s[n];
    } else {
      TwiceMeansDuplicate(s[..n], x);
      var i, j :| 0 <= i < j < n && s[..n][i] == s[..n][j];
      assert s[i] == s[j];
    }
  }

  lemma NoDupsOfPermutation<T>(a: seq<T>, b: seq<T>)
    requires multiset(a) == multiset(b) && NoDups(a)
    ensures NoDups(b)
  {
    if !NoDups(b) {
      var i, j :| 0 <= i < j < |b| && b[i] == b[j];
      assert b == b[..j] + [b[j]] + b[j + 1..];
      assert b[i] in multiset(b[..j]) by { assert b[..j][i] == b[i]; }
      assert multiset(b)[b[j]] >= 2;
      TwiceMeansDuplicate(a, b[j]);
    }
  }

  predicate RowsHaveId(rows: seq<TaskTotal>, id: string)
  {
    exists i :: 0 <= i < |rows| && rows[i].taskId == id
  }

  /** `unsorted` holds the row of each id of `order`, in that order. */
  predicate RowsOfOrder(history: seq<HistoryEntry>, tasks: seq<Task>, from: Option<int>, order: seq<string>, unsorted: seq<TaskTotal>)
  {
    |unsorted| == |order| && forall k :: 0 <= k < |order| ==> unsorted[k] == RowFor(history, tasks, from, order[k])
  }

  lemma RowsAreRowsFor(history: seq<HistoryEntry>, tasks: seq<Task>, from: Option<int>, order: seq<string>,
                       unsorted: seq<TaskTotal>, rows: seq<TaskTotal>)
    requires order == FirstSeenIds(history, from)
    requires RowsOfOrder(history, tasks, from, order, unsorted) && multiset(rows) == multiset(unsorted)
    ensures forall i :: 0 <= i < |rows| ==>
              rows[i] == RowFor(history, tasks, from, rows[i].taskId) && rows[i].taskId in order && rows[i].sessions > 0
  {
    FirstSeenIdsAreTheCountedIds(history, from);
    forall i | 0 <= i < |rows|
      ensures rows[i] == RowFor(history, tasks, from, rows[i].taskId) && rows[i].taskId in order && rows[i].sessions > 0
    {
      assert rows[i] in multiset(unsorted);
      var k :| 0 <= k < |unsorted| && unsorted[k] == rows[i];
      assert rows[i].taskId == order[k];
    }
  }

  lemma OrderIdsHaveRows(history: seq<HistoryEntry>, tasks: seq<Task>, from: Option<int>, order: seq<string>,
                         unsorted: seq<TaskTotal>, rows: seq<TaskTotal>, id: string)
    requires RowsOfOrder(history, tasks, from, order, unsorted) && multiset(rows) == multiset(unsorted)
    requires id in order
    ensures RowsHaveId(rows, id)
  {
    var k :| 0 <= k < |order| && order[k] == id;
    assert unsorted[k] in multiset(rows);
    var i :| 0 <= i < |rows| && rows[i] == unsorted[k];
    assert rows[i].taskId == id;
  }

  /** The sorted rows are the rows of the counted ids, once each. */
  lemma SortedRowsAreTheCountedRows(history: seq<HistoryEntry>, tasks: seq<Task>, from: Option<int>, order: seq<string>,
                                    unsorted: seq<TaskTotal>, rows: seq<TaskTotal>)
    requires order == FirstSeenIds(history, from)
    requires RowsOfOrder(history, tasks, from, order, unsorted) && multiset(rows) == multiset(unsorted) && NoDups(rows)
    ensures forall i :: 0 <= i < |rows| ==> rows[i] == RowFor(history, tasks, from, rows[i].taskId) && rows[i].sessions > 0
    ensures forall id :: RowsHaveId(rows, id) <==> HasCountedId(history, from, id)
    ensures forall i, j :: 0 <= i < j < |rows| ==> rows[i].taskId != rows[j].taskId
  {
    RowsAreRowsFor(history, tasks, from, order, unsorted, rows);
    FirstSeenIdsAreTheCountedIds(history, from);
    forall i, j | 0 <= i < j < |rows| ensures rows[i].taskId != rows[j].taskId {
      assert rows[i] != rows[j];
    }
    forall id ensures RowsHaveId(rows, id) <==> HasCountedId(history, from, id) {
      if id in order {
        OrderIdsHaveRows(history, tasks, from, order, unsorted, rows, id);
      }
    }
  }

  /**
   * `computeTaskTotals(rangeDays)`: one row per task id with focus time in the
   * last `rangeDays` days, holding its seconds, sessions and title, ordered by
   * seconds, most first.
   */
  method ComputeTaskTotals(history: seq<HistoryEntry>, tasks: seq<Task>, rangeDays: int, now: int) returns (rows: seq<TaskTotal>)
    ensures var from := Some(now - rangeDays * DayMs);
            SortedDesc(rows) &&
            (forall i :: 0 <= i < |rows| ==> rows[i] == RowFor(history, tasks, from, rows[i].taskId) && rows[i].sessions > 0) &&
            (forall id :: RowsHaveId(rows, id) <==> HasCountedId(history, from, id)) &&
            (forall i, j :: 0 <= i < j < |rows| ==> rows[i].taskId != rows[j].taskId)
  {
    var from := Some(now - rangeDays * DayMs);
    var usage, order := GroupFocusByTask(history, from);
    var unsorted := seq(|order|, i requires 0 <= i < |order| =>
                          var u := usage[order[i]]; TaskTotal(order[i], u.seconds, u.sessions, TitleFor(tasks, order[i])));
    assert RowsOfOrder(history, tasks, from, order, unsorted);
    rows := SortDesc(unsorted);
    assert NoDups(unsorted) by {
      forall i, j | 0 <= i < j < |unsorted| ensures unsorted[i] != unsorted[j] {
        assert unsorted[i].taskId == order[i];
      }
    }
    NoDupsOfPermutation(unsorted, rows);
    SortedRowsAreTheCountedRows(history, tasks, from, order, unsorted, rows);
  }

  /** `sum` of `actualSec` over the focus entries that ended at or after `from`. */
  function FocusSecSince(history: seq<HistoryEntry>, from: int): int
  {
    if history == [] then 0
    else
      var h := history[|history| - 1];
      FocusSecSince(history[..|history| - 1], from) + (if h.phase == Focus && h.endedAt >= from then h.actualSec else 0)
  }

  /** Focus seconds of the last seven days: entries ending at or after `now` minus seven days. */
  function WeekFocusSec(history: seq<HistoryEntry>, now: int): int
  {
    FocusSecSince(history, now - 7 * DayMs)
  }

  /**
   * Logging one more segment changes the week's focus seconds by that entry's
   * seconds when it is a focus entry inside the seven-day window and by nothing
   * otherwise; so with non-negative seconds, finishing a segment never lowers
   * the weekly percentage or the tier.
   */
  lemma WeekFocusAfterLogging(history: seq<HistoryEntry>, e: HistoryEntry, now: int)
    ensures WeekFocusSec(history + [e], now) ==
              WeekFocusSec(history, now) + (if e.phase == Focus && e.endedAt >= now - 7 * DayMs then e.actualSec else 0)
    ensures e.actualSec >= 0 ==>
              WeeklyGoalPct(WeekFocusSec(history, now)) <= WeeklyGoalPct(WeekFocusSec(history + [e], now)) &&
              TierRank(RewardTier(WeekFocusSec(history, now))) <= TierRank(RewardTier(WeekFocusSec(history + [e], now)))
  {
    assert (history + [e])[..|history|] == history;
    var before, after := WeekFocusSec(history, now), WeekFocusSec(history + [e], now);
    if e.actualSec >= 0 {
      WeeklyGoalPctIsMonotone(before, after);
      RewardTierIsMonotone(before, after);
    }
  }

  /** The weekly goal, 600 minutes. */
  const WeeklyGoalSec: int := 600 * 60

  /**
   * The weekly goal percentage: `Math.min(100, Math.round(minutes / 600 * 100))`,
   * that is the seconds over 360 rounded half up, capped at 100.
   */
  function WeeklyGoalPct(weekSec: int): (r: int)
    ensures r <= 100
    ensures r == 100 <==> weekSec >= WeeklyGoalSec - 180
    ensures 0 <= weekSec ==> 0 <= r
    ensures 0 <= weekSec <= WeeklyGoalSec ==> (r * 360 - 180 <= weekSec < r * 360 + 180)
  {
    Min(100, (weekSec + 180) / 360)
  }

  /** More focus time never lowers the percentage. */
  lemma WeeklyGoalPctIsMonotone(a: int, b: int)
    requires a <= b
    ensures WeeklyGoalPct(a) <= WeeklyGoalPct(b)
  {
    assert (a + 180) / 360 <= (b + 180) / 360;
  }

  datatype Tier = Starter | Flow | DeepWork | Legend

  function TierRank(t: Tier): nat
  {
    match t
    case Starter => 0
    case Flow => 1
    case DeepWork => 2
    case Legend => 3
  }

  /** `rewardTierFromMinutes` on seconds: Legend from 600 minutes, Deep Work from 300, Flow from 120, else Starter. */
  function RewardTier(weeklySec: int): (t: Tier)
    ensures t == Legend <==> weeklySec >= 600 * 60
    ensures t == DeepWork <==> 300 * 60 <= weeklySec < 600 * 60
    ensures t == Flow <==> 120 * 60 <= weeklySec < 300 * 60
    ensures t == Starter <==> weeklySec < 120 * 60
  {
    if weeklySec >= 600 * 60 then Legend
    else if weeklySec >= 300 * 60 then DeepWork
    else if weeklySec >= 120 * 60 then Flow
    else Starter
  }

  /** The tier only rises with more focus time, and reaching the weekly goal is reaching Legend. */
  lemma RewardTierIsMonotone(a: int, b: int)
    requires a <= b
    ensures TierRank(RewardTier(a)) <= TierRank(RewardTier(b))
    ensures a >= WeeklyGoalSec ==> RewardTier(a) == Legend && WeeklyGoalPct(a) == 100
  {
  }
}
