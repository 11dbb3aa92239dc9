/**
 * The weekly report (`generateWeeklyReport` and its helpers). Dates are day
 * numbers (days since 1970-01-01) and times are minutes counted from the
 * epoch in local time. The code builds its day keys with a locale formatter;
 * here a key is the local day number the formatter prints.
 *
 * The week start and each task's `date` are `YYYY-MM-DD` strings given to
 * `new Date`, which reads a date-only string as midnight UTC. The report then
 * reads those instants with the local getters in a zone `offset` seconds
 * ahead of UTC, so west of UTC every day it shows is the day before the one
 * written (`ShownDay`).
 */
module WeeklyReport {
  import opened Common
  import opened JsText
  import opened Calendar
  import opened IcsDates

  /**
   * A task as the report reads it: the day number written in its `date`, the
   * local minute of `date` + `startTime` and of `endDate` + `endTime`, and its
   * `completed` flag.
   */
  datatype Task = Task(day: int, start: int, end: int, completed: bool)

  /** `calculateTaskDuration`: the whole minutes from start to end, and 0 for an end before the start. */
  function Duration(t: Task): (r: nat)
    ensures r >= t.end - t.start
    ensures t.start <= t.end ==> r == t.end - t.start
  {
    if t.start <= t.end then t.end - t.start else 0
  }

  // `formatDuration`

  /** `%` of JavaScript: the remainder has the sign of the dividend. */
  function JsRem(a: int, b: int): (r: int)
    requires b > 0
    ensures a >= 0 ==> 0 <= r < b && r == a % b
    ensures a < 0 ==> -b < r <= 0
  {
    if a >= 0 then a % b else -((-a) % b)
  }

  /** `formatDuration`: `Hh Mm`, `Hh` when the minutes are 0, and `Mm` when the hours are 0. */
  function FormatDuration(minutes: int): (r: string)
    ensures r != [] && (r[|r| - 1] == 'h' || r[|r| - 1] == 'm')
  {
    var hours := minutes / 60;
    var mins := JsRem(minutes, 60);
    if hours != 0 && mins != 0 then IntToString(hours) + "h " + IntToString(mins) + "m"
    else if hours != 0 then IntToString(hours) + "h"
    else IntToString(mins) + "m"
  }

  /** A run of digits read as a number, and nothing otherwise. */
  function ReadNumber(s: string): (r: Option<nat>)
    ensures AllDigits(s) ==> r == Some(DigitsValue(s))
    ensures !AllDigits(s) ==> r == None
  {
    if AllDigits(s) then Some(DigitsValue(s)) else None
  }

  /** Reads a duration written as `Hh Mm`, `Hh` or `Mm` back as minutes. */
  function ReadDuration(s: string): Option<nat> {
    if |s| < 2 then None
    else if s[|s| - 1] == 'h' then
      match ReadNumber(s[..|s| - 1])
      case None => None
      case Some(h) => Some(60 * h)
    else if s[|s| - 1] == 'm' then ReadMinutes(s[..|s| - 1])
    else None
  }

  /** The text before the final `m`: either `H` `h ` `M` or `M` alone. */
  function ReadMinutes(body: string): Option<nat> {
    match IndexOf(body, 'h')
    case None => ReadNumber(body)
    case Some(i) =>
      if i + 1 < |body| && body[i + 1] == ' ' then
        match (ReadNumber(body[..i]), ReadNumber(body[i + 2..]))
        case (Some(h), Some(m)) => Some(60 * h + m)
        case _ => None
      else None
  }

  /** A string of digits holds no `h`. */
  lemma {:induction false} NoHourMark(s: string)
    requires AllDigits(s)
    ensures 'h' !in s
  {
  }

  /** Every non-negative duration reads back from its formatted text: nothing is lost. */
  lemma {:induction false} DurationRoundTrip(m: nat)
    ensures ReadDuration(FormatDuration(m)) == Some(m)
  {
    var h, mm := m / 60, m % 60;
    var hs, ms := NatToString(h), NatToString(mm);
    DigitsOfNatToString(h);
    DigitsOfNatToString(mm);
    if h != 0 && mm != 0 {
      HoursAndMinutes(hs, ms);
    } else if h != 0 {
      var s := hs + "h";
      assert s[..|s| - 1] == hs;
    } else {
      MinutesOnly(ms);
    }
  }

  lemma {:induction false} MinutesOnly(ms: string)
    requires ms != [] && AllDigits(ms)
    ensures ReadDuration(ms + "m") == Some(DigitsValue(ms))
  {
    NoHourMark(ms);
    var s := ms + "m";
    assert s[..|s| - 1] == ms;
  }

  lemma {:induction false} HoursAndMinutes(hs: string, ms: string)
    requires hs != [] && ms != [] && AllDigits(hs) && AllDigits(ms)
    ensures ReadDuration(hs + "h " + ms + "m") == Some(60 * DigitsValue(hs) + DigitsValue(ms))
  {
    var s := hs + "h " + ms + "m";
    var body := hs + "h " + ms;
    assert s[..|s| - 1] == body;
    ReadHoursMinutes(hs, ms);
  }

  lemma {:induction false} ReadHoursMinutes(hs: string, ms: string)
    requires AllDigits(hs) && AllDigits(ms)
    ensures ReadMinutes(hs + "h " + ms) == Some(60 * DigitsValue(hs) + DigitsValue(ms))
  {
    HourSplit(hs, ms);
    ReadMinutesAt(hs + "h " + ms, |hs|, DigitsValue(hs), DigitsValue(ms));
  }

  /** Where `H` `h ` `M` splits, and what its two numbers read as. */
  lemma {:induction false} HourSplit(hs: string, ms: string)
    requires AllDigits(hs) && AllDigits(ms)
    ensures var body := hs + "h " + ms;
      IndexOf(body, 'h') == Some(|hs|) && |hs| + 1 < |body| && body[|hs| + 1] == ' '
      && ReadNumber(body[..|hs|]) == Some(DigitsValue(hs)) && ReadNumber(body[|hs| + 2..]) == Some(DigitsValue(ms))
  {
    NoHourMark(hs);
    SplitAtHour(hs, ms);
  }

  lemma {:induction false} ReadMinutesAt(body: string, i: nat, h: nat, m: nat)
    requires IndexOf(body, 'h') == Some(i) && i + 1 < |body| && body[i + 1] == ' '
    requires ReadNumber(body[..i]) == Some(h) && ReadNumber(body[i + 2..]) == Some(m)
    ensures ReadMinutes(body) == Some(60 * h + m)
  {
  }

  lemma {:induction false} SplitAtHour(hs: string, ms: string)
    requires 'h' !in hs
    ensures var body := hs + "h " + ms;
      IndexOf(body, 'h') == Some(|hs|) && body[|hs| + 1] == ' ' && body[..|hs|] == hs && body[|hs| + 2..] == ms
  {
    var body := hs + "h " + ms;
    assert body[|hs|] == 'h';
    assert body[..|hs|] == hs;
  }

  /** `formatDuration(0)` is `0m`, `formatDuration(90)` is `1h 30m` and `formatDuration(120)` is `2h`. */
  lemma {:induction false} FormatDurationExamples()
    ensures FormatDuration(0) == "0m"
    ensures FormatDuration(90) == "1h 30m"
    ensures FormatDuration(120) == "2h"
  {
    assert NatToString(0) == "0" && NatToString(1) == "1" && NatToString(2) == "2";
    assert NatToString(30) == NatToString(3) + [DigitChar(0)];
  }

  // Filtering and sorting

  /** The tasks of `s` that satisfy `f`, in order. */
  function Filter(s: seq<Task>, f: Task -> bool): (r: seq<Task>)
    ensures |r| <= |s|
  {
    if s == [] then [] else Filter(s[..|s| - 1], f) + (if f(s[|s| - 1]) then [s[|s| - 1]] else [])
  }

  lemma {:induction false} FilterAppendOne(s: seq<Task>, t: Task, f: Task -> bool)
    ensures Filter(s + [t], f) == Filter(s, f) + (if f(t) then [t] else [])
  {
    assert (s + [t])[..|s|] == s;
  }

  lemma {:induction false} FilterSnoc(s: seq<Task>, j: nat, f: Task -> bool)
    requires j < |s|
    ensures Filter(s[..j + 1], f) == Filter(s[..j], f) + (if f(s[j]) then [s[j]] else [])
  {
    assert s[..j + 1][..j] == s[..j];
  }

  /** Exactly the tasks of `s` that satisfy `f` are kept. */
  lemma {:induction false} FilterMembers(s: seq<Task>, f: Task -> bool, t: Task)
    ensures t in Filter(s, f) <==> t in s && f(t)
    decreases |s|
  {
    if s != [] {
      var init := s[..|s| - 1];
      FilterMembers(init, f, t);
      assert s == init + [s[|s| - 1]];
    }
  }

  /** `filter` keeps the order: a sorted list filters to a sorted list. */
  lemma {:induction false} FilterSorted(s: seq<Task>, f: Task -> bool)
    requires SortedByStart(s)
    ensures SortedByStart(Filter(s, f))
    decreases |s|
  {
    if s != [] {
      var init := s[..|s| - 1];
      var last := s[|s| - 1];
      assert SortedByStart(init);
      FilterSorted(init, f);
      var r := Filter(init, f);
      forall k | 0 <= k < |r|
        ensures r[k].start <= last.start
      {
        FilterMembers(init, f, r[k]);
        var i :| 0 <= i < |init| && init[i] == r[k];
        assert s[i] == init[i];
      }
      SortedSnoc(r, last);
    }
  }

  lemma {:induction false} SortedSnoc(r: seq<Task>, t: Task)
    requires SortedByStart(r)
    requires forall k :: 0 <= k < |r| ==> r[k].start <= t.start
    ensures SortedByStart(r + [t])
  {
  }

  /**
   * `taskStart >= weekStart && taskStart <= weekEnd`. Both dates are read as
   * midnight UTC of the written day, and `weekEnd`, six local days after
   * `weekStart` at the same local time, is six whole days later in a fixed zone.
   */
  predicate InWeek(t: Task, weekStart: int) {
    MakeDate(weekStart, 0) <= MakeDate(t.day, 0) <= MakeDate(weekStart + 6, 0)
  }

  /** The tasks whose date lies from `weekStart` to six days later. */
  function WeekTasks(tasks: seq<Task>, weekStart: int): (r: seq<Task>) {
    Filter(tasks, t => InWeek(t, weekStart))
  }

  /** Only the week's tasks are kept, and all of them: those written from the week start to six days later. */
  lemma {:induction false} WeekTasksExactly(tasks: seq<Task>, weekStart: int, t: Task)
    ensures t in WeekTasks(tasks, weekStart) <==> t in tasks && weekStart <= t.day <= weekStart + 6
  {
    FilterMembers(tasks, t => InWeek(t, weekStart), t);
    InWeekDays(t, weekStart);
  }

  lemma {:induction false} InWeekDays(t: Task, weekStart: int)
    ensures InWeek(t, weekStart) <==> weekStart <= t.day <= weekStart + 6
  {
  }

  // Date-only strings

  /**
   * The local day on which `new Date("YYYY-MM-DD")` falls: the instant is
   * midnight UTC of the written day `written`, seen `offset` seconds ahead.
   */
  function ShownDay(written: int, offset: int): int {
    (MakeDate(written, 0) + offset) / SecondsPerDay
  }

  /** It is the day of the local reading `getDate` and the formatter take. */
  lemma {:induction false} ShownDayReads(written: int, offset: int)
    ensures ShownDay(written, offset) == DayNumber(WallClock(MakeDate(written, 0), offset).date)
  {
  }

  /** Days written k apart are shown k apart. */
  lemma {:induction false} ShownDayShift(written: int, k: int, offset: int)
    ensures ShownDay(written + k, offset) == ShownDay(written, offset) + k
  {
    var x := MakeDate(written, 0) + offset;
    assert MakeDate(written + k, 0) + offset == x + k * SecondsPerDay;
    DivShift(x, k);
  }

  lemma {:induction false} DivShift(x: int, k: int)
    ensures (x + k * SecondsPerDay) / SecondsPerDay == x / SecondsPerDay + k
  {
    var q, r := x / SecondsPerDay, x % SecondsPerDay;
    assert x + k * SecondsPerDay == (q + k) * SecondsPerDay + r;
  }

  /** West of UTC a date-only string shows the day before the one written. */
  lemma {:induction false} ShownDayWest(written: int, offset: int)
    requires -SecondsPerDay <= offset < 0
    ensures ShownDay(written, offset) == written - 1
  {
    DivShift(SecondsPerDay + offset, written - 1);
  }

  /** At UTC or east of it, a date-only string shows the day written. */
  lemma {:induction false} ShownDayEast(written: int, offset: int)
    requires 0 <= offset < SecondsPerDay
    ensures ShownDay(written, offset) == written
  {
    DivShift(offset, written);
  }

  /**
   * The report of the week `getWeekStart` writes for a date west of UTC: the
   * written Sunday is shown, and named, as the Saturday before it, and the
   * first bucket is that Saturday.
   */
  lemma {:induction false} AsWrittenWeekStartsSaturday(u: int, offset: int)
    requires -SecondsPerDay <= offset < 0
    ensures DayName(WeekStartDay(u)) == "Sunday"
    ensures ShownDay(WeekStartDay(u), offset) == WeekStartDay(u) - 1
    ensures DayName(ShownDay(WeekStartDay(u), offset)) == "Saturday"
  {
    ShownDayWest(WeekStartDay(u), offset);
    SaturdayBefore(WeekStartDay(u));
  }

  lemma {:induction false} SaturdayBefore(s: int)
    requires Weekday(s) == 0
    ensures Weekday(s - 1) == 6
  {
  }

  /**
   * The evident intent: the written date read as local midnight, as
   * `new Date(y, m - 1, d)` reads it. Its local day is the day written in
   * every zone, so a written Sunday is shown, and named, as that Sunday.
   */
  lemma {:induction false} IntendedWeekStartsSunday(d: Date, offset: int)
    requires ValidDate(d) && 1000 <= d.year <= 9999 && Weekday(DayNumber(d)) == 0
    requires -SecondsPerDay < offset < SecondsPerDay
    ensures var t := NewLocalDate(Some(d.year), Some(d.month - 1), Some(d.day), Some(0), Some(0), Some(0), offset);
      t.Time? && DayNumber(WallClock(t.utc, offset).date) == DayNumber(d)
      && DayName(DayNumber(WallClock(t.utc, offset).date)) == "Sunday"
  {
    var t := MidnightInstant(d, offset);
  }

  predicate SortedByStart(s: seq<Task>) {
    forall i, j :: 0 <= i < j < |s| ==> s[i].start <= s[j].start
  }

  /** Places `t` after every task of `r` that starts no later than it. */
  function InsertByStart(r: seq<Task>, t: Task): (q: seq<Task>)
    ensures |q| == |r| + 1 && multiset(q) == multiset(r) + multiset{t}
    ensures forall k :: 0 <= k < |q| ==> q[k] == t || q[k] in multiset(r)
  {
    if r == [] || r[|r| - 1].start <= t.start then r + [t]
    else
      var init := r[..|r| - 1];
      assert r == init + [r[|r| - 1]];
      InsertByStart(init, t) + [r[|r| - 1]]
  }

  lemma {:induction false} InsertSorted(r: seq<Task>, t: Task)
    requires SortedByStart(r)
    ensures SortedByStart(InsertByStart(r, t))
    decreases |r|
  {
    if r != [] && r[|r| - 1].start > t.start {
      var init := r[..|r| - 1];
      var last := r[|r| - 1];
      InsertSorted(init, t);
      var q := InsertByStart(init, t);
      forall k | 0 <= k < |q|
        ensures q[k].start <= last.start
      {
        if q[k] != t {
          var i :| 0 <= i < |init| && init[i] == q[k];
          assert r[i] == init[i];
        }
      }
    }
  }

  /** `sort((a, b) => dateA - dateB)`: a stable sort on the start, as `Array.prototype.sort` is. */
  function SortByStart(s: seq<Task>): (r: seq<Task>)
    ensures |r| == |s| && multiset(r) == multiset(s)
  {
    if s == [] then []
    else
      assert s == s[..|s| - 1] + [s[|s| - 1]];
      InsertByStart(SortByStart(s[..|s| - 1]), s[|s| - 1])
  }

  /** The sort orders by start. */
  lemma {:induction false} SortSorted(s: seq<Task>)
    ensures SortedByStart(SortByStart(s))
    decreases |s|
  {
    if s != [] {
      SortSorted(s[..|s| - 1]);
      InsertSorted(SortByStart(s[..|s| - 1]), s[|s| - 1]);
    }
  }

  /** The tasks that start at minute `k`, in order. */
  function StartingAt(s: seq<Task>, k: int): seq<Task> {
    Filter(s, (t: Task) => t.start == k)
  }

  lemma {:induction false} InsertStable(r: seq<Task>, t: Task, k: int)
    ensures StartingAt(InsertByStart(r, t), k) == StartingAt(r, k) + (if t.start == k then [t] else [])
    decreases |r|
  {
    var f := (x: Task) => x.start == k;
    if r == [] || r[|r| - 1].start <= t.start {
      FilterAppendOne(r, t, f);
    } else {
      var init := r[..|r| - 1];
      var last := r[|r| - 1];
      assert r == init + [last];
      var q := InsertByStart(init, t);
      assert InsertByStart(r, t) == q + [last];
      InsertStable(init, t, k);
      FilterAppendOne(q, last, f);
      FilterAppendOne(init, last, f);
      SwapEmpty(StartingAt(init, k), if t.start == k then [t] else [], if last.start == k then [last] else []);
    }
  }

  /** The sort is stable: tasks that start at the same minute keep their order. */
  lemma {:induction false} SortStable(s: seq<Task>, k: int)
    ensures StartingAt(SortByStart(s), k) == StartingAt(s, k)
    decreases |s|
  {
    if s != [] {
      var init := s[..|s| - 1];
      SortStable(init, k);
      InsertStable(SortByStart(init), s[|s| - 1], k);
    }
  }

  // The report

  function TotalDuration(s: seq<Task>): nat {
    if s == [] then 0 else TotalDuration(s[..|s| - 1]) + Duration(s[|s| - 1])
  }

  lemma {:induction false} TotalSnoc(s: seq<Task>, j: nat)
    requires j < |s|
    ensures TotalDuration(s[..j + 1]) == TotalDuration(s[..j]) + Duration(s[j])
  {
    assert s[..j + 1][..j] == s[..j];
  }

  /** The tasks shown on local day `d`, in order. */
  function DayTasks(s: seq<Task>, d: int, offset: int): seq<Task> {
    Filter(s, (t: Task) => ShownDay(t.day, offset) == d)
  }

  const DayNames: seq<string> := ["Sunday", "Monday", "Tuesday", "Wednesday", "Thursday", "Friday", "Saturday"]

  function DayName(d: int): string {
    DayNames[Weekday(d)]
  }

  /** One entry of `tasksByDay`. */
  datatype Bucket = Bucket(dayName: string, tasks: seq<Task>, totalDuration: nat)

  datatype Report = Report(weekStart: int, weekEnd: int, tasksByDay: map<int, Bucket>,
                           totalTasks: nat, completedTasks: nat, totalDuration: nat,
                           averageDailyDuration: real)

  /** The week's tasks in the order the report lists them. */
  function SortedWeek(allTasks: seq<Task>, weekStart: int): seq<Task> {
    SortByStart(WeekTasks(allTasks, weekStart))
  }

  ghost predicate IsWeek(keys: set<int>, first: int) {
    forall d :: d in keys <==> first <= d <= first + 6
  }

  /**
   * `generateWeeklyReport` for the week whose start is written as day
   * `weekStart`, in a zone `offset` seconds ahead of UTC. The days, their
   * names, `weekStart` and `weekEnd` are the local days shown from
   * `ShownDay(weekStart, offset)` on; each task goes to the day its own date
   * is shown on.
   */
  method GenerateWeeklyReport(allTasks: seq<Task>, weekStart: int, offset: int) returns (r: Report)
    ensures var sorted := SortedWeek(allTasks, weekStart);
      var first := ShownDay(weekStart, offset);
      && r.weekStart == first && r.weekEnd == first + 6
      && IsWeek(r.tasksByDay.Keys, first)
      && (forall d :: d in r.tasksByDay ==>
            r.tasksByDay[d] == Bucket(DayName(d), DayTasks(sorted, d, offset), TotalDuration(DayTasks(sorted, d, offset))))
      && r.totalTasks == |sorted|
      && r.completedTasks == |Filter(sorted, (t: Task) => t.completed)|
      && r.totalDuration == TotalDuration(sorted)
      && r.averageDailyDuration == r.totalDuration as real / 7.0
  {
    var first := ShownDay(weekStart, offset);
    var weekEnd := first + 6;
    var sorted := SortByStart(WeekTasks(allTasks, weekStart));
    var tasksByDay := EmptyWeek(first);
    tasksByDay := AssignTasks(tasksByDay, sorted, offset);
    var totalDuration := TotalDuration(sorted);
    r := Report(first, weekEnd, tasksByDay, |sorted|, |Filter(sorted, (t: Task) => t.completed)|,
                totalDuration, totalDuration as real / 7.0);
  }

  /** The first loop: seven empty days from local day `first` on, each with its weekday name. */
  method EmptyWeek(first: int) returns (tasksByDay: map<int, Bucket>)
    ensures IsWeek(tasksByDay.Keys, first)
    ensures forall d :: d in tasksByDay ==> tasksByDay[d] == Bucket(DayName(d), [], 0)
  {
    tasksByDay := map[];
    for i := 0 to 7
      invariant forall d :: d in tasksByDay <==> first <= d < first + i
      invariant forall d :: d in tasksByDay ==> tasksByDay[d] == Bucket(DayName(d), [], 0)
    {
      var currentDay := first + i;
      tasksByDay := tasksByDay[currentDay := Bucket(DayName(currentDay), [], 0)];
    }
  }

  /** The `forEach`: each task is pushed onto the day its date is shown on, whose duration grows by the task's. */
  method AssignTasks(days: map<int, Bucket>, sorted: seq<Task>, offset: int) returns (tasksByDay: map<int, Bucket>)
    requires forall d :: d in days ==> days[d] == Bucket(DayName(d), [], 0)
    ensures tasksByDay.Keys == days.Keys
    ensures forall d :: d in tasksByDay ==>
      tasksByDay[d] == Bucket(DayName(d), DayTasks(sorted, d, offset), TotalDuration(DayTasks(sorted, d, offset)))
  {
    tasksByDay := days;
    for j := 0 to |sorted|
      invariant tasksByDay.Keys == days.Keys
      invariant forall d :: d in tasksByDay ==>
        tasksByDay[d] == Bucket(DayName(d), DayTasks(sorted[..j], d, offset), TotalDuration(DayTasks(sorted[..j], d, offset)))
    {
      var task := sorted[j];
      var key := ShownDay(task.day, offset);
      forall d | d in tasksByDay {
        DayTasksSnoc(sorted, j, d, offset);
      }
      if key in tasksByDay {
        var b := tasksByDay[key];
        tasksByDay := tasksByDay[key := b.(tasks := b.tasks + [task], totalDuration := b.totalDuration + Duration(task))];
      }
    }
    assert sorted[..|sorted|] == sorted;
  }

  /** One more task: it joins the tasks and duration of the day it is shown on, and no other day's. */
  lemma {:induction false} DayTasksSnoc(s: seq<Task>, j: nat, d: int, offset: int)
    requires j < |s|
    ensures DayTasks(s[..j + 1], d, offset)
         == DayTasks(s[..j], d, offset) + (if ShownDay(s[j].day, offset) == d then [s[j]] else [])
    ensures TotalDuration(DayTasks(s[..j + 1], d, offset))
         == TotalDuration(DayTasks(s[..j], d, offset)) + (if ShownDay(s[j].day, offset) == d then Duration(s[j]) else 0)
  {
    assert s[..j + 1] == s[..j] + [s[j]];
    DayTasksAppend(s[..j], s[j], d, offset);
  }

  lemma {:induction false} DayTasksAppend(s: seq<Task>, t: Task, d: int, offset: int)
    ensures DayTasks(s + [t], d, offset) == DayTasks(s, d, offset) + (if ShownDay(t.day, offset) == d then [t] else [])
    ensures TotalDuration(DayTasks(s + [t], d, offset))
         == TotalDuration(DayTasks(s, d, offset)) + (if ShownDay(t.day, offset) == d then Duration(t) else 0)
  {
    FilterAppendOne(s, t, (t: Task) => ShownDay(t.day, offset) == d);
    if ShownDay(t.day, offset) == d {
      TotalAppend(DayTasks(s, d, offset), t);
    } else {
      assert DayTasks(s, d, offset) + [] == DayTasks(s, d, offset);
    }
  }

  lemma {:induction false} TotalAppend(s: seq<Task>, t: Task)
    ensures TotalDuration(s + [t]) == TotalDuration(s) + Duration(t)
  {
    assert (s + [t])[..|s|] == s;
  }

  /** The durations of the seven days, from local day `first + i` on. */
  function DaysTotal(s: seq<Task>, first: int, i: nat, offset: int): nat
    requires i <= 7
    decreases 7 - i
  {
    if i == 7 then 0 else TotalDuration(DayTasks(s, first + i, offset)) + DaysTotal(s, first, i + 1, offset)
  }

  lemma {:induction false} DaysTotalStep(s: seq<Task>, first: int, i: nat, offset: int)
    requires i < 7
    ensures DaysTotal(s, first, i, offset)
         == TotalDuration(DayTasks(s, first + i, offset)) + DaysTotal(s, first, i + 1, offset)
  {
  }

  /** One more task adds its duration to its own day or to a later one, never to both. */
  lemma {:induction false} SnocSum(mine: nat, rest: nat, dur: nat, here: bool, later: bool)
    requires !(here && later)
    ensures (mine + (if here then dur else 0)) + (rest + (if later then dur else 0))
         == (mine + rest) + (if here || later then dur else 0)
  {
  }

  lemma {:induction false} DaysTotalSnoc(s: seq<Task>, t: Task, first: int, i: nat, offset: int)
    requires i <= 7
    ensures DaysTotal(s + [t], first, i, offset)
         == DaysTotal(s, first, i, offset) + (if first + i <= ShownDay(t.day, offset) <= first + 6 then Duration(t) else 0)
  {
    forall d | true
      ensures TotalDuration(DayTasks(s + [t], d, offset))
           == TotalDuration(DayTasks(s, d, offset)) + (if ShownDay(t.day, offset) == d then Duration(t) else 0)
    {
      DayTasksAppend(s, t, d, offset);
    }
    DaysTotalGrow(s, s + [t], ShownDay(t.day, offset), Duration(t), first, i, offset);
  }

  /** A list whose days each gain a task's duration on its day only gains it over the days from `i` on. */
  lemma {:induction false} DaysTotalGrow(s: seq<Task>, s': seq<Task>, day: int, dur: nat, first: int, i: nat, offset: int)
    requires i <= 7
    requires forall d :: TotalDuration(DayTasks(s', d, offset)) == TotalDuration(DayTasks(s, d, offset)) + (if day == d then dur else 0)
    ensures DaysTotal(s', first, i, offset) == DaysTotal(s, first, i, offset) + (if first + i <= day <= first + 6 then dur else 0)
    decreases 7 - i
  {
    if i < 7 {
      var d := first + i;
      DaysTotalGrow(s, s', day, dur, first, i + 1, offset);
      var rest := DaysTotal(s, first, i + 1, offset);
      var mine := TotalDuration(DayTasks(s, d, offset));
      DaysTotalStep(s', first, i, offset);
      DaysTotalStep(s, first, i, offset);
      SnocSum(mine, rest, dur, day == d, d + 1 <= day <= first + 6);
    }
  }

  /** Every task shown in the week is counted in exactly one day: the days' durations add up to the week's. */
  lemma {:induction false} DaysAddUp(s: seq<Task>, first: int, offset: int)
    requires forall k :: 0 <= k < |s| ==> first <= ShownDay(s[k].day, offset) <= first + 6
    ensures DaysTotal(s, first, 0, offset) == TotalDuration(s)
    decreases |s|
  {
    if s == [] {
      DaysTotalEmpty(first, 0, offset);
    } else {
      var init, last := s[..|s| - 1], s[|s| - 1];
      forall k | 0 <= k < |init|
        ensures first <= ShownDay(init[k].day, offset) <= first + 6
      {
        assert init[k] == s[k];
      }
      DaysAddUp(init, first, offset);
      assert s == init + [last];
      DaysTotalSnoc(init, last, first, 0, offset);
      TotalAppend(init, last);
    }
  }

  lemma {:induction false} DaysTotalEmpty(first: int, i: nat, offset: int)
    requires i <= 7
    ensures DaysTotal([], first, i, offset) == 0
    decreases 7 - i
  {
    if i < 7 {
      DaysTotalEmpty(first, i + 1, offset);
    }
  }

  /**
   * The report's days hold every task of the week: a task written in the week
   * is shown in the week's shown days, so their durations add up to
   * `totalDuration` in every zone.
   */
  lemma {:induction false} ReportDaysAddUp(allTasks: seq<Task>, weekStart: int, offset: int)
    ensures var sorted := SortedWeek(allTasks, weekStart);
      DaysTotal(sorted, ShownDay(weekStart, offset), 0, offset) == TotalDuration(sorted)
  {
    var week := WeekTasks(allTasks, weekStart);
    var sorted := SortByStart(week);
    var first := ShownDay(weekStart, offset);
    forall k | 0 <= k < |sorted|
      ensures first <= ShownDay(sorted[k].day, offset) <= first + 6
    {
      assert sorted[k] in multiset(week);
      WeekTasksExactly(allTasks, weekStart, sorted[k]);
      ShownDayShift(weekStart, sorted[k].day - weekStart, offset);
    }
    DaysAddUp(sorted, first, offset);
  }

  /** Each day lists its tasks ordered by start. */
  lemma {:induction false} DaysSorted(allTasks: seq<Task>, weekStart: int, d: int, offset: int)
    ensures SortedByStart(DayTasks(SortedWeek(allTasks, weekStart), d, offset))
  {
    SortSorted(WeekTasks(allTasks, weekStart));
    FilterSorted(SortedWeek(allTasks, weekStart), (t: Task) => ShownDay(t.day, offset) == d);
  }

  /** `completedTasks` never exceeds `totalTasks`. */
  lemma {:induction false} CompletedAtMostTotal(allTasks: seq<Task>, weekStart: int)
    ensures |Filter(SortedWeek(allTasks, weekStart), (t: Task) => t.completed)| <= |SortedWeek(allTasks, weekStart)|
  {
  }

  // `getWeekStart`

  /** The Sunday on or before day `u`. */
  function WeekStartDay(u: int): (s: int)
    ensures Weekday(s) == 0 && u - 6 <= s <= u
  {
    u - Weekday(u)
  }

  /** It is the only Sunday of the seven days ending on `u`. */
  lemma {:induction false} WeekStartUnique(u: int, s: int)
    requires Weekday(s) == 0 && u - 6 <= s <= u
    ensures s == WeekStartDay(u)
  {
  }

  /** Every day of a week has the same week start. */
  lemma {:induction false} WeekStartOfWeek(u: int, i: int)
    requires 0 <= i <= 6
    ensures WeekStartDay(WeekStartDay(u) + i) == WeekStartDay(u)
  {
    WeekStartUnique(WeekStartDay(u) + i, WeekStartDay(u));
  }

  /** `getWeekStart` for a date on local day `u`. */
  function GetWeekStart(u: int): (r: string)
    ensures r == IsoDate(CivilFromDays(WeekStartDay(u)))
  {
    IsoDate(CivilFromDays(u - Weekday(u)))
  }
}
