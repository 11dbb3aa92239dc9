/**
 * The task list of the main screen (`MainScreen` in `App.js`): adding a task
 * from the form, completing it, editing it, and deleting marked tasks. The
 * component's state is a class whose fields are the state hooks; the list
 * transforms inside the handlers (`find`, `map`, `filter`) are functions.
 * Ids come from the caller, the zone is a fixed `offset` in seconds ahead of
 * UTC, and the `completedTasks` entry of the local storage is a field.
 */
module TaskList {
  import opened Common
  import opened JsText
  import opened Calendar
  import opened IcsDates
  import WeeklyReport
  import Analytics

  /** A task of the list; a task added from the form has `completed` unset (false). */
  datatype Task = Task(id: string, event: string, description: string,
                       date: string, startTime: string, endDate: string, endTime: string,
                       completed: bool)

  /** The six inputs of the add form (and of the edit form). */
  datatype Form = Form(event: string, description: string,
                       date: string, startTime: string, endDate: string, endTime: string)

  const EmptyForm := Form("", "", "", "", "", "")

  /** Which inputs are flagged; `{}` has none. */
  datatype Errors = Errors(event: bool, date: bool, startTime: bool, endDate: bool, endTime: bool) {
    predicate Any() {
      event || date || startTime || endDate || endTime
    }
  }

  const NoErrors := Errors(false, false, false, false, false)

  // `new Date(`${date}T${time}`)`

  /**
   * `new Date("YYYY-MM-DDTHH:MM")`: the date-time string format of ECMAScript
   * without a zone, read as local time; any other text, and a date or time out
   * of range, is an invalid date.
   */
  function ParseDateTimeString(s: string, offset: int): (r: JsDate)
    ensures |s| != 16 ==> r == InvalidDate
  {
    if |s| == 16 && s[4] == '-' && s[7] == '-' && s[10] == 'T' && s[13] == ':'
       && AllDigits(s[..4]) && AllDigits(s[5..7]) && AllDigits(s[8..10])
       && AllDigits(s[11..13]) && AllDigits(s[14..16])
    then
      InstantOf(Date(DigitsValue(s[..4]), DigitsValue(s[5..7]), DigitsValue(s[8..10])),
                DigitsValue(s[11..13]), DigitsValue(s[14..16]), offset)
    else InvalidDate
  }

  /** The instant of a local date and time, or an invalid date when either is out of range. */
  function InstantOf(d: Date, h: int, mi: int, offset: int): (r: JsDate)
    ensures r.Time? ==> ValidDate(d) && 0 <= h < 24 && 0 <= mi < 60
  {
    if ValidDate(d) && 0 <= h < 24 && 0 <= mi < 60 then TimeClip(Analytics.LocalMinute(d, h, mi) * 60 - offset)
    else InvalidDate
  }

  /** `a < b` on two dates: false when either is invalid. */
  predicate Earlier(a: JsDate, b: JsDate) {
    a.Time? && b.Time? && a.utc < b.utc
  }

  /** The start of the span a form describes. */
  function StartOf(f: Form, offset: int): JsDate {
    ParseDateTimeString(f.date + "T" + f.startTime, offset)
  }

  /** The end of the span a form describes. */
  function EndOf(f: Form, offset: int): JsDate {
    ParseDateTimeString(f.endDate + "T" + f.endTime, offset)
  }

  /** A year written with exactly four digits. */
  lemma {:induction false} FourDigitYear(y: nat)
    requires 1000 <= y <= 9999
    ensures |NatToString(y)| == 4
  {
    var s := NatToString(y);
    DigitsOfNatToString(y);
    DigitsValueBelow(s);
    if |s| > 4 {
      DigitsValueAtLeast(s);
      PowMonotone(4, |s| - 1);
    } else if |s| < 4 {
      PowMonotone(|s|, 3);
    }
  }

  lemma {:induction false} PowMonotone(a: nat, b: nat)
    requires a <= b
    ensures Pow10(a) <= Pow10(b)
    decreases b
  {
    if a < b {
      PowMonotone(a, b - 1);
    }
  }

  /** The positions of the fields in `YYYY-MM-DDTHH:MM`. */
  lemma {:induction false} FieldPositions(y: string, m: string, d: string, hh: string, mm: string)
    requires |y| == 4 && |m| == 2 && |d| == 2 && |hh| == 2 && |mm| == 2
    ensures var s := y + "-" + m + "-" + d + "T" + hh + ":" + mm;
      |s| == 16 && s[4] == '-' && s[7] == '-' && s[10] == 'T' && s[13] == ':'
      && s[..4] == y && s[5..7] == m && s[8..10] == d && s[11..13] == hh && s[14..16] == mm
  {
  }

  /** A text of the form `YYYY-MM-DDTHH:MM` is read field by field. */
  lemma {:induction false} ParseFields(y: string, m: string, d: string, hh: string, mm: string, offset: int)
    requires |y| == 4 && |m| == 2 && |d| == 2 && |hh| == 2 && |mm| == 2
    requires AllDigits(y) && AllDigits(m) && AllDigits(d) && AllDigits(hh) && AllDigits(mm)
    ensures ParseDateTimeString(y + "-" + m + "-" + d + "T" + hh + ":" + mm, offset)
         == InstantOf(Date(DigitsValue(y), DigitsValue(m), DigitsValue(d)), DigitsValue(hh), DigitsValue(mm), offset)
  {
    var s := y + "-" + m + "-" + d + "T" + hh + ":" + mm;
    FieldPositions(y, m, d, hh, mm);
    assert AllDigits(s[..4]) && AllDigits(s[5..7]) && AllDigits(s[8..10]) && AllDigits(s[11..13]) && AllDigits(s[14..16]);
  }

  /**
   * The texts the date and time inputs write for a date of a four-digit year
   * and a time of day read back as that local minute, shifted to UTC.
   */
  lemma {:induction false} InputsReadBack(d: Date, h: nat, mi: nat, offset: int)
    requires Analytics.Reading(d, h, mi) && 1000 <= d.year <= 9999
    requires -MaxTimeSeconds <= Analytics.LocalMinute(d, h, mi) * 60 - offset <= MaxTimeSeconds
    ensures ParseDateTimeString(IsoDate(d) + "T" + Analytics.Clock(h, mi), offset) == Time(Analytics.LocalMinute(d, h, mi) * 60 - offset)
  {
    var y, m, dd, hh, mm := InputFields(d, h, mi);
    ParseFields(y, m, dd, hh, mm, offset);
    assert Date(DigitsValue(y), DigitsValue(m), DigitsValue(dd)) == d;
  }

  /** The fields of the text the inputs write, each of its width and read back as its value. */
  lemma {:induction false} InputFields(d: Date, h: nat, mi: nat) returns (y: string, m: string, dd: string, hh: string, mm: string)
    requires Analytics.Reading(d, h, mi) && 1000 <= d.year <= 9999
    ensures |y| == 4 && |m| == 2 && |dd| == 2 && |hh| == 2 && |mm| == 2
    ensures AllDigits(y) && AllDigits(m) && AllDigits(dd) && AllDigits(hh) && AllDigits(mm)
    ensures DigitsValue(y) == d.year && DigitsValue(m) == d.month && DigitsValue(dd) == d.day
    ensures DigitsValue(hh) == h && DigitsValue(mm) == mi
    ensures IsoDate(d) + "T" + Analytics.Clock(h, mi) == y + "-" + m + "-" + dd + "T" + hh + ":" + mm
  {
    y, m, dd, hh, mm := NatToString(d.year), Pad2(d.month), Pad2(d.day), Pad2(h), Pad2(mi);
    FourDigitYear(d.year);
    DigitsOfNatToString(d.year);
    Pad2Digits(d.month);
    Pad2Digits(d.day);
    Pad2Digits(h);
    Pad2Digits(mi);
    assert IsoDate(d) == y + "-" + m + "-" + dd;
    assert Analytics.Clock(h, mi) == hh + ":" + mm;
    TextShape(y, m, dd, hh, mm);
  }

  lemma {:induction false} TextShape(y: string, m: string, d: string, hh: string, mm: string)
    ensures (y + "-" + m + "-" + d) + "T" + (hh + ":" + mm) == y + "-" + m + "-" + d + "T" + hh + ":" + mm
  {
  }

  /**
   * For texts written by the inputs, the start is before the end exactly when
   * its local minute is earlier.
   */
  lemma {:induction false} EarlierIffMinuteBefore(d1: Date, h1: nat, m1: nat, d2: Date, h2: nat, m2: nat, offset: int)
    requires Analytics.Reading(d1, h1, m1) && 1000 <= d1.year <= 9999 && Analytics.Reading(d2, h2, m2) && 1000 <= d2.year <= 9999
    requires -MaxTimeSeconds <= Analytics.LocalMinute(d1, h1, m1) * 60 - offset <= MaxTimeSeconds
    requires -MaxTimeSeconds <= Analytics.LocalMinute(d2, h2, m2) * 60 - offset <= MaxTimeSeconds
    ensures Earlier(ParseDateTimeString(IsoDate(d1) + "T" + Analytics.Clock(h1, m1), offset),
                    ParseDateTimeString(IsoDate(d2) + "T" + Analytics.Clock(h2, m2), offset))
        <==> Analytics.LocalMinute(d1, h1, m1) < Analytics.LocalMinute(d2, h2, m2)
  {
    InputsReadBack(d1, h1, m1, offset);
    InputsReadBack(d2, h2, m2, offset);
  }

  // `addTask`'s validation

  /**
   * The flags `addTask` sets: an empty title (after trimming) or an empty
   * field flags that input; when all four date and time fields are filled and
   * the start is not before the end, the start time, the end date and the end
   * time are flagged too.
   */
  function FormErrors(f: Form, offset: int): Errors {
    var base := Errors(Trim(f.event) == [], f.date == [], f.startTime == [], f.endDate == [], f.endTime == []);
    var orderInvalid := !base.date && !base.startTime && !base.endDate && !base.endTime
                        && !Earlier(StartOf(f, offset), EndOf(f, offset));
    base.(startTime := base.startTime || orderInvalid,
          endDate := base.endDate || orderInvalid,
          endTime := base.endTime || orderInvalid)
  }

  /** A form passes exactly when the title and all four fields are filled and the start is before the end. */
  lemma {:induction false} FormAccepted(f: Form, offset: int)
    ensures !FormErrors(f, offset).Any()
        <==> Trim(f.event) != [] && f.date != [] && f.startTime != [] && f.endDate != [] && f.endTime != []
             && Earlier(StartOf(f, offset), EndOf(f, offset))
  {
  }

  /** An empty input is flagged, whatever the others hold. */
  lemma {:induction false} EmptyFieldFlagged(f: Form, offset: int)
    ensures var e := FormErrors(f, offset);
      (Trim(f.event) == [] <==> e.event) && (f.date == [] <==> e.date)
      && (f.startTime == [] ==> e.startTime) && (f.endDate == [] ==> e.endDate) && (f.endTime == [] ==> e.endTime)
  {
  }

  /** A filled form whose end is not after its start flags the start time, the end date and the end time only. */
  lemma {:induction false} OrderFlags(f: Form, offset: int)
    requires Trim(f.event) != [] && f.date != [] && f.startTime != [] && f.endDate != [] && f.endTime != []
    requires !Earlier(StartOf(f, offset), EndOf(f, offset))
    ensures FormErrors(f, offset) == Errors(false, false, true, true, true)
  {
  }

  /**
   * A form filled by the inputs with a title passes exactly when the start
   * minute is before the end minute.
   */
  lemma {:induction false} InputFormAccepted(title: string, description: string, d1: Date, h1: nat, m1: nat,
                          d2: Date, h2: nat, m2: nat, offset: int)
    requires Trim(title) != []
    requires Analytics.Reading(d1, h1, m1) && 1000 <= d1.year <= 9999 && Analytics.Reading(d2, h2, m2) && 1000 <= d2.year <= 9999
    requires -MaxTimeSeconds <= Analytics.LocalMinute(d1, h1, m1) * 60 - offset <= MaxTimeSeconds
    requires -MaxTimeSeconds <= Analytics.LocalMinute(d2, h2, m2) * 60 - offset <= MaxTimeSeconds
    ensures var f := Form(title, description, IsoDate(d1), Analytics.Clock(h1, m1), IsoDate(d2), Analytics.Clock(h2, m2));
      !FormErrors(f, offset).Any() <==> Analytics.LocalMinute(d1, h1, m1) < Analytics.LocalMinute(d2, h2, m2)
  {
    var f := Form(title, description, IsoDate(d1), Analytics.Clock(h1, m1), IsoDate(d2), Analytics.Clock(h2, m2));
    EarlierIffMinuteBefore(d1, h1, m1, d2, h2, m2, offset);
    FormAccepted(f, offset);
    NonEmptyTexts(d1, h1, m1);
    NonEmptyTexts(d2, h2, m2);
  }

  lemma {:induction false} NonEmptyTexts(d: Date, h: nat, mi: nat)
    requires Analytics.Reading(d, h, mi)
    ensures IsoDate(d) != [] && Analytics.Clock(h, mi) != []
  {
    Pad2Digits(h);
  }

  /** The task `addTask` appends: trimmed title and description, the form's dates and times. */
  function NewTask(id: string, f: Form): Task {
    Task(id, Trim(f.event), Trim(f.description), f.date, f.startTime, f.endDate, f.endTime, false)
  }

  // The list transforms

  /** The ids of the tasks, in order. */
  function Ids(tasks: seq<Task>): (r: seq<string>)
    ensures |r| == |tasks| && forall i :: 0 <= i < |tasks| ==> r[i] == tasks[i].id
  {
    if tasks == [] then [] else [tasks[0].id] + Ids(tasks[1..])
  }

  /** No id appears twice. */
  predicate DistinctIds(tasks: seq<Task>) {
    forall i, j :: 0 <= i < j < |tasks| ==> tasks[i].id != tasks[j].id
  }

  /** `after` is `before` with at most one task replaced, in place. */
  predicate ChangesAtMostOne(before: seq<Task>, after: seq<Task>) {
    |before| == |after|
    && forall i, j :: 0 <= i < |before| && 0 <= j < |before| && i != j && after[i] != before[i] ==> after[j] == before[j]
  }

  /** `tasks.find(t => t.id === id)`: a task with that id, or `undefined` (`None`) when there is none. */
  function Find(tasks: seq<Task>, id: string): (r: Option<Task>)
    ensures r.None? <==> forall i :: 0 <= i < |tasks| ==> tasks[i].id != id
    ensures r.Some? ==> r.value in tasks && r.value.id == id
  {
    if tasks == [] then None
    else if tasks[0].id == id then Some(tasks[0])
    else Find(tasks[1..], id)
  }

  /** The task `find` returns is the first one with the id. */
  lemma {:induction false} FindFirst(tasks: seq<Task>, id: string, i: nat)
    requires i < |tasks| && tasks[i].id == id
    requires forall j :: 0 <= j < i ==> tasks[j].id != id
    ensures Find(tasks, id) == Some(tasks[i])
    decreases i
  {
    if i > 0 {
      FindFirst(tasks[1..], id, i - 1);
    }
  }

  /** The callback of `toggleCompleted`'s `map`: the task with the id has its flag flipped. */
  function FlipOne(t: Task, id: string): Task {
    if t.id == id then t.(completed := !t.completed) else t
  }

  /** `tasks.map(t => t.id === id ? { ...t, completed: !t.completed } : t)`. */
  function Flip(tasks: seq<Task>, id: string): (r: seq<Task>)
    ensures |r| == |tasks|
    ensures forall i :: 0 <= i < |tasks| ==> r[i] == FlipOne(tasks[i], id)
  {
    if tasks == [] then [] else [FlipOne(tasks[0], id)] + Flip(tasks[1..], id)
  }

  /** Flipping twice gives the list back. */
  lemma {:induction false} FlipTwice(tasks: seq<Task>, id: string)
    ensures Flip(Flip(tasks, id), id) == tasks
  {
  }

  /** Flipping keeps every task's id, in place. */
  lemma {:induction false} FlipKeepsIds(tasks: seq<Task>, id: string)
    ensures Ids(Flip(tasks, id)) == Ids(tasks)
  {
  }

  /** The edit `saveEdit` applies: the form's fields, title and description trimmed; id and flag kept. */
  function Edited(t: Task, f: Form): Task {
    t.(event := Trim(f.event), description := Trim(f.description), date := f.date,
       startTime := f.startTime, endDate := f.endDate, endTime := f.endTime)
  }

  /** The callback of `saveEdit`'s `map`: the task being edited takes the form's fields, the others stay. */
  function EditOne(t: Task, editId: Option<string>, f: Form): Task {
    if editId == Some(t.id) then Edited(t, f) else t
  }

  /** `tasks.map(t => t.id === editId ? { ...t, ...edited } : t)`; a null `editId` matches nothing. */
  function ApplyEdit(tasks: seq<Task>, editId: Option<string>, f: Form): (r: seq<Task>)
    ensures |r| == |tasks|
    ensures forall i :: 0 <= i < |tasks| ==> r[i] == EditOne(tasks[i], editId, f)
  {
    if tasks == [] then [] else [EditOne(tasks[0], editId, f)] + ApplyEdit(tasks[1..], editId, f)
  }

  /** An edit keeps every task's id, in place. */
  lemma {:induction false} EditKeepsIds(tasks: seq<Task>, editId: Option<string>, f: Form)
    ensures Ids(ApplyEdit(tasks, editId, f)) == Ids(tasks)
  {
  }

  /** `tasks.filter(t => !ids.has(t.id))`. */
  function Without(tasks: seq<Task>, ids: set<string>): (r: seq<Task>)
    ensures |r| <= |tasks|
    ensures forall t :: t in r <==> t in tasks && t.id !in ids
  {
    if tasks == [] then []
    else (if tasks[0].id in ids then [] else [tasks[0]]) + Without(tasks[1..], ids)
  }

  /** Filtering keeps the order: it distributes over concatenation. */
  lemma {:induction false} WithoutAppend(a: seq<Task>, b: seq<Task>, ids: set<string>)
    ensures Without(a + b, ids) == Without(a, ids) + Without(b, ids)
    decreases |a|
  {
    if a == [] {
      assert a + b == b;
    } else {
      assert (a + b)[0] == a[0] && (a + b)[1..] == a[1..] + b;
      WithoutAppend(a[1..], b, ids);
    }
  }

  /** Removing no id removes nothing. */
  lemma {:induction false} WithoutNothing(tasks: seq<Task>)
    ensures Without(tasks, {}) == tasks
    decreases |tasks|
  {
    if tasks != [] {
      WithoutNothing(tasks[1..]);
    }
  }

  /** The ids left are the ids of the list that are not removed. */
  lemma {:induction false} WithoutIds(tasks: seq<Task>, ids: set<string>, x: string)
    ensures x in Ids(Without(tasks, ids)) <==> x in Ids(tasks) && x !in ids
  {
    var r := Without(tasks, ids);
    if x in Ids(r) {
      var i :| 0 <= i < |r| && Ids(r)[i] == x;
      assert r[i] in r;
    }
    if x in Ids(tasks) && x !in ids {
      var i :| 0 <= i < |tasks| && Ids(tasks)[i] == x;
      assert tasks[i] in tasks;
      var k :| 0 <= k < |r| && r[k] == tasks[i];
      assert Ids(r)[k] == x;
    }
  }

  /** Filtering keeps the ids distinct. */
  lemma {:induction false} WithoutDistinct(tasks: seq<Task>, ids: set<string>)
    ensures DistinctIds(tasks) ==> DistinctIds(Without(tasks, ids))
    decreases |tasks|
  {
    if tasks != [] && DistinctIds(tasks) {
      var rest := tasks[1..];
      assert DistinctIds(rest) by {
        assert forall i :: 0 <= i < |rest| ==> rest[i] == tasks[i + 1];
      }
      WithoutDistinct(rest, ids);
      var r := Without(rest, ids);
      forall k | 0 <= k < |r|
        ensures r[k].id != tasks[0].id
      {
        assert r[k] in rest;
      }
    }
  }

  /** Whether `x` is marked once more: a marked id is unmarked, another one marked. */
  function Toggled(marks: set<string>, x: string): (r: set<string>)
    ensures x in r <==> x !in marks
    ensures forall y :: y != x ==> (y in r <==> y in marks)
  {
    if x in marks then marks - {x} else marks + {x}
  }

  /** Two clicks on the same task leave the marks as they were. */
  lemma {:induction false} ToggledTwice(marks: set<string>, x: string)
    ensures Toggled(Toggled(marks, x), x) == marks
  {
  }

  // `formatDuration` of the task list

  /** The branches of the list's `formatDuration`: `Hh Mm` when both are non-zero, `Hh`, else `Mm`. */
  function ListDuration(minutesTotal: nat): string {
    var hours := minutesTotal / 60;
    var minutes := minutesTotal % 60;
    if hours != 0 && minutes != 0 then NatToString(hours) + "h " + NatToString(minutes) + "m"
    else if hours != 0 then NatToString(hours) + "h"
    else NatToString(minutes) + "m"
  }

  /** On a non-negative number of minutes it writes what the weekly report writes. */
  lemma {:induction false} ListDurationAsReport(m: nat)
    ensures ListDuration(m) == WeeklyReport.FormatDuration(m)
  {
  }

  /**
   * `formatDuration(startDate, start, endDate, end)`: whole minutes from the
   * start to the end, negative spans written as 0, and `NaNm` when either end
   * is an invalid date.
   */
  function FormatSpan(startDate: string, start: string, endDate: string, end: string, offset: int): string {
    SpanText(Analytics.LocalDateTime(startDate, start, offset), Analytics.LocalDateTime(endDate, end, offset))
  }

  /** The text of the span between two dates. */
  function SpanText(a: JsDate, b: JsDate): string {
    if a.Time? && b.Time? then
      var minutesTotal := (b.utc - a.utc) / 60;
      ListDuration(if minutesTotal < 0 then 0 else minutesTotal)
    else "NaNm"
  }

  /** The span reads back as its whole minutes, a backwards span as 0; an invalid end gives `NaNm`. */
  lemma {:induction false} SpanTextReads(a: JsDate, b: JsDate)
    ensures a.Time? && b.Time? && a.utc <= b.utc ==> WeeklyReport.ReadDuration(SpanText(a, b)) == Some((b.utc - a.utc) / 60)
    ensures a.Time? && b.Time? && b.utc < a.utc ==> SpanText(a, b) == "0m"
    ensures a.InvalidDate? || b.InvalidDate? ==> SpanText(a, b) == "NaNm"
  {
    if a.Time? && b.Time? {
      if a.utc <= b.utc {
        ForwardSpanReads(a.utc, b.utc);
      } else {
        assert (b.utc - a.utc) / 60 < 0;
        assert ListDuration(0) == "0m";
      }
    }
  }

  lemma {:induction false} ForwardSpanReads(a: int, b: int)
    requires a <= b
    ensures WeeklyReport.ReadDuration(SpanText(Time(a), Time(b))) == Some((b - a) / 60)
  {
    var m: nat := (b - a) / 60;
    assert SpanText(Time(a), Time(b)) == ListDuration(m);
    ListDurationAsReport(m);
    WeeklyReport.DurationRoundTrip(m);
  }

  // The screen

  /** The state of `MainScreen`, one field per state hook, and the stored completed list. */
  class MainScreen {
    var tasks: seq<Task>
    var fadingIds: set<string>
    var deleteMode: bool
    var markedForDelete: set<string>
    var form: Form
    var errors: Errors
    var editId: Option<string>
    var editForm: Form
    /** The `completedTasks` entry of the local storage, most recent first. */
    var completedTasks: seq<Task>

    /**
     * Every task has its own id: `find`, `map` and `filter` by id then touch
     * one task at most.
     */
    predicate Valid()
      reads this
    {
      DistinctIds(tasks)
    }

    /** The first render: an empty list and form, over what the storage already holds. */
    constructor (stored: seq<Task>)
      ensures Valid()
      ensures tasks == [] && fadingIds == {} && !deleteMode && markedForDelete == {}
      ensures form == EmptyForm && errors == NoErrors && editId == None && editForm == EmptyForm
      ensures completedTasks == stored
    {
      tasks := [];
      fadingIds := {};
      deleteMode := false;
      markedForDelete := {};
      form := EmptyForm;
      errors := NoErrors;
      editId := None;
      editForm := EmptyForm;
      completedTasks := stored;
    }

    /**
     * `addTask`: a form that fails validation sets the errors and changes
     * nothing else; otherwise one task is appended with the fresh id, the
     * form is cleared and the errors with it.
     */
    method AddTask(freshId: string, offset: int)
      modifies this`tasks, this`form, this`errors
      ensures var e := FormErrors(old(form), offset);
        if e.Any() then tasks == old(tasks) && errors == e && form == old(form)
        else tasks == old(tasks) + [NewTask(freshId, old(form))] && form == EmptyForm && errors == NoErrors
      ensures old(Valid()) && freshId !in Ids(old(tasks)) ==> Valid()
    {
      var eventTitle := Trim(form.event);
      var baseErrors := Errors(eventTitle == [], form.date == [], form.startTime == [], form.endDate == [], form.endTime == []);
      var timeOrderInvalid := false;
      if !baseErrors.date && !baseErrors.startTime && !baseErrors.endDate && !baseErrors.endTime {
        var start := StartOf(form, offset);
        var end := EndOf(form, offset);
        timeOrderInvalid := !Earlier(start, end);
      }
      var nextErrors := baseErrors.(startTime := baseErrors.startTime || timeOrderInvalid,
                                    endDate := baseErrors.endDate || timeOrderInvalid,
                                    endTime := baseErrors.endTime || timeOrderInvalid);
      if nextErrors.Any() {
        errors := nextErrors;
        return;
      }
      var newTask := Task(freshId, eventTitle, Trim(form.description), form.date, form.startTime,
                          form.endDate, form.endTime, false);
      AppendFresh(tasks, newTask);
      tasks := tasks + [newTask];
      form := EmptyForm;
      errors := NoErrors;
    }

    /**
     * `toggleCompleted`: an unknown id changes nothing; otherwise the task's
     * flag flips, and completing a task that was not completed puts it on the
     * fade list and a completed copy at the head of the stored list. The
     * checkbox is disabled in delete mode; the handler itself does not check.
     */
    method ToggleCompleted(taskId: string)
      modifies this`tasks, this`fadingIds, this`completedTasks
      ensures var found := Find(old(tasks), taskId);
        if found.None? then tasks == old(tasks) && fadingIds == old(fadingIds) && completedTasks == old(completedTasks)
        else
          tasks == Flip(old(tasks), taskId)
          && (if found.value.completed then fadingIds == old(fadingIds) && completedTasks == old(completedTasks)
              else fadingIds == old(fadingIds) + {taskId}
                   && completedTasks == [found.value.(completed := true)] + old(completedTasks))
      ensures old(Valid()) ==> Valid() && ChangesAtMostOne(old(tasks), tasks)
    {
      var task := Find(tasks, taskId);
      if task.None? {
        return;
      }
      FlipDistinct(tasks, taskId);
      tasks := Flip(tasks, taskId);
      if !task.value.completed {
        fadingIds := fadingIds + {taskId};
        completedTasks := [task.value.(completed := true)] + completedTasks;
      }
    }

    /** The end of the fade, 380 ms later: the task leaves the list and the fade list. */
    method FinishFade(id: string)
      modifies this`tasks, this`fadingIds
      ensures tasks == Without(old(tasks), {id}) && fadingIds == old(fadingIds) - {id}
      ensures old(Valid()) ==> Valid()
    {
      WithoutDistinct(tasks, {id});
      tasks := Without(tasks, {id});
      fadingIds := fadingIds - {id};
    }

    /**
     * `startEdit`: for a known id, the edit form takes the task's fields. The
     * edit button is disabled in delete mode; the handler itself does not check.
     */
    method StartEdit(taskId: string)
      modifies this`editId, this`editForm
      ensures var found := Find(old(tasks), taskId);
        if found.None? then editId == old(editId) && editForm == old(editForm)
        else
          var t := found.value;
          editId == Some(taskId) && editForm == Form(t.event, t.description, t.date, t.startTime, t.endDate, t.endTime)
    {
      var t := Find(tasks, taskId);
      if t.None? {
        return;
      }
      editId := Some(taskId);
      editForm := Form(t.value.event, t.value.description, t.value.date, t.value.startTime,
                       t.value.endDate, t.value.endTime);
    }

    /** `cancelEdit`: no task is being edited any more. */
    method CancelEdit()
      modifies this`editId
      ensures editId == None
    {
      editId := None;
    }

    /**
     * `saveEdit`: an edit form with an empty title or field, or whose start
     * is not before its end, changes nothing; otherwise the task being edited
     * takes the form's fields and the edit ends.
     */
    method SaveEdit(offset: int)
      modifies this`tasks, this`editId
      ensures var f := old(editForm);
        if Trim(f.event) == [] || f.date == [] || f.startTime == [] || f.endDate == [] || f.endTime == []
           || !Earlier(StartOf(f, offset), EndOf(f, offset))
        then tasks == old(tasks) && editId == old(editId)
        else tasks == ApplyEdit(old(tasks), old(editId), f) && editId == None
      ensures old(Valid()) ==> Valid() && ChangesAtMostOne(old(tasks), tasks)
    {
      var title := Trim(editForm.event);
      if title == [] || editForm.date == [] || editForm.startTime == [] || editForm.endDate == [] || editForm.endTime == [] {
        return;
      }
      var start := StartOf(editForm, offset);
      var end := EndOf(editForm, offset);
      if !Earlier(start, end) {
        return;
      }
      EditDistinct(tasks, editId, editForm);
      tasks := ApplyEdit(tasks, editId, editForm);
      editId := None;
    }

    /** The Delete Mode button. */
    method EnterDeleteMode()
      modifies this`deleteMode
      ensures deleteMode
    {
      deleteMode := true;
    }

    /** A click on a task: in delete mode it marks or unmarks the task's id, otherwise nothing happens. */
    method ClickTask(id: string)
      modifies this`markedForDelete
      ensures markedForDelete == if old(deleteMode) then Toggled(old(markedForDelete), id) else old(markedForDelete)
    {
      if deleteMode {
        var copy := markedForDelete;
        if id in copy {
          copy := copy - {id};
        } else {
          copy := copy + {id};
        }
        markedForDelete := copy;
      }
    }

    /** Save & Exit: the marked tasks leave the list, the rest keep their order; the marks and the mode end. */
    method SaveAndExit()
      modifies this`tasks, this`markedForDelete, this`deleteMode
      ensures tasks == Without(old(tasks), old(markedForDelete))
      ensures markedForDelete == {} && !deleteMode
      ensures old(Valid()) ==> Valid()
    {
      var ids := markedForDelete;
      WithoutDistinct(tasks, ids);
      tasks := Without(tasks, ids);
      markedForDelete := {};
      deleteMode := false;
    }

    /** Exit without Saving: the marks and the mode end, the list stays. */
    method ExitWithoutSaving()
      modifies this`markedForDelete, this`deleteMode
      ensures tasks == old(tasks) && markedForDelete == {} && !deleteMode
    {
      markedForDelete := {};
      deleteMode := false;
    }
  }

  /** Appending a task with an id not yet in the list keeps the ids distinct. */
  lemma {:induction false} AppendFresh(tasks: seq<Task>, t: Task)
    ensures DistinctIds(tasks) && t.id !in Ids(tasks) ==> DistinctIds(tasks + [t])
  {
    if DistinctIds(tasks) && t.id !in Ids(tasks) {
      forall i | 0 <= i < |tasks|
        ensures tasks[i].id != t.id
      {
        assert Ids(tasks)[i] == tasks[i].id;
      }
    }
  }

  /** With distinct ids, toggling keeps them distinct and touches one task at most. */
  lemma {:induction false} FlipDistinct(tasks: seq<Task>, id: string)
    ensures DistinctIds(tasks) ==> DistinctIds(Flip(tasks, id)) && ChangesAtMostOne(tasks, Flip(tasks, id))
  {
    FlipKeepsIds(tasks, id);
    DistinctOfIds(tasks, Flip(tasks, id));
  }

  /** With distinct ids, an edit keeps them distinct and touches one task at most. */
  lemma {:induction false} EditDistinct(tasks: seq<Task>, editId: Option<string>, f: Form)
    ensures DistinctIds(tasks) ==> DistinctIds(ApplyEdit(tasks, editId, f)) && ChangesAtMostOne(tasks, ApplyEdit(tasks, editId, f))
  {
    EditKeepsIds(tasks, editId, f);
    DistinctOfIds(tasks, ApplyEdit(tasks, editId, f));
  }

  /** Two lists with the same ids in the same order are both distinct or both not. */
  lemma {:induction false} DistinctOfIds(a: seq<Task>, b: seq<Task>)
    requires Ids(a) == Ids(b)
    ensures DistinctIds(a) <==> DistinctIds(b)
  {
    assert forall i :: 0 <= i < |a| ==> a[i].id == Ids(a)[i] == Ids(b)[i] == b[i].id;
  }
}
