/**
 * The weekly analytics: the keyword classifier `extractCategory`, the span of
 * a task (`parseLocalDateTime`, `getTaskHours`) and the aggregation of the
 * `useMemo` body into a daily map, a category map and a running total.
 * Spans are whole minutes instead of floating-point hours; NaN is kept,
 * because `x || 0` treats it apart from every number.
 */
module Analytics {
  import opened Common
  import opened JsText
  import opened Calendar
  import opened IcsDates

  /** The fields of a stored task the analytics read; a missing field is the empty string. */
  datatype Task = Task(date: string, startTime: string, endDate: string, endTime: string,
                       event: string, description: string)

  // `extractCategory`

  /** The text the classifier searches: the event, a space and the description, lower-cased. */
  function Text(event: string, description: string): string {
    ToLowerCase(event + " " + description)
  }

  const Labels: seq<string> := ["Meetings", "Study", "Work", "Exercise", "Classes", "Personal", "Other"]

  /** `extractCategory`: the category of the event and description's text. */
  function ExtractCategory(event: string, description: string): (r: string)
    ensures r in Labels
  {
    Classify(Text(event, description))
  }

  /** The tests of `extractCategory`: the first group of keywords found in the text names the category. */
  function Classify(text: string): (r: string)
    ensures r in Labels
  {
    if Contains(text, "meeting") || Contains(text, "call") then "Meetings"
    else if Contains(text, "study") || Contains(text, "homework") || Contains(text, "assignment") then "Study"
    else if Contains(text, "work") || Contains(text, "project") then "Work"
    else if Contains(text, "exercise") || Contains(text, "gym") || Contains(text, "workout") then "Exercise"
    else if Contains(text, "class") || Contains(text, "lecture") then "Classes"
    else if Contains(text, "personal") || Contains(text, "break") || Contains(text, "lunch") then "Personal"
    else "Other"
  }

  /** A category and the keywords that select it. */
  datatype Rule = Rule(category: string, keywords: seq<string>)

  /** The classifier's table, in the order its tests run. */
  const Rules: seq<Rule> := [
    Rule("Meetings", ["meeting", "call"]),
    Rule("Study", ["study", "homework", "assignment"]),
    Rule("Work", ["work", "project"]),
    Rule("Exercise", ["exercise", "gym", "workout"]),
    Rule("Classes", ["class", "lecture"]),
    Rule("Personal", ["personal", "break", "lunch"])
  ]

  /** Some keyword of `keywords` occurs in `text`. */
  predicate AnyOf(text: string, keywords: seq<string>) {
    keywords != [] && (Contains(text, keywords[0]) || AnyOf(text, keywords[1..]))
  }

  /** The category of the first rule from the `i`-th on with a keyword in `text`, or `Other`. */
  function FirstMatch(rules: seq<Rule>, text: string, i: nat): string
    requires i <= |rules|
    decreases |rules| - i
  {
    if i == |rules| then "Other"
    else if AnyOf(text, rules[i].keywords) then rules[i].category
    else FirstMatch(rules, text, i + 1)
  }

  lemma {:induction false} AnyOfTwo(text: string, a: string, b: string)
    ensures AnyOf(text, [a, b]) <==> Contains(text, a) || Contains(text, b)
  {
    assert [a, b][1..] == [b] && [b][1..] == [];
    assert AnyOf(text, [b]) <==> Contains(text, b);
  }

  lemma {:induction false} AnyOfThree(text: string, a: string, b: string, c: string)
    ensures AnyOf(text, [a, b, c]) <==> Contains(text, a) || Contains(text, b) || Contains(text, c)
  {
    assert [a, b, c][1..] == [b, c];
    AnyOfTwo(text, b, c);
  }

  /** `extractCategory` is the first matching rule of the table. */
  lemma {:induction false} CategoryByRules(text: string)
    ensures Classify(text) == FirstMatch(Rules, text, 0)
  {
    AnyOfTwo(text, "meeting", "call");
    AnyOfThree(text, "study", "homework", "assignment");
    AnyOfTwo(text, "work", "project");
    AnyOfThree(text, "exercise", "gym", "workout");
    AnyOfTwo(text, "class", "lecture");
    AnyOfThree(text, "personal", "break", "lunch");
    assert FirstMatch(Rules, text, 6) == "Other";
    assert FirstMatch(Rules, text, 5) == if AnyOf(text, Rules[5].keywords) then "Personal" else "Other";
    assert FirstMatch(Rules, text, 4) == if AnyOf(text, Rules[4].keywords) then "Classes" else FirstMatch(Rules, text, 5);
    assert FirstMatch(Rules, text, 3) == if AnyOf(text, Rules[3].keywords) then "Exercise" else FirstMatch(Rules, text, 4);
    assert FirstMatch(Rules, text, 2) == if AnyOf(text, Rules[2].keywords) then "Work" else FirstMatch(Rules, text, 3);
    assert FirstMatch(Rules, text, 1) == if AnyOf(text, Rules[1].keywords) then "Study" else FirstMatch(Rules, text, 2);
  }

  /** The first rule whose keywords occur wins, whatever later rules match. */
  lemma {:induction false} FirstMatchAt(rules: seq<Rule>, text: string, from: nat, i: nat)
    requires from <= i < |rules| && AnyOf(text, rules[i].keywords)
    requires forall j :: from <= j < i ==> !AnyOf(text, rules[j].keywords)
    ensures FirstMatch(rules, text, from) == rules[i].category
    decreases i - from
  {
    if from < i {
      FirstMatchAt(rules, text, from + 1, i);
    }
  }

  /** `Other` exactly when no rule matches (no rule is labelled `Other`). */
  lemma {:induction false} FirstMatchOther(rules: seq<Rule>, text: string, from: nat)
    requires from <= |rules|
    requires forall j :: 0 <= j < |rules| ==> rules[j].category != "Other"
    ensures FirstMatch(rules, text, from) == "Other" <==> forall j :: from <= j < |rules| ==> !AnyOf(text, rules[j].keywords)
    decreases |rules| - from
  {
    if from < |rules| {
      FirstMatchOther(rules, text, from + 1);
    }
  }

  /** `p` occurring at position `i` of `s`. */
  lemma {:induction false} ContainsAt(s: string, p: string, i: nat)
    requires i + |p| <= |s| && s[i..i + |p|] == p
    ensures Contains(s, p)
    decreases i
  {
    if i > 0 {
      assert s[1..][i - 1..i - 1 + |p|] == s[i..i + |p|];
      ContainsAt(s[1..], p, i - 1);
    } else {
      assert s[..|p|] == p;
    }
  }

  /** A text that starts with `big` holds everything `big` holds. */
  lemma {:induction false} ContainsInPrefix(s: string, big: string, small: string)
    requires StartsWith(s, big) && Contains(big, small)
    ensures Contains(s, small)
    decreases |big|
  {
    if StartsWith(big, small) {
      assert s[..|small|] == big[..|big|][..|small|];
    } else {
      assert s[1..][..|big| - 1] == big[1..];
      ContainsInPrefix(s[1..], big[1..], small);
    }
  }

  /** Containment is transitive. */
  lemma {:induction false} ContainsWithin(s: string, big: string, small: string)
    requires Contains(s, big) && Contains(big, small)
    ensures Contains(s, small)
    decreases |s|
  {
    if StartsWith(s, big) {
      ContainsInPrefix(s, big, small);
    } else {
      ContainsWithin(s[1..], big, small);
    }
  }

  /**
   * "homework" also contains "work", yet Study is tested before Work: a text
   * with "homework" and no meeting keyword is Study although the Work rule matches.
   */
  lemma {:induction false} HomeworkIsStudy(event: string, description: string)
    requires Contains(Text(event, description), "homework")
    requires !Contains(Text(event, description), "meeting") && !Contains(Text(event, description), "call")
    ensures ExtractCategory(event, description) == "Study"
    ensures AnyOf(Text(event, description), Rules[2].keywords)
  {
    ContainsAt("homework", "work", 4);
    ContainsWithin(Text(event, description), "homework", "work");
    AnyOfTwo(Text(event, description), "work", "project");
  }

  /**
   * "workout" is an Exercise keyword but contains "work", which is tested
   * first: without meeting or study keywords such a text is Work.
   */
  lemma {:induction false} WorkoutIsWork(event: string, description: string)
    requires Contains(Text(event, description), "workout")
    requires !AnyOf(Text(event, description), Rules[0].keywords)
    requires !AnyOf(Text(event, description), Rules[1].keywords)
    ensures ExtractCategory(event, description) == "Work"
    ensures AnyOf(Text(event, description), Rules[3].keywords)
  {
    var text := Text(event, description);
    ContainsAt("workout", "work", 0);
    ContainsWithin(text, "workout", "work");
    AnyOfTwo(text, "work", "project");
    AnyOfThree(text, "exercise", "gym", "workout");
    FirstMatchAt(Rules, text, 0, 2);
    CategoryByRules(text);
  }

  lemma {:induction false} LowerConcat(a: string, b: string)
    ensures ToLowerCase(a + b) == ToLowerCase(a) + ToLowerCase(b)
  {
    var l, r := ToLowerCase(a + b), ToLowerCase(a) + ToLowerCase(b);
    assert forall k :: 0 <= k < |l| ==> l[k] == r[k] by {
      forall k | 0 <= k < |l|
        ensures l[k] == r[k]
      {
        if k < |a| {
          assert (a + b)[k] == a[k];
        } else {
          assert (a + b)[k] == b[k - |a|];
        }
      }
    }
  }

  /** Matching ignores the case of ASCII letters in the event and the description. */
  lemma {:induction false} CategoryIgnoresCase(e1: string, d1: string, e2: string, d2: string)
    requires ToLowerCase(e1) == ToLowerCase(e2) && ToLowerCase(d1) == ToLowerCase(d2)
    ensures ExtractCategory(e1, d1) == ExtractCategory(e2, d2)
  {
    LowerConcat(e1 + " ", d1);
    LowerConcat(e1, " ");
    LowerConcat(e2 + " ", d2);
    LowerConcat(e2, " ");
    assert Text(e1, d1) == Text(e2, d2);
  }

  /** The KELVIN SIGN lower-cases to `k`: `WOR` followed by it is a work item. */
  lemma {:induction false} KelvinSignIsWork()
    ensures ExtractCategory("WOR\U{212A}", "") == "Work"
  {
    KelvinLowered();
    WorkAlone();
  }

  lemma {:induction false} KelvinLowered()
    ensures Text("WOR\U{212A}", "") == "work "
  {
    var s := "WOR\U{212A}" + " " + "";
    assert s == ['W', 'O', 'R', '\U{212A}', ' '];
    var r := ToLowerCase(s);
    assert r[0] == 'w' && r[1] == 'o' && r[2] == 'r' && r[3] == 'k' && r[4] == ' ';
  }

  lemma {:induction false} WorkAlone()
    ensures Classify("work ") == "Work"
  {
    var text := "work ";
    assert text[0..4] == "work";
    ContainsAt(text, "work", 0);
    FirstCharAbsent(text, "meeting");
    FirstCharAbsent(text, "call");
    FirstCharAbsent(text, "study");
    FirstCharAbsent(text, "homework");
    FirstCharAbsent(text, "assignment");
    WorkAfterMisses(text);
  }

  /** A text with none of the keywords of the first two tests and with `work` is a work item. */
  lemma {:induction false} WorkAfterMisses(text: string)
    requires !Contains(text, "meeting") && !Contains(text, "call")
    requires !Contains(text, "study") && !Contains(text, "homework") && !Contains(text, "assignment")
    requires Contains(text, "work")
    ensures Classify(text) == "Work"
  {
  }

  /** A keyword whose first character is not in the text does not occur in it. */
  lemma {:induction false} FirstCharAbsent(s: string, p: string)
    requires p != [] && p[0] !in s
    ensures !Contains(s, p)
    decreases |s|
  {
    if s != [] {
      assert s[0] != p[0];
      assert forall c :: c in s[1..] ==> c in s;
      FirstCharAbsent(s[1..], p);
    }
  }

  // `parseLocalDateTime` and `getTaskHours`

  /** `x || d` on a number read by `Number`: NaN, `undefined` (`None`) and 0 give `d`. */
  function OrDefault(x: Option<int>, d: int): int {
    if x.Some? && x.value != 0 then x.value else d
  }

  /** The `k`-th part of a split read by `Number`; a missing part is `undefined`. */
  function Part(parts: seq<string>, k: nat): Option<int> {
    if k < |parts| then JsNumber(parts[k]) else None
  }

  /**
   * `new Date(y, (m || 1) - 1, d || 1, hh || 0, mm || 0, 0, 0)` of the parts of
   * `ymd` split at `-` and of `hhmm` split at `:`, read by `Number`, in a zone
   * `offset` seconds ahead of UTC.
   */
  function LocalDateTime(ymd: string, hhmm: string, offset: int): (r: JsDate)
    ensures JsNumber(SplitOn(ymd, '-')[0]).None? ==> r == InvalidDate
  {
    var ds := SplitOn(ymd, '-');
    var ts := SplitOn(hhmm, ':');
    NewLocalDate(JsNumber(ds[0]), Some(OrDefault(Part(ds, 1), 1) - 1), Some(OrDefault(Part(ds, 2), 1)),
                 Some(OrDefault(Part(ts, 0), 0)), Some(OrDefault(Part(ts, 1), 0)), Some(0), offset)
  }

  /** `parseLocalDateTime`: `null` (`None`) for an empty date, otherwise the local date and time. */
  function ParseLocalDateTime(ymd: string, hhmm: string, offset: int): (r: Option<JsDate>)
    ensures r.None? <==> ymd == []
  {
    if ymd == [] then None else Some(LocalDateTime(ymd, hhmm, offset))
  }

  /** A whole number of minutes, or NaN. */
  datatype Minutes = Finite(value: nat) | NaN

  /**
   * `getTaskHours`, in minutes: the span from `date` + `startTime` to
   * `endDate` (or `date` when it is missing) + `endTime`, never negative, and 0
   * when either end has no date.
   */
  function TaskMinutes(t: Task, offset: int): (r: Minutes)
    ensures t.date == [] ==> r == Finite(0)
  {
    var start := ParseLocalDateTime(t.date, t.startTime, offset);
    var end := ParseLocalDateTime(if t.endDate == [] then t.date else t.endDate, t.endTime, offset);
    if start.None? || end.None? then Finite(0)
    else
      match (start.value, end.value)
      case (Time(a), Time(b)) => Finite(SpanMinutes(a, b))
      case _ => NaN
  }

  /** `Math.max(0, (end - start) / 3600000)`, in minutes, of two time values in seconds. */
  function SpanMinutes(a: int, b: int): nat {
    if b <= a then 0 else (b - a) / 60
  }

  /** A task without `endDate` ends on its `date`. */
  lemma {:induction false} MissingEndDate(t: Task, offset: int)
    requires t.endDate == []
    ensures TaskMinutes(t, offset) == TaskMinutes(t.(endDate := t.date), offset)
  {
  }

  /** `HH:MM`. */
  function Clock(h: nat, mi: nat): string {
    Pad2(h) + ":" + Pad2(mi)
  }

  /** The minute of a local wall-clock reading, counted from 1970-01-01 00:00. */
  function LocalMinute(d: Date, h: int, mi: int): int
    requires ValidDate(d)
  {
    DayNumber(d) * 1440 + h * 60 + mi
  }

  /** A date of year 100 on, and a time of day: the fields the form and the importer write. */
  predicate Reading(d: Date, h: nat, mi: nat) {
    ValidDate(d) && d.year >= 100 && h < 24 && mi < 60
  }

  lemma {:induction false} SplitAround(a: string, sep: char, b: string)
    requires sep !in a
    ensures SplitOn(a + [sep] + b, sep) == [a] + SplitOn(b, sep)
  {
    var s := a + [sep] + b;
    assert s[|a|] == sep && s[..|a|] == a && s[|a| + 1..] == b;
  }

  lemma {:induction false} NumberOfDigits(s: string)
    requires s != [] && AllDigits(s)
    ensures JsNumber(s) == Some(DigitsValue(s)) && '-' !in s && ':' !in s
  {
    assert !IsJsWhitespace(s[0]) && !IsJsWhitespace(s[|s| - 1]);
    assert TrimStartBy(s, IsJsWhitespace) == s;
  }

  lemma {:induction false} IsoDateParts(d: Date)
    requires ValidDate(d) && d.year >= 0
    ensures IsoDate(d) == NatToString(d.year) + ['-'] + (Pad2(d.month) + ['-'] + Pad2(d.day))
  {
  }

  /** Two parts around a separator that neither holds. */
  lemma {:induction false} SplitTwo(a: string, sep: char, b: string)
    requires sep !in a && sep !in b
    ensures SplitOn(a + [sep] + b, sep) == [a, b]
  {
    SplitAround(a, sep, b);
  }

  /** Three parts around two separators that none holds. */
  lemma {:induction false} SplitThree(a: string, sep: char, b: string, c: string)
    requires sep !in a && sep !in b && sep !in c
    ensures SplitOn(a + [sep] + (b + [sep] + c), sep) == [a, b, c]
  {
    SplitAround(a, sep, b + [sep] + c);
    SplitTwo(b, sep, c);
  }

  /** A field of one or two digits, as the form writes it, read by `Number`. */
  lemma {:induction false} ReadPadded(n: nat)
    requires n < 100
    ensures JsNumber(Pad2(n)) == Some(n) && '-' !in Pad2(n) && ':' !in Pad2(n)
  {
    Pad2Digits(n);
    NumberOfDigits(Pad2(n));
  }

  lemma {:induction false} ReadYear(y: nat)
    ensures JsNumber(NatToString(y)) == Some(y) && '-' !in NatToString(y)
  {
    DigitsOfNatToString(y);
    NumberOfDigits(NatToString(y));
  }

  /** The parts of `YYYY-MM-DD`, read as numbers. */
  lemma {:induction false} ReadDateParts(d: Date)
    requires ValidDate(d) && d.year >= 0
    ensures var ds := SplitOn(IsoDate(d), '-');
      |ds| == 3 && JsNumber(ds[0]) == Some(d.year) && Part(ds, 1) == Some(d.month) && Part(ds, 2) == Some(d.day)
  {
    assert d.day <= DaysInMonth(d.year, d.month) <= 31;
    ReadYear(d.year);
    ReadPadded(d.month);
    ReadPadded(d.day);
    var y, m, dd := NatToString(d.year), Pad2(d.month), Pad2(d.day);
    DateTextParts(d);
    PartsRead(SplitOn(IsoDate(d), '-'), y, m, dd, d.year, d.month, d.day);
  }

  /** `YYYY-MM-DD` splits at its two dashes into the year, the month and the day. */
  lemma {:induction false} DateTextParts(d: Date)
    requires ValidDate(d) && d.year >= 0
    ensures SplitOn(IsoDate(d), '-') == [NatToString(d.year), Pad2(d.month), Pad2(d.day)]
  {
    var y, m, dd := NatToString(d.year), Pad2(d.month), Pad2(d.day);
    Pad2Digits(d.month);
    Pad2Digits(d.day);
    DigitsWithout(y, '-');
    DigitsWithout(m, '-');
    DigitsWithout(dd, '-');
    IsoDateParts(d);
    SplitThree(y, '-', m, dd);
  }

  lemma {:induction false} DigitsWithout(s: string, c: char)
    requires AllDigits(s) && !IsDigit(c)
    ensures c !in s
  {
  }

  lemma {:induction false} PartsRead(ds: seq<string>, a: string, b: string, c: string, x: int, y: int, z: int)
    requires ds == [a, b, c]
    requires JsNumber(a) == Some(x) && JsNumber(b) == Some(y) && JsNumber(c) == Some(z)
    ensures |ds| == 3 && JsNumber(ds[0]) == Some(x) && Part(ds, 1) == Some(y) && Part(ds, 2) == Some(z)
  {
  }

  /** The parts of `HH:MM`, read as numbers. */
  lemma {:induction false} ReadClockParts(h: nat, mi: nat)
    requires h < 24 && mi < 60
    ensures var ts := SplitOn(Clock(h, mi), ':');
      |ts| == 2 && Part(ts, 0) == Some(h) && Part(ts, 1) == Some(mi)
  {
    ReadPadded(h);
    ReadPadded(mi);
    var ts := SplitOn(Clock(h, mi), ':');
    assert Clock(h, mi) == Pad2(h) + [':'] + Pad2(mi);
    SplitTwo(Pad2(h), ':', Pad2(mi));
    PairRead(ts, Pad2(h), Pad2(mi), h, mi);
  }

  lemma {:induction false} PairRead(ts: seq<string>, a: string, b: string, x: int, y: int)
    requires ts == [a, b] && JsNumber(a) == Some(x) && JsNumber(b) == Some(y)
    ensures |ts| == 2 && Part(ts, 0) == Some(x) && Part(ts, 1) == Some(y)
  {
  }

  /** `new Date(y, m - 1, d, h, mi, 0)` of a valid reading is its local minute, shifted to UTC. */
  lemma {:induction false} LocalDateOfReading(d: Date, h: nat, mi: nat, offset: int)
    requires Reading(d, h, mi)
    ensures NewLocalDate(Some(d.year), Some(d.month - 1), Some(d.day), Some(h), Some(mi), Some(0), offset)
         == TimeClip(LocalMinute(d, h, mi) * 60 - offset)
  {
    MakeDayOfDate(d);
    assert FullYear(d.year) == d.year;
    MinuteSeconds(DayNumber(d), h, mi);
  }

  lemma {:induction false} MinuteSeconds(day: int, h: int, mi: int)
    ensures MakeDate(day, MakeTime(h, mi, 0)) == (day * 1440 + h * 60 + mi) * 60
  {
  }

  /** A date text whose first three `-`-separated parts read as the year, month and day of `d`. */
  predicate DateReadsAs(ymd: string, d: Date) {
    ymd != [] &&
    var ds := SplitOn(ymd, '-');
    JsNumber(ds[0]) == Some(d.year) && Part(ds, 1) == Some(d.month) && Part(ds, 2) == Some(d.day)
  }

  /** A time text whose two `:`-separated parts read as `h` and `mi`. */
  predicate ClockReadsAs(hhmm: string, h: nat, mi: nat) {
    var ts := SplitOn(hhmm, ':');
    Part(ts, 0) == Some(h) && Part(ts, 1) == Some(mi)
  }

  /** The form's `YYYY-MM-DD` reads as its date. */
  lemma {:induction false} IsoDateReads(d: Date)
    requires ValidDate(d) && d.year >= 0
    ensures DateReadsAs(IsoDate(d), d)
  {
    ReadDateParts(d);
    IsoDateParts(d);
  }

  /** The form's `HH:MM` reads as its time. */
  lemma {:induction false} ClockReads(h: nat, mi: nat)
    requires h < 24 && mi < 60
    ensures ClockReadsAs(Clock(h, mi), h, mi)
  {
    ReadClockParts(h, mi);
  }

  /** The date arguments `parseLocalDateTime` passes to `new Date` for a text that reads as `d`. */
  lemma {:induction false} DateArguments(ymd: string, d: Date)
    requires DateReadsAs(ymd, d) && d.month != 0 && d.day != 0
    ensures var ds := SplitOn(ymd, '-');
      JsNumber(ds[0]) == Some(d.year) && OrDefault(Part(ds, 1), 1) - 1 == d.month - 1 &&
      OrDefault(Part(ds, 2), 1) == d.day
  {
  }

  /** The time arguments `parseLocalDateTime` passes to `new Date` for a text that reads as `h` and `mi`. */
  lemma {:induction false} ClockArguments(hhmm: string, h: nat, mi: nat)
    requires ClockReadsAs(hhmm, h, mi)
    ensures var ts := SplitOn(hhmm, ':');
      OrDefault(Part(ts, 0), 0) == h && OrDefault(Part(ts, 1), 0) == mi
  {
  }

  /** `parseLocalDateTime` of texts that read as a date with non-zero month and day and as a time. */
  lemma {:induction false} ParseOfParts(ymd: string, hhmm: string, offset: int, d: Date, h: nat, mi: nat)
    requires DateReadsAs(ymd, d) && ClockReadsAs(hhmm, h, mi) && d.month != 0 && d.day != 0
    ensures ParseLocalDateTime(ymd, hhmm, offset)
         == Some(NewLocalDate(Some(d.year), Some(d.month - 1), Some(d.day), Some(h), Some(mi), Some(0), offset))
  {
    DateArguments(ymd, d);
    ClockArguments(hhmm, h, mi);
  }

  /**
   * A date text and a time text that read as a valid reading `d`, `h`:`mi`,
   * whose instant `offset` seconds ahead of UTC is within the range of a time value.
   */
  predicate ReadsAs(ymd: string, hhmm: string, d: Date, h: nat, mi: nat, offset: int) {
    Reading(d, h, mi) && DateReadsAs(ymd, d) && ClockReadsAs(hhmm, h, mi) &&
    -MaxTimeSeconds <= LocalMinute(d, h, mi) * 60 - offset <= MaxTimeSeconds
  }

  /** A date and a time that read as a valid reading are that local minute, shifted to UTC. */
  lemma {:induction false} ParseReading(ymd: string, hhmm: string, d: Date, h: nat, mi: nat, offset: int)
    requires ReadsAs(ymd, hhmm, d, h, mi, offset)
    ensures ParseLocalDateTime(ymd, hhmm, offset) == Some(Time(LocalMinute(d, h, mi) * 60 - offset))
  {
    ParseOfParts(ymd, hhmm, offset, d, h, mi);
    LocalDateOfReading(d, h, mi, offset);
  }

  /**
   * The span of a task whose two ends parse as whole local minutes `a` and `b`
   * (as `ParseReading` shows the form's texts do) is `b - a`, or 0 when the
   * end is not after the start.
   */
  lemma {:induction false} SpanOfReadings(t: Task, sa: int, sb: int, a: int, b: int, offset: int)
    requires t.endDate != []
    requires ParseLocalDateTime(t.date, t.startTime, offset) == Some(Time(sa))
    requires ParseLocalDateTime(t.endDate, t.endTime, offset) == Some(Time(sb))
    requires sa == a * 60 - offset && sb == b * 60 - offset
    ensures TaskMinutes(t, offset) == Finite(if b <= a then 0 else b - a)
  {
    SpanOfInstants(t, offset, sa, sb);
    MinutesScaled(TaskMinutes(t, offset), sa, sb, a, b, offset);
  }

  lemma {:induction false} MinutesScaled(x: Minutes, sa: int, sb: int, a: int, b: int, offset: int)
    requires x == Finite(SpanMinutes(sa, sb)) && sa == a * 60 - offset && sb == b * 60 - offset
    ensures x == Finite(if b <= a then 0 else b - a)
  {
    SpanScaled(a, b, offset);
  }

  /** Two valid instants: the span is their difference in minutes, or 0. */
  lemma {:induction false} SpanOfInstants(t: Task, offset: int, a: int, b: int)
    requires t.endDate != []
    requires ParseLocalDateTime(t.date, t.startTime, offset) == Some(Time(a))
    requires ParseLocalDateTime(t.endDate, t.endTime, offset) == Some(Time(b))
    ensures TaskMinutes(t, offset) == Finite(SpanMinutes(a, b))
  {
  }

  lemma {:induction false} SpanScaled(a: int, b: int, offset: int)
    ensures SpanMinutes(a * 60 - offset, b * 60 - offset) == if b <= a then 0 else b - a
  {
    assert (b * 60 - offset) - (a * 60 - offset) == (b - a) * 60;
  }

  // The aggregation

  /** `x || 0` for a value read from a map: missing, NaN and 0 give 0. */
  function OrZero(x: Option<Minutes>): nat {
    if x.Some? && x.value.Finite? then x.value.value else 0
  }

  /** `+` on minutes: NaN absorbs. */
  function Plus(a: Minutes, b: Minutes): (r: Minutes)
    ensures r.Finite? <==> a.Finite? && b.Finite?
  {
    if a.Finite? && b.Finite? then Finite(a.value + b.value) else NaN
  }

  /** An entry of a `Map`; a `Map` is its entries in insertion order. */
  datatype Entry = Entry(key: string, value: Minutes)

  /** `map.get(k)`: the value of the first entry with key `k`. */
  function Get(es: seq<Entry>, k: string): (r: Option<Minutes>)
    ensures r.None? <==> forall i :: 0 <= i < |es| ==> es[i].key != k
  {
    if es == [] then None else if es[0].key == k then Some(es[0].value) else Get(es[1..], k)
  }

  /** `map.set(k, v)`: an existing key keeps its place, a new one goes last. */
  function Put(es: seq<Entry>, k: string, v: Minutes): (r: seq<Entry>)
    ensures Get(r, k) == Some(v)
    ensures forall j :: j != k ==> Get(r, j) == Get(es, j)
  {
    if es == [] then [Entry(k, v)]
    else if es[0].key == k then [Entry(k, v)] + es[1..]
    else [es[0]] + Put(es[1..], k, v)
  }

  /** `map.set(k, (map.get(k) || 0) + m)`. */
  function AddTo(es: seq<Entry>, k: string, m: Minutes): seq<Entry> {
    Put(es, k, Plus(Finite(OrZero(Get(es, k))), m))
  }

  /** The two maps and the running total. */
  datatype Totals = Totals(daily: seq<Entry>, categories: seq<Entry>, total: Minutes)

  /** One turn of the `forEach`: `m` minutes under `day` (unless it is empty) and `category`, and in the total. */
  function Add(a: Totals, day: string, category: string, m: Minutes): Totals {
    Totals(if day != [] then AddTo(a.daily, day, m) else a.daily,
           AddTo(a.categories, category, m),
           Plus(a.total, m))
  }

  /** The `forEach` over the tasks, from the first to the last. */
  function Accumulate(tasks: seq<Task>, offset: int): Totals {
    if tasks == [] then Totals([], [], Finite(0))
    else
      var t := tasks[|tasks| - 1];
      Add(Accumulate(tasks[..|tasks| - 1], offset), t.date, ExtractCategory(t.event, t.description), TaskMinutes(t, offset))
  }

  /** What the aggregation returns; `taskCount` is absent (`None`) for an empty list. */
  datatype Report = Report(dailyHours: seq<Entry>, categoryBreakdown: seq<Entry>, totalHours: Minutes,
                           taskCount: Option<nat>)

  /**
   * `Math.round(hours * 10)` for `m` minutes, the tenths of an hour the
   * breakdown shows and sorts on: the whole number nearest to `m / 6`,
   * halves rounded up.
   */
  function Tenths(m: nat): (r: nat)
    ensures 6 * r <= m + 3 < 6 * r + 6
  {
    (m + 3) / 6
  }

  /**
   * `b` comes before `a` in `sort((a, b) => b.hours - a.hours)` on the rounded
   * hours: only a larger rounded value moves ahead, and NaN compares as equal.
   */
  predicate Before(b: Entry, a: Entry) {
    a.value.Finite? && b.value.Finite? && Tenths(b.value.value) > Tenths(a.value.value)
  }

  /** Places `e` after the last entry it does not come before. */
  function InsertDescending(r: seq<Entry>, e: Entry): (q: seq<Entry>)
    ensures |q| == |r| + 1 && multiset(q) == multiset(r) + multiset{e}
  {
    if r == [] || !Before(e, r[|r| - 1]) then r + [e]
    else
      var init := r[..|r| - 1];
      assert r == init + [r[|r| - 1]];
      InsertDescending(init, e) + [r[|r| - 1]]
  }

  /** The breakdown's stable sort by rounded hours, largest first. */
  function SortDescending(es: seq<Entry>): (r: seq<Entry>)
    ensures |r| == |es| && multiset(r) == multiset(es)
  {
    if es == [] then []
    else
      assert es == es[..|es| - 1] + [es[|es| - 1]];
      InsertDescending(SortDescending(es[..|es| - 1]), es[|es| - 1])
  }

  /** The `useMemo` body, as if `extractCategory` were already initialised. */
  function AnalyticsOf(tasks: seq<Task>, offset: int): Report {
    if tasks == [] then Report([], [], Finite(0), None)
    else
      var a := Accumulate(tasks, offset);
      Report(a.daily, SortDescending(a.categories), a.total, Some(|tasks|))
  }

  /** The aggregation loop. */
  method Analyze(tasks: seq<Task>, offset: int) returns (r: Report)
    ensures r == AnalyticsOf(tasks, offset)
  {
    if |tasks| == 0 {
      return Report([], [], Finite(0), None);
    }
    var dailyMap: seq<Entry> := [];
    var categoryMap: seq<Entry> := [];
    var totalHours := Finite(0);
    for i := 0 to |tasks|
      invariant Totals(dailyMap, categoryMap, totalHours) == Accumulate(tasks[..i], offset)
    {
      assert tasks[..i + 1][..i] == tasks[..i];
      var task := tasks[i];
      var hours := TaskMinutes(task, offset);
      totalHours := Plus(totalHours, hours);
      if task.date != [] {
        var current := OrZero(Get(dailyMap, task.date));
        dailyMap := Put(dailyMap, task.date, Plus(Finite(current), hours));
      }
      var category := ExtractCategory(task.event, task.description);
      var catCurrent := OrZero(Get(categoryMap, category));
      categoryMap := Put(categoryMap, category, Plus(Finite(catCurrent), hours));
    }
    assert tasks[..|tasks|] == tasks;
    r := Report(dailyMap, SortDescending(categoryMap), totalHours, Some(|tasks|));
  }

  /**
   * The component as it is written: the `useMemo` callback runs during the
   * render, while the `const extractCategory` declared after it is still
   * uninitialised, so the first task's category lookup throws a ReferenceError
   * and only the empty list gets a report.
   */
  datatype Outcome = Computed(report: Report) | ReferenceError

  function AnalyticsAsWritten(tasks: seq<Task>, offset: int): Outcome {
    if tasks == [] then Computed(Report([], [], Finite(0), None)) else ReferenceError
  }

  /** As written, the component agrees with the intended aggregation on the empty list only. */
  lemma {:induction false} AsWrittenThrows(tasks: seq<Task>, offset: int)
    ensures AnalyticsAsWritten(tasks, offset) == Computed(AnalyticsOf(tasks, offset)) <==> tasks == []
    ensures tasks != [] ==> AnalyticsAsWritten(tasks, offset) == ReferenceError
  {
  }

  // What the aggregation promises

  /** An empty task list gives empty breakdowns, a zero total and no task count. */
  lemma {:induction false} EmptyAnalytics(offset: int)
    ensures AnalyticsOf([], offset) == Report([], [], Finite(0), None)
  {
  }

  /** The sum of the entries' minutes, NaN counted as 0. */
  function Sum(es: seq<Entry>): nat {
    if es == [] then 0 else OrZero(Some(es[0].value)) + Sum(es[1..])
  }

  predicate AllFinite(es: seq<Entry>) {
    forall i :: 0 <= i < |es| ==> es[i].value.Finite?
  }

  /** Every task has a finite span. */
  predicate FiniteSpans(tasks: seq<Task>, offset: int) {
    forall i :: 0 <= i < |tasks| ==> TaskMinutes(tasks[i], offset).Finite?
  }

  /** Adding `m` minutes under a key adds `m` to the sum, whether the key is new or not. */
  lemma {:induction false} SumAddTo(es: seq<Entry>, k: string, m: nat)
    ensures Sum(AddTo(es, k, Finite(m))) == Sum(es) + m
    decreases |es|
  {
    if es != [] && es[0].key != k {
      SumAddTo(es[1..], k, m);
      assert AddTo(es, k, Finite(m)) == [es[0]] + AddTo(es[1..], k, Finite(m));
    }
  }

  /** Adding a finite value keeps every value finite. */
  lemma {:induction false} FiniteAddTo(es: seq<Entry>, k: string, m: nat)
    requires AllFinite(es)
    ensures AllFinite(AddTo(es, k, Finite(m)))
    decreases |es|
  {
    if es != [] && es[0].key != k {
      FiniteAddTo(es[1..], k, m);
      assert AddTo(es, k, Finite(m)) == [es[0]] + AddTo(es[1..], k, Finite(m));
    }
  }

  /** Both maps hold finite values only, and each adds up to a finite total. */
  predicate Balanced(a: Totals) {
    a.total.Finite? && AllFinite(a.categories) && AllFinite(a.daily)
    && Sum(a.categories) == a.total.value && Sum(a.daily) == a.total.value
  }

  /** Adding finite minutes keeps the maps balanced against the total. */
  lemma {:induction false} AddBalanced(a: Totals, day: string, category: string, m: nat)
    requires Balanced(a) && (day != [] || m == 0)
    ensures Balanced(Add(a, day, category, Finite(m)))
  {
    var b := Add(a, day, category, Finite(m));
    assert b.total == Finite(a.total.value + m);
    SumAddTo(a.categories, category, m);
    FiniteAddTo(a.categories, category, m);
    if day != [] {
      SumAddTo(a.daily, day, m);
      FiniteAddTo(a.daily, day, m);
    } else {
      assert b.daily == a.daily;
    }
  }

  /**
   * With every span finite, each task's minutes are counted once in the
   * category map and once in the daily map (an undated task spans 0): both
   * maps add up to the total.
   */
  lemma {:induction false} MapsAddUp(tasks: seq<Task>, offset: int)
    requires FiniteSpans(tasks, offset)
    ensures Balanced(Accumulate(tasks, offset))
    decreases |tasks|
  {
    if tasks != [] {
      var init := tasks[..|tasks| - 1];
      var t := tasks[|tasks| - 1];
      assert FiniteSpans(init, offset) by {
        assert forall i :: 0 <= i < |init| ==> init[i] == tasks[i];
      }
      MapsAddUp(init, offset);
      var m := TaskMinutes(t, offset);
      assert m.Finite?;
      AddBalanced(Accumulate(init, offset), t.date, ExtractCategory(t.event, t.description), m.value);
    }
  }

  /** No entry exceeds the sum of its map. */
  lemma {:induction false} EntryAtMostSum(es: seq<Entry>, i: nat)
    requires i < |es| && es[i].value.Finite?
    ensures es[i].value.value <= Sum(es)
    decreases i
  {
    if i > 0 {
      EntryAtMostSum(es[1..], i - 1);
    }
  }

  lemma {:induction false} SumInsert(r: seq<Entry>, e: Entry)
    ensures Sum(InsertDescending(r, e)) == Sum(r) + OrZero(Some(e.value))
    decreases |r|
  {
    if r == [] || !Before(e, r[|r| - 1]) {
      SumAppend(r, [e]);
    } else {
      var init := r[..|r| - 1];
      var last := [r[|r| - 1]];
      assert r == init + last;
      assert InsertDescending(r, e) == InsertDescending(init, e) + last;
      SumInsert(init, e);
      SumAppend(InsertDescending(init, e), last);
      SumAppend(init, last);
    }
  }

  lemma {:induction false} SumAppend(a: seq<Entry>, b: seq<Entry>)
    ensures Sum(a + b) == Sum(a) + Sum(b)
    decreases |a|
  {
    if a != [] {
      assert (a + b)[1..] == a[1..] + b;
      SumAppend(a[1..], b);
    } else {
      assert a + b == b;
    }
  }

  /** Sorting the breakdown keeps its sum. */
  lemma {:induction false} SumSorted(es: seq<Entry>)
    ensures Sum(SortDescending(es)) == Sum(es)
    decreases |es|
  {
    if es != [] {
      var init, x := es[..|es| - 1], es[|es| - 1];
      assert es == init + [x];
      assert SortDescending(es) == InsertDescending(SortDescending(init), x);
      SumSorted(init);
      SumInsert(SortDescending(init), x);
      SumAppend(init, [x]);
      assert Sum([x]) == OrZero(Some(x.value));
    }
  }

  /** Finite values, largest rounded hours first. */
  predicate Descending(es: seq<Entry>) {
    AllFinite(es) && forall i, j :: 0 <= i < j < |es| ==> Tenths(es[j].value.value) <= Tenths(es[i].value.value)
  }

  lemma {:induction false} InsertKeepsDescending(r: seq<Entry>, e: Entry)
    requires Descending(r) && e.value.Finite?
    ensures Descending(InsertDescending(r, e))
    decreases |r|
  {
    if r == [] || !Before(e, r[|r| - 1]) {
      forall i | 0 <= i < |r|
        ensures Tenths(e.value.value) <= Tenths(r[i].value.value)
      {
        assert Tenths(r[|r| - 1].value.value) <= Tenths(r[i].value.value);
      }
      DescendingSnoc(r, e);
    } else {
      var init := r[..|r| - 1];
      var last := r[|r| - 1];
      assert r == init + [last];
      assert Descending(init);
      InsertKeepsDescending(init, e);
      forall i | 0 <= i < |init|
        ensures init[i].value.Finite? && Tenths(last.value.value) <= Tenths(init[i].value.value)
      {
        assert init[i] == r[i];
      }
      InsertAtLeast(init, e, Tenths(last.value.value));
      DescendingSnoc(InsertDescending(init, e), last);
    }
  }

  /** Every value is finite and rounds to at least `b` tenths. */
  predicate AtLeast(es: seq<Entry>, b: nat) {
    forall i :: 0 <= i < |es| ==> es[i].value.Finite? && b <= Tenths(es[i].value.value)
  }

  lemma {:induction false} InsertAtLeast(r: seq<Entry>, e: Entry, b: nat)
    requires AtLeast(r, b) && e.value.Finite? && b <= Tenths(e.value.value)
    ensures AtLeast(InsertDescending(r, e), b)
    decreases |r|
  {
    if r != [] && Before(e, r[|r| - 1]) {
      var init := r[..|r| - 1];
      assert AtLeast(init, b) by {
        forall i | 0 <= i < |init|
          ensures init[i].value.Finite? && b <= Tenths(init[i].value.value)
        {
          assert init[i] == r[i];
        }
      }
      InsertAtLeast(init, e, b);
    }
  }

  lemma {:induction false} DescendingSnoc(q: seq<Entry>, x: Entry)
    requires Descending(q) && x.value.Finite? && AtLeast(q, Tenths(x.value.value))
    ensures Descending(q + [x])
  {
  }

  /** With finite values the breakdown is ordered by rounded hours, largest first. */
  lemma {:induction false} SortedDescending(es: seq<Entry>)
    requires AllFinite(es)
    ensures Descending(SortDescending(es))
    decreases |es|
  {
    if es != [] {
      var init := es[..|es| - 1];
      assert AllFinite(init);
      SortedDescending(init);
      InsertKeepsDescending(SortDescending(init), es[|es| - 1]);
    }
  }

  /** The entries whose finite value rounds to `k` tenths, in order. */
  function WithTenths(es: seq<Entry>, k: nat): seq<Entry> {
    if es == [] then []
    else
      var last := es[|es| - 1];
      WithTenths(es[..|es| - 1], k) + (if last.value.Finite? && Tenths(last.value.value) == k then [last] else [])
  }

  lemma {:induction false} InsertStable(r: seq<Entry>, e: Entry, k: nat)
    ensures WithTenths(InsertDescending(r, e), k)
         == WithTenths(r, k) + (if e.value.Finite? && Tenths(e.value.value) == k then [e] else [])
    decreases |r|
  {
    var mine := if e.value.Finite? && Tenths(e.value.value) == k then [e] else [];
    if r == [] || !Before(e, r[|r| - 1]) {
      assert (r + [e])[..|r|] == r;
    } else {
      var init := r[..|r| - 1];
      var last := r[|r| - 1];
      var theirs := if last.value.Finite? && Tenths(last.value.value) == k then [last] else [];
      var q := InsertDescending(init, e);
      assert InsertDescending(r, e) == q + [last];
      assert (q + [last])[..|q|] == q;
      InsertStable(init, e, k);
      assert mine == [] || theirs == [];
      SwapEmpty(WithTenths(init, k), mine, theirs);
    }
  }

  /**
   * The sort is stable: categories whose hours round alike keep the order in
   * which they entered the map.
   */
  lemma {:induction false} SortStable(es: seq<Entry>, k: nat)
    ensures WithTenths(SortDescending(es), k) == WithTenths(es, k)
    decreases |es|
  {
    if es != [] {
      var init := es[..|es| - 1];
      SortStable(init, k);
      InsertStable(SortDescending(init), es[|es| - 1], k);
    }
  }

  /** 61 and 62 minutes both show as 1.0 h, so the category that entered the map first stays first. */
  lemma {:induction false} NearTieKeepsMapOrder()
    ensures SortDescending([Entry("Work", Finite(61)), Entry("Study", Finite(62))])
         == [Entry("Work", Finite(61)), Entry("Study", Finite(62))]
  {
    var es := [Entry("Work", Finite(61)), Entry("Study", Finite(62))];
    assert es[..1] == [es[0]];
    assert SortDescending(es[..1]) == [es[0]];
    assert Tenths(61) == 10 && Tenths(62) == 10;
  }

  /** 60 minutes show as 1.0 h and 64 as 1.1 h, so the later category moves ahead. */
  lemma {:induction false} LargerRoundedFirst()
    ensures SortDescending([Entry("Work", Finite(60)), Entry("Study", Finite(64))])
         == [Entry("Study", Finite(64)), Entry("Work", Finite(60))]
  {
    var es := [Entry("Work", Finite(60)), Entry("Study", Finite(64))];
    assert es[..1] == [es[0]];
    assert SortDescending(es[..1]) == [es[0]];
    assert Tenths(60) == 10 && Tenths(64) == 11;
    assert [es[0]][..0] == [];
  }

  /**
   * For a non-empty list with finite spans: the breakdown is sorted largest
   * rounded hours first, keeps map order among equal rounded hours, is a
   * permutation of the category map, and it and the daily map both
   * add up to the total; no day exceeds the total; the count is the list's length.
   */
  lemma {:induction false} ReportTotals(tasks: seq<Task>, offset: int)
    requires tasks != [] && FiniteSpans(tasks, offset)
    ensures var r := AnalyticsOf(tasks, offset);
      && r.totalHours.Finite?
      && Descending(r.categoryBreakdown)
      && multiset(r.categoryBreakdown) == multiset(Accumulate(tasks, offset).categories)
      && (forall k :: WithTenths(r.categoryBreakdown, k) == WithTenths(Accumulate(tasks, offset).categories, k))
      && Sum(r.categoryBreakdown) == r.totalHours.value
      && Sum(r.dailyHours) == r.totalHours.value
      && (forall i :: 0 <= i < |r.dailyHours| ==> r.dailyHours[i].value.Finite? && r.dailyHours[i].value.value <= r.totalHours.value)
      && r.taskCount == Some(|tasks|)
  {
    var a := Accumulate(tasks, offset);
    MapsAddUp(tasks, offset);
    SumSorted(a.categories);
    SortedDescending(a.categories);
    forall k: nat {
      SortStable(a.categories, k);
    }
    forall i | 0 <= i < |a.daily|
      ensures a.daily[i].value.value <= a.total.value
    {
      EntryAtMostSum(a.daily, i);
    }
  }

  /** The aggregation of one more task is one more turn of the `forEach`. */
  lemma {:induction false} AccumulateSnoc(tasks: seq<Task>, t: Task, offset: int)
    ensures Accumulate(tasks + [t], offset)
         == Add(Accumulate(tasks, offset), t.date, ExtractCategory(t.event, t.description), TaskMinutes(t, offset))
  {
    assert (tasks + [t])[..|tasks|] == tasks;
  }

  /**
   * `x || 0` forgets NaN: after a first task of NaN span and a second one of
   * `m` minutes in the same category, the category holds `m` while the total
   * stays NaN.
   */
  lemma {:induction false} NaNForgotten(day1: string, day2: string, category: string, m: nat)
    ensures var a := Add(Add(Totals([], [], Finite(0)), day1, category, NaN), day2, category, Finite(m));
      Get(a.categories, category) == Some(Finite(m)) && a.total == NaN
  {
    var a1 := Add(Totals([], [], Finite(0)), day1, category, NaN);
    assert a1.categories == [Entry(category, NaN)];
  }

  /** Each key appears once in the map. */
  predicate DistinctKeys(es: seq<Entry>) {
    forall i, j :: 0 <= i < j < |es| ==> es[i].key != es[j].key
  }

  /** `map.set` never adds a second entry for a key. */
  lemma {:induction false} PutDistinct(es: seq<Entry>, k: string, v: Minutes)
    requires DistinctKeys(es)
    ensures DistinctKeys(Put(es, k, v))
    decreases |es|
  {
    if es != [] && es[0].key != k {
      var rest := es[1..];
      assert DistinctKeys(rest) by {
        assert forall i :: 0 <= i < |rest| ==> rest[i] == es[i + 1];
      }
      PutDistinct(rest, k, v);
      assert Get(rest, es[0].key).None? by {
        assert forall i :: 0 <= i < |rest| ==> rest[i] == es[i + 1];
      }
      var q := Put(rest, k, v);
      assert Get(q, es[0].key).None?;
      assert Put(es, k, v) == [es[0]] + q;
    }
  }

  /** Both maps of the aggregation hold one entry per key. */
  lemma {:induction false} AccumulateDistinct(tasks: seq<Task>, offset: int)
    ensures DistinctKeys(Accumulate(tasks, offset).daily) && DistinctKeys(Accumulate(tasks, offset).categories)
    decreases |tasks|
  {
    if tasks != [] {
      var init := tasks[..|tasks| - 1];
      var t := tasks[|tasks| - 1];
      AccumulateDistinct(init, offset);
      AddDistinct(Accumulate(init, offset), t.date, ExtractCategory(t.event, t.description), TaskMinutes(t, offset));
    }
  }

  lemma {:induction false} AddDistinct(a: Totals, day: string, category: string, m: Minutes)
    requires DistinctKeys(a.daily) && DistinctKeys(a.categories)
    ensures DistinctKeys(Add(a, day, category, m).daily) && DistinctKeys(Add(a, day, category, m).categories)
  {
    PutDistinct(a.categories, category, Plus(Finite(OrZero(Get(a.categories, category))), m));
    if day != [] {
      PutDistinct(a.daily, day, Plus(Finite(OrZero(Get(a.daily, day))), m));
    }
  }
}
