/**
 * Decoding of the DATE and DATE-TIME values of RFC 5545 (sections 3.3.4 and
 * 3.3.5) by the browser importer, and the formatting of the decoded instant
 * for the task form as `YYYY-MM-DD` and `HH:MM`.
 *
 * The importer builds JavaScript `Date` objects: a floating or all-day value
 * is read as local wall-clock time, a value ending in `Z` as a real UTC
 * instant, and both are later read back with the local getters. The device
 * zone is the fixed `offset` (seconds ahead of UTC); "now" is `now` (seconds
 * since the epoch).
 */
module IcsDates {
  import opened Common
  import opened JsText
  import opened Calendar

  /** `value.split(';')[0]`: the part of the value before its first semicolon. */
  function BeforeSemicolon(value: string): (r: string)
    ensures ';' !in r && StartsWith(value, r)
    ensures ';' !in value ==> r == value
  {
    match IndexOf(value, ';')
    case None => value
    case Some(i) => value[..i]
  }

  /** `s.substring(start, end)` for `0 <= start <= end`: both ends are clamped to the length. */
  function Substring(s: string, start: nat, end: nat): (r: string)
    requires start <= end
    ensures |r| <= end - start
    ensures end <= |s| ==> r == s[start..end]
  {
    var a := if start <= |s| then start else |s|;
    var b := if end <= |s| then end else |s|;
    s[a..b]
  }

  function Pred(n: Option<int>): Option<int> {
    match n
    case None => None
    case Some(v) => Some(v - 1)
  }

  /** `s || "0"`: an empty slice reads as "0". */
  function OrZero(s: string): string {
    if s == [] then "0" else s
  }

  /** Which of the five branches of the decoder a value before its first `;` takes. */
  datatype Branch = AllDay | Utc | Floating | DateOnly | Unrecognized

  function BranchOf(v: string, isAllDay: bool): (b: Branch)
    ensures b == Unrecognized <==> !isAllDay && 'T' !in v && !EndsWith(v, "Z") && |v| < 8
    ensures b == AllDay <==> isAllDay || ('T' !in v && |v| == 8)
  {
    if isAllDay || ('T' !in v && |v| == 8) then AllDay
    else if EndsWith(v, "Z") then Utc
    else if 'T' in v then Floating
    else if |v| >= 8 then DateOnly
    else Unrecognized
  }

  /** The six numeric fields of a value, each as `parseInt` reads it (`None` is NaN). */
  datatype Fields = Fields(year: Option<int>, month: Option<int>, day: Option<int>,
                           hour: Option<int>, minute: Option<int>, second: Option<int>)

  /**
   * The fields sit at fixed positions (year 0-4, month 4-6, day 6-8, hour
   * 9-11, minute 11-13, second 13-15, an empty second reading as "0"); the
   * month is stored zero-based.
   */
  function ReadFields(v: string): Fields {
    Fields(ParseInt(Substring(v, 0, 4)), Pred(ParseInt(Substring(v, 4, 6))),
           ParseInt(Substring(v, 6, 8)), ParseInt(Substring(v, 9, 11)),
           ParseInt(Substring(v, 11, 13)), ParseInt(OrZero(Substring(v, 13, 15))))
  }

  /**
   * What each branch builds from the fields: the two date-only branches build
   * local midnight, the floating branch the local time, the `Z` branch the
   * same reading taken in UTC (`Date.UTC`).
   */
  function Decode(b: Branch, f: Fields, now: int, offset: int): JsDate {
    match b
    case Unrecognized => Time(now)
    case AllDay | DateOnly => NewLocalDate(f.year, f.month, f.day, Some(0), Some(0), Some(0), offset)
    case Floating => NewLocalDate(f.year, f.month, f.day, f.hour, f.minute, f.second, offset)
    case Utc => NewLocalDate(f.year, f.month, f.day, f.hour, f.minute, f.second, 0)
  }

  /**
   * `parseIcsDate(value, isAllDay)`. Only the text before the first `;` is
   * decoded. A value no branch accepts throws inside the decoder, which
   * catches it and returns the current instant.
   */
  function ParseIcsDate(value: string, isAllDay: bool, now: int, offset: int): (r: JsDate)
    ensures BranchOf(BeforeSemicolon(value), isAllDay) == Unrecognized ==> r == Time(now)
  {
    var v := BeforeSemicolon(value);
    Decode(BranchOf(v, isAllDay), ReadFields(v), now, offset)
  }

  /** The year as `toISOString` writes it: four digits, or a sign and six digits. */
  function IsoYear(y: int): string {
    if 0 <= y <= 9999 then PadStart(NatToString(y), 4, '0')
    else (if y < 0 then "-" else "+") + PadStart(NatToString(if y < 0 then -y else y), 6, '0')
  }

  /** `new Date().toISOString().split('T')[0]`: today's date in UTC. */
  function TodayIso(now: int): string {
    var d := WallClock(now, 0).date;
    IsoYear(d.year) + "-" + Pad2(d.month) + "-" + Pad2(d.day)
  }

  /** `formatDateForInput`: local `year-MM-DD`, or today's UTC date for an invalid date. */
  function FormatDateForInput(d: JsDate, now: int, offset: int): (r: string)
    ensures d.InvalidDate? ==> r == TodayIso(now)
  {
    match d
    case InvalidDate => TodayIso(now)
    case Time(t) =>
      IsoDate(WallClock(t, offset).date)
  }

  /** A date written `YYYY-MM-DD`, the month and day padded to two digits. */
  function IsoDate(d: Date): string
    requires ValidDate(d)
  {
    IntToString(d.year) + "-" + Pad2(d.month) + "-" + Pad2(d.day)
  }

  /** `formatTimeForInput`: local `HH:MM`, seconds dropped, or `00:00` for an invalid date. */
  function FormatTimeForInput(d: JsDate, offset: int): (r: string)
    ensures |r| == 5 && r[2] == ':'
    ensures d.InvalidDate? ==> r == "00:00"
  {
    match d
    case InvalidDate => "00:00"
    case Time(t) =>
      var w := WallClock(t, offset);
      Pad2Digits(w.hour);
      Pad2Digits(w.minute);
      Pad2(w.hour) + ":" + Pad2(w.minute)
  }

  /** Positions `a` to `b` of `v` hold decimal digits. */
  predicate DigitsAt(v: string, a: nat, b: nat) {
    a <= b <= |v| && AllDigits(v[a..b])
  }

  /** The decimal value of the digits at positions `a` to `b`. */
  function Field(v: string, a: nat, b: nat): nat
    requires DigitsAt(v, a, b)
  {
    DigitsValue(v[a..b])
  }

  /** The date written `YYYYMMDD` at the start of `v`. */
  function DateField(v: string): Date
    requires DigitsAt(v, 0, 4) && DigitsAt(v, 4, 6) && DigitsAt(v, 6, 8)
  {
    Date(Field(v, 0, 4), Field(v, 4, 6), Field(v, 6, 8))
  }

  /** `v` starts with `YYYYMMDD`, its first digit is not 0 and it names a real calendar date. */
  predicate WellFormedDate(v: string) {
    DigitsAt(v, 0, 4) && DigitsAt(v, 4, 6) && DigitsAt(v, 6, 8) && v[0] != '0'
    && ValidDate(DateField(v))
  }

  /** `v` starts with `YYYYMMDDTHHMMSS`: a well-formed date and an in-range time of day. */
  predicate WellFormedDateTime(v: string) {
    WellFormedDate(v) && |v| >= 15 && v[8] == 'T'
    && DigitsAt(v, 9, 11) && DigitsAt(v, 11, 13) && DigitsAt(v, 13, 15)
    && Field(v, 9, 11) < 24 && Field(v, 11, 13) < 60 && Field(v, 13, 15) < 60
  }

  function TimeField(v: string): DateTime
    requires WellFormedDateTime(v)
  {
    DateTime(DateField(v), Field(v, 9, 11), Field(v, 11, 13), Field(v, 13, 15))
  }

  /** `parseInt` reads a slice of digits as its decimal value. */
  lemma {:induction false} FieldRead(v: string, a: nat, b: nat)
    requires DigitsAt(v, a, b) && a < b
    ensures ParseInt(Substring(v, a, b)) == Some(Field(v, a, b))
  {
    var s := v[a..b];
    assert Substring(v, a, b) == s;
    ParseIntOfDigits(s);
  }

  /** The seconds slice is read through `|| "0"`, which a non-empty slice passes unchanged. */
  lemma {:induction false} SecondsRead(v: string)
    requires DigitsAt(v, 13, 15)
    ensures ParseInt(OrZero(Substring(v, 13, 15))) == Some(Field(v, 13, 15))
  {
    var s := v[13..15];
    assert OrZero(Substring(v, 13, 15)) == s;
    ParseIntOfDigits(s);
  }

  /** Two digits print back as themselves with `padStart(2, '0')`. */
  lemma {:induction false} TwoDigitsPrinted(v: string, a: nat)
    requires DigitsAt(v, a, a + 2)
    ensures Field(v, a, a + 2) < 100 && Pad2(Field(v, a, a + 2)) == v[a..a + 2]
  {
    Pad2OfDigits(v[a..a + 2]);
  }

  /** Four digits, the first not 0: a year from 1000 to 9999 that prints back as itself. */
  lemma {:induction false} FourDigitYear(v: string)
    requires DigitsAt(v, 0, 4) && v[0] != '0'
    ensures 1000 <= Field(v, 0, 4) <= 9999 && NatToString(Field(v, 0, 4)) == v[0..4]
  {
    var s := v[0..4];
    assert s[0] == v[0];
    DigitsValueBelow(s);
    DigitsValueAtLeast(s);
    NatToStringOfDigits(s);
  }

  /** The date fields of a well-formed value are read as written and print back as written. */
  lemma {:induction false} FieldsRead(v: string)
    requires WellFormedDate(v)
    ensures ParseInt(Substring(v, 0, 4)) == Some(Field(v, 0, 4))
    ensures ParseInt(Substring(v, 4, 6)) == Some(Field(v, 4, 6))
    ensures ParseInt(Substring(v, 6, 8)) == Some(Field(v, 6, 8))
    ensures 1000 <= Field(v, 0, 4) <= 9999 && IntToString(Field(v, 0, 4)) == v[0..4]
    ensures Pad2(Field(v, 4, 6)) == v[4..6] && Pad2(Field(v, 6, 8)) == v[6..8]
  {
    FieldRead(v, 0, 4);
    FieldRead(v, 4, 6);
    FieldRead(v, 6, 8);
    FourDigitYear(v);
    TwoDigitsPrinted(v, 4);
    TwoDigitsPrinted(v, 6);
  }

  lemma {:induction false} TimeFieldsRead(v: string)
    requires WellFormedDateTime(v)
    ensures ParseInt(Substring(v, 9, 11)) == Some(Field(v, 9, 11))
    ensures ParseInt(Substring(v, 11, 13)) == Some(Field(v, 11, 13))
    ensures ParseInt(OrZero(Substring(v, 13, 15))) == Some(Field(v, 13, 15))
    ensures Pad2(Field(v, 9, 11)) == v[9..11] && Pad2(Field(v, 11, 13)) == v[11..13]
  {
    FieldRead(v, 9, 11);
    FieldRead(v, 11, 13);
    SecondsRead(v);
    TwoDigitsPrinted(v, 9);
    TwoDigitsPrinted(v, 11);
  }

  /** A realistic zone offset: less than a day either way. */
  predicate SaneOffset(offset: int) {
    -SecondsPerDay < offset < SecondsPerDay
  }

  /** `formatDateForInput` of a valid date shows its local reading. */
  lemma {:induction false} DateShown(t: int, now: int, offset: int, dt: DateTime)
    requires ValidDateTime(dt) && WallClock(t, offset) == dt
    ensures FormatDateForInput(Time(t), now, offset)
      == IntToString(dt.date.year) + "-" + Pad2(dt.date.month) + "-" + Pad2(dt.date.day)
  {
  }

  /** `formatTimeForInput` of a valid date shows its local hour and minute. */
  lemma {:induction false} TimeShown(t: int, offset: int, dt: DateTime)
    requires ValidDateTime(dt) && WallClock(t, offset) == dt
    ensures FormatTimeForInput(Time(t), offset) == Pad2(dt.hour) + ":" + Pad2(dt.minute)
  {
  }

  /** The year digits are read as the year. */
  lemma {:induction false} YearRead(v: string)
    requires DigitsAt(v, 0, 4)
    ensures ReadFields(v).year == Some(Field(v, 0, 4))
  {
    FieldRead(v, 0, 4);
  }

  /** The month digits are read as the 0-based month `new Date` expects. */
  lemma {:induction false} MonthRead(v: string)
    requires DigitsAt(v, 4, 6)
    ensures ReadFields(v).month == Some(Field(v, 4, 6) - 1)
  {
    var p := ParseInt(Substring(v, 4, 6));
    FieldRead(v, 4, 6);
    assert Pred(p) == Some(Field(v, 4, 6) - 1);
  }

  lemma {:induction false} DayRead(v: string)
    requires DigitsAt(v, 6, 8)
    ensures ReadFields(v).day == Some(Field(v, 6, 8))
  {
    FieldRead(v, 6, 8);
  }

  lemma {:induction false} HourRead(v: string)
    requires DigitsAt(v, 9, 11)
    ensures ReadFields(v).hour == Some(Field(v, 9, 11))
  {
    FieldRead(v, 9, 11);
  }

  lemma {:induction false} MinuteRead(v: string)
    requires DigitsAt(v, 11, 13)
    ensures ReadFields(v).minute == Some(Field(v, 11, 13))
  {
    FieldRead(v, 11, 13);
  }

  lemma {:induction false} SecondRead(v: string)
    requires DigitsAt(v, 13, 15)
    ensures ReadFields(v).second == Some(Field(v, 13, 15))
  {
    SecondsRead(v);
  }

  /** A value of eight characters has no time: hour and minute are NaN, the second is 0. */
  lemma {:induction false} NoTimeRead(v: string)
    requires |v| == 8
    ensures ReadFields(v).hour == None && ReadFields(v).minute == None && ReadFields(v).second == Some(0)
  {
    assert Substring(v, 9, 11) == [] && Substring(v, 11, 13) == [];
    assert OrZero(Substring(v, 13, 15)) == "0";
    assert ParseInt("0") == Some(0) by {
      assert TrimJsStart("0") == "0";
      assert ScanDecimal("0", 0) == ScanDecimal("0"[1..], 0);
    }
  }

  /** A value of eight digits is read as its date fields, NaN hour and minute, and second 0. */
  lemma {:induction false} DateFieldsRead(v: string)
    requires |v| == 8 && DigitsAt(v, 0, 4) && DigitsAt(v, 4, 6) && DigitsAt(v, 6, 8)
    ensures ReadFields(v) == Fields(Some(Field(v, 0, 4)), Some(Field(v, 4, 6) - 1), Some(Field(v, 6, 8)),
                                    None, None, Some(0))
  {
    YearRead(v);
    MonthRead(v);
    DayRead(v);
    NoTimeRead(v);
  }

  /** The fields of a well-formed date-time, read by `parseInt`, are its reading. */
  lemma {:induction false} DateTimeFieldsRead(v: string)
    requires DigitsAt(v, 0, 4) && DigitsAt(v, 4, 6) && DigitsAt(v, 6, 8)
    requires DigitsAt(v, 9, 11) && DigitsAt(v, 11, 13) && DigitsAt(v, 13, 15)
    ensures ReadFields(v) == Fields(Some(Field(v, 0, 4)), Some(Field(v, 4, 6) - 1), Some(Field(v, 6, 8)),
                                    Some(Field(v, 9, 11)), Some(Field(v, 11, 13)), Some(Field(v, 13, 15)))
  {
    YearRead(v);
    MonthRead(v);
    DayRead(v);
    HourRead(v);
    MinuteRead(v);
    SecondRead(v);
  }

  /** The fields of a local reading, as the decoder holds them. */
  function FieldsOf(dt: DateTime): Fields {
    Fields(Some(dt.date.year), Some(dt.date.month - 1), Some(dt.date.day),
           Some(dt.hour), Some(dt.minute), Some(dt.second))
  }

  lemma {:induction false} TimeFieldsOf(v: string)
    requires WellFormedDateTime(v)
    ensures FieldsOf(TimeField(v)) == Fields(Some(Field(v, 0, 4)), Some(Field(v, 4, 6) - 1), Some(Field(v, 6, 8)),
                                             Some(Field(v, 9, 11)), Some(Field(v, 11, 13)), Some(Field(v, 13, 15)))
  {
  }

  /** Four digits, the first not 0, are a year from 1000 to 9999. */
  lemma {:induction false} YearInRange(v: string)
    requires DigitsAt(v, 0, 4) && v[0] != '0'
    ensures 1000 <= Field(v, 0, 4) <= 9999
  {
    var s := v[0..4];
    assert s[0] == v[0];
    DigitsValueBelow(s);
    DigitsValueAtLeast(s);
  }

  /** A well-formed `YYYYMMDDTHHMMSS` is read into the fields of its reading, a year from 1000 to 9999. */
  lemma {:induction false} DateTimeRead(v: string) returns (dt: DateTime)
    requires WellFormedDateTime(v)
    ensures dt == TimeField(v) && ValidDateTime(dt) && 1000 <= dt.date.year <= 9999
    ensures ReadFields(v) == FieldsOf(dt)
  {
    YearInRange(v);
    DateTimeFieldsRead(v);
    TimeFieldsOf(v);
    dt := TimeField(v);
  }

  /** A well-formed `YYYYMMDD` is read into its date, a year from 1000 to 9999, and a NaN time. */
  lemma {:induction false} DateRead(v: string) returns (d: Date)
    requires |v| == 8 && WellFormedDate(v)
    ensures d == DateField(v) && ValidDate(d) && 1000 <= d.year <= 9999
    ensures ReadFields(v) == DateFieldsOf(d)
  {
    YearInRange(v);
    DateFieldsRead(v);
    DateFieldOf(v);
    d := DateField(v);
  }

  /** The fields the decoder holds for a date written without a time. */
  function DateFieldsOf(d: Date): Fields {
    Fields(Some(d.year), Some(d.month - 1), Some(d.day), None, None, Some(0))
  }

  lemma {:induction false} DateFieldOf(v: string)
    requires DigitsAt(v, 0, 4) && DigitsAt(v, 4, 6) && DigitsAt(v, 6, 8)
    ensures DateFieldsOf(DateField(v))
      == Fields(Some(Field(v, 0, 4)), Some(Field(v, 4, 6) - 1), Some(Field(v, 6, 8)), None, None, Some(0))
  {
  }

  /** `YYYYMMDDTHHMMSS` with nothing after it takes the floating branch. */
  lemma {:induction false} FloatingBranch(v: string)
    requires |v| == 15 && WellFormedDateTime(v)
    ensures BranchOf(v, false) == Floating
  {
    assert !EndsWith(v, "Z") by { assert v[|v| - 1..][0] == v[14] == v[13..15][1]; }
    assert v[8] == 'T';
  }

  /** `YYYYMMDDTHHMMSSZ` takes the `Z` branch. */
  lemma {:induction false} UtcBranch(v: string)
    requires |v| == 16 && WellFormedDateTime(v) && v[15] == 'Z'
    ensures BranchOf(v, false) == Utc
  {
    assert v[8] == 'T';
    assert v[15..] == "Z";
  }

  /** A well-formed date of eight characters has no `T` and no `Z`: the all-day branch. */
  lemma {:induction false} AllDayBranch(v: string)
    requires |v| == 8 && WellFormedDate(v)
    ensures BranchOf(v, false) == AllDay
  {
    forall k | 0 <= k < 8 ensures v[k] != 'T' && v[k] != 'Z' {
      if k < 4 { assert v[k] == v[0..4][k]; }
      else if k < 6 { assert v[k] == v[4..6][k - 4]; }
      else { assert v[k] == v[6..8][k - 6]; }
    }
    assert v[|v| - 1..][0] == v[7];
  }

  /** A floating DATE-TIME `YYYYMMDDTHHMMSS` decodes to the instant whose local reading is its fields. */
  lemma {:induction false} FloatingInstant(value: string, now: int, offset: int) returns (t: int)
    requires SaneOffset(offset)
    requires var v := BeforeSemicolon(value); |v| == 15 && WellFormedDateTime(v)
    ensures ParseIcsDate(value, false, now, offset) == Time(t)
    ensures WallClock(t, offset) == TimeField(BeforeSemicolon(value))
  {
    var v := BeforeSemicolon(value);
    FloatingBranch(v);
    var dt := DateTimeRead(v);
    t := LocalInstant(dt, offset);
  }

  /**
   * A floating DATE-TIME `YYYYMMDDTHHMMSS` decodes to a local time whose
   * formatted date and time are the digits of the value itself, for any zone:
   * `20240115T153000` becomes `2024-01-15` and `15:30`.
   */
  lemma {:induction false} FloatingRoundTrip(value: string, now: int, offset: int)
    requires SaneOffset(offset)
    requires var v := BeforeSemicolon(value); |v| == 15 && WellFormedDateTime(v)
    ensures var v := BeforeSemicolon(value);
      var d := ParseIcsDate(value, false, now, offset);
      FormatDateForInput(d, now, offset) == v[0..4] + "-" + v[4..6] + "-" + v[6..8]
      && FormatTimeForInput(d, offset) == v[9..11] + ":" + v[11..13]
  {
    var v := BeforeSemicolon(value);
    var t := FloatingInstant(value, now, offset);
    DateShown(t, now, offset, TimeField(v));
    TimeShown(t, offset, TimeField(v));
    FieldsRead(v);
    TimeFieldsRead(v);
  }

  /** A date-only value `YYYYMMDD` takes the all-day branch and decodes to local midnight. */
  lemma {:induction false} AllDayInstant(value: string, now: int, offset: int) returns (t: int)
    requires SaneOffset(offset)
    requires var v := BeforeSemicolon(value); |v| == 8 && WellFormedDate(v)
    ensures ParseIcsDate(value, false, now, offset) == Time(t)
    ensures var w := WallClock(t, offset);
      w.date == DateField(BeforeSemicolon(value)) && w.hour == 0 && w.minute == 0
  {
    var v := BeforeSemicolon(value);
    AllDayBranch(v);
    var d := DateRead(v);
    t := MidnightInstant(d, offset);
  }

  /**
   * A date-only value `YYYYMMDD` (the all-day branch) decodes to local
   * midnight of that date: `20240115` shows as the date `2024-01-15` ...
   */
  lemma {:induction false} AllDayDateRoundTrip(value: string, now: int, offset: int)
    requires SaneOffset(offset)
    requires var v := BeforeSemicolon(value); |v| == 8 && WellFormedDate(v)
    ensures var v := BeforeSemicolon(value);
      FormatDateForInput(ParseIcsDate(value, false, now, offset), now, offset) == v[0..4] + "-" + v[4..6] + "-" + v[6..8]
  {
    var t := AllDayInstant(value, now, offset);
    DateShown(t, now, offset, WallClock(t, offset));
    FieldsRead(BeforeSemicolon(value));
  }

  /** An instant read as local midnight formats as the time `00:00`. */
  lemma {:induction false} MidnightShown(t: int, offset: int)
    requires WallClock(t, offset).hour == 0 && WallClock(t, offset).minute == 0
    ensures FormatTimeForInput(Time(t), offset) == "00:00"
  {
    assert Pad2(0) == "00" by { assert NatToString(0) == "0"; }
  }

  /** ... and as the time `00:00`. */
  lemma {:induction false} AllDayTimeRoundTrip(value: string, now: int, offset: int)
    requires SaneOffset(offset)
    requires var v := BeforeSemicolon(value); |v| == 8 && WellFormedDate(v)
    ensures FormatTimeForInput(ParseIcsDate(value, false, now, offset), offset) == "00:00"
  {
    var t := AllDayInstant(value, now, offset);
    MidnightShown(t, offset);
  }

  /**
   * A UTC DATE-TIME `YYYYMMDDTHHMMSSZ` decodes to the instant whose UTC
   * reading is its fields, in every zone.
   */
  lemma {:induction false} UtcInstant(value: string, now: int, offset: int) returns (t: int)
    requires var v := BeforeSemicolon(value); |v| == 16 && WellFormedDateTime(v) && v[15] == 'Z'
    ensures ParseIcsDate(value, false, now, offset) == Time(t)
    ensures WallClock(t, 0) == TimeField(BeforeSemicolon(value))
  {
    var v := BeforeSemicolon(value);
    UtcBranch(v);
    var dt := DateTimeRead(v);
    t := LocalInstant(dt, 0);
  }

  /** In a zone at UTC the `Z` branch shows the digits of the value as written. */
  lemma {:induction false} UtcAtZeroOffset(value: string, now: int)
    requires var v := BeforeSemicolon(value); |v| == 16 && WellFormedDateTime(v) && v[15] == 'Z'
    ensures var v := BeforeSemicolon(value);
      var d := ParseIcsDate(value, false, now, 0);
      FormatDateForInput(d, now, 0) == v[0..4] + "-" + v[4..6] + "-" + v[6..8]
      && FormatTimeForInput(d, 0) == v[9..11] + ":" + v[11..13]
  {
    var v := BeforeSemicolon(value);
    var t := UtcInstant(value, now, 0);
    DateShown(t, now, 0, TimeField(v));
    TimeShown(t, 0, TimeField(v));
    FieldsRead(v);
    TimeFieldsRead(v);
  }
}
