/**
 * The importer of the Java backend (`IcsParser.parseFile`), taking the file
 * content rather than its name. The content is split on `\r?\n` and every
 * line trimmed; there is no unfolding, no unescaping and no in-event flag.
 * `BEGIN:VEVENT` resets the title, start and end, `SUMMARY:`, `DTSTART` and
 * `DTEND` lines set them wherever they appear, and `END:VEVENT` appends an
 * event when all three are set, without resetting them. A date that
 * `parseDate` rejects, or a `DTSTART`/`DTEND` line without a colon, throws an
 * exception that `parseFile` does not catch: the whole parse fails.
 *
 * The device zone is a fixed offset `zone`, in seconds ahead of UTC.
 */
module JavaIcs {
  import opened Common
  import opened JsText
  import opened Calendar
  import opened IcsDates

  /** `CalendarEvent(title, startTime, endTime)`. */
  datatype CalendarEvent = CalendarEvent(title: string, start: DateTime, end: DateTime)

  /** The exception that ends a parse: a date line with no colon, or a value `parseDate` rejects. */
  datatype ParseError = NoValue(line: string) | BadDate(value: string)

  // Splitting the content

  /** One `\r` before the `\n` is part of the separator. */
  function DropCr(p: string): (r: string)
    ensures forall c :: c in r ==> c in p
  {
    if p != [] && p[|p| - 1] == '\r' then p[..|p| - 1] else p
  }

  /** Every part but the last was followed by a `\n`, and loses the `\r` before it. */
  function StripCarriageReturns(parts: seq<string>): (r: seq<string>)
    ensures |r| == |parts|
    ensures forall k :: 0 <= k < |parts| - 1 ==> r[k] == DropCr(parts[k])
    ensures |r| > 0 ==> r[|r| - 1] == parts[|parts| - 1]
  {
    seq(|parts|, k requires 0 <= k < |parts| => if k < |parts| - 1 then DropCr(parts[k]) else parts[k])
  }

  /** `split` with no limit drops the empty strings at the end. */
  function DropTrailingEmpty(parts: seq<string>): (r: seq<string>)
    ensures |r| <= |parts| && r == parts[..|r|]
    ensures r == [] || r[|r| - 1] != []
    ensures forall k :: |r| <= k < |parts| ==> parts[k] == []
  {
    if parts != [] && parts[|parts| - 1] == [] then DropTrailingEmpty(parts[..|parts| - 1]) else parts
  }

  /**
   * `content.split("\\r?\\n")`: a content with no `\n` is its own single
   * line; otherwise the parts between the separators, trailing empty ones
   * dropped.
   */
  function JavaLines(content: string): (r: seq<string>)
    ensures forall k :: 0 <= k < |r| ==> '\n' !in r[k]
  {
    var parts := SplitOn(content, '\n');
    if |parts| == 1 then parts else DropTrailingEmpty(StripCarriageReturns(parts))
  }

  /** A string ending in a trimmable character trims as the string without it. */
  lemma {:induction false} TrimStartSnoc(q: string, c: char)
    requires IsJavaTrimmable(c)
    ensures var t := TrimStartBy(q, IsJavaTrimmable);
      TrimStartBy(q + [c], IsJavaTrimmable) == if t == [] then [] else t + [c]
    decreases |q|
  {
    if q == [] {
      assert TrimStartBy([c], IsJavaTrimmable) == TrimStartBy([c][1..], IsJavaTrimmable);
    } else if IsJavaTrimmable(q[0]) {
      assert (q + [c])[0] == q[0] && (q + [c])[1..] == q[1..] + [c];
      assert TrimStartBy(q + [c], IsJavaTrimmable) == TrimStartBy(q[1..] + [c], IsJavaTrimmable);
      assert TrimStartBy(q, IsJavaTrimmable) == TrimStartBy(q[1..], IsJavaTrimmable);
      TrimStartSnoc(q[1..], c);
    } else {
      assert (q + [c])[0] == q[0];
      assert TrimStartBy(q + [c], IsJavaTrimmable) == q + [c];
    }
  }

  lemma {:induction false} TrimDropCr(p: string)
    ensures JavaTrim(DropCr(p)) == JavaTrim(p)
  {
    if p != [] && p[|p| - 1] == '\r' {
      var q := p[..|p| - 1];
      assert p == q + ['\r'];
      TrimStartSnoc(q, '\r');
      var t := TrimStartBy(q, IsJavaTrimmable);
      assert JavaTrim(q) == TrimEndBy(t, IsJavaTrimmable);
      if t != [] {
        TrimEndSnoc(t, '\r');
      }
    }
  }

  /** A trimmable last character is trimmed from the end. */
  lemma {:induction false} TrimEndSnoc(t: string, c: char)
    requires IsJavaTrimmable(c)
    ensures TrimEndBy(t + [c], IsJavaTrimmable) == TrimEndBy(t, IsJavaTrimmable)
  {
    assert (t + [c])[..|t|] == t;
  }

  // `parseDate`

  /**
   * `yyyyMMdd` resolved as Java's smart resolver does: a year of the era
   * from 1, a month from 1 to 12 and a day from 1 to 31, the day cut back to
   * the last day of a shorter month.
   */
  function ResolveDate(y: nat, m: nat, d: nat): (r: Option<Date>)
    ensures r.Some? <==> 1 <= y && 1 <= m <= 12 && 1 <= d <= 31
    ensures r.Some? ==> ValidDate(r.value)
  {
    if 1 <= y && 1 <= m <= 12 && 1 <= d <= 31 then
      Some(Date(y, m, if d <= DaysInMonth(y, m) then d else DaysInMonth(y, m)))
    else None
  }

  /**
   * `HHmmss` resolved on a date: minutes and seconds below 60, hours below
   * 24, and `240000` as midnight at the start of the next day.
   */
  function ResolveTime(date: Date, h: nat, mi: nat, s: nat): (r: Option<DateTime>)
    requires ValidDate(date)
    ensures r.Some? <==> mi < 60 && s < 60 && (h < 24 || (h == 24 && mi == 0 && s == 0))
    ensures r.Some? ==> ValidDateTime(r.value)
  {
    if mi >= 60 || s >= 60 then None
    else if h == 24 && mi == 0 && s == 0 then Some(DateTime(CivilFromDays(DayNumber(date) + 1), 0, 0, 0))
    else if h < 24 then Some(DateTime(date, h, mi, s))
    else None
  }

  /** The pattern `yyyyMMdd` over the first eight characters. */
  function ReadDate(v: string): (r: Option<Date>)
    requires |v| >= 8
    ensures r.Some? ==> ValidDate(r.value)
  {
    if DigitsAt(v, 0, 4) && DigitsAt(v, 4, 6) && DigitsAt(v, 6, 8) then
      ResolveDate(Field(v, 0, 4), Field(v, 4, 6), Field(v, 6, 8))
    else None
  }

  /** The pattern `yyyyMMdd'T'HHmmss` over the first fifteen characters. */
  function ReadDateTime(v: string): (r: Option<DateTime>)
    requires |v| >= 15
    ensures r.Some? ==> ValidDateTime(r.value)
  {
    if v[8] == 'T' && DigitsAt(v, 9, 11) && DigitsAt(v, 11, 13) && DigitsAt(v, 13, 15) then
      match ReadDate(v)
      case None => None
      case Some(d) => ResolveTime(d, Field(v, 9, 11), Field(v, 11, 13), Field(v, 13, 15))
    else None
  }

  /**
   * `parseDate`: a value ending in `Z` is a UTC reading, converted to the
   * device zone; a value holding a `T` is a local reading; any other value is
   * a date at midnight. Each pattern must cover the whole value.
   */
  function ParseDate(value: string, zone: int): (r: Result<DateTime, ParseError>)
    ensures r.Success? ==> ValidDateTime(r.value)
    ensures r.Failure? ==> r.error == BadDate(value)
  {
    var read: Option<DateTime> :=
      if EndsWith(value, "Z") then
        if |value| == 16 then
          match ReadDateTime(value)
          case None => None
          case Some(utc) => Some(WallClock(Seconds(utc), zone))
        else None
      else if 'T' in value then
        if |value| == 15 then ReadDateTime(value) else None
      else if |value| == 8 then
        match ReadDate(value)
        case None => None
        case Some(d) => Some(DateTime(d, 0, 0, 0))
      else None;
    if read.Some? then Success(read.value) else Failure(BadDate(value))
  }

  /** The day after `d`, counted on the calendar. */
  function NextDate(d: Date): (r: Date)
    requires ValidDate(d)
    ensures ValidDate(r)
  {
    if d.day < DaysInMonth(d.year, d.month) then Date(d.year, d.month, d.day + 1)
    else if d.month < 12 then Date(d.year, d.month + 1, 1)
    else Date(d.year + 1, 1, 1)
  }

  /** Eight digits naming a real date of year 1 or later read as that date at `00:00`. */
  lemma {:induction false} DateAtMidnight(v: string, zone: int)
    requires |v| == 8 && DigitsAt(v, 0, 4) && DigitsAt(v, 4, 6) && DigitsAt(v, 6, 8)
    requires Field(v, 0, 4) >= 1 && ValidDate(Date(Field(v, 0, 4), Field(v, 4, 6), Field(v, 6, 8)))
    ensures ParseDate(v, zone) == Success(DateTime(Date(Field(v, 0, 4), Field(v, 4, 6), Field(v, 6, 8)), 0, 0, 0))
  {
    EightDigits(v);
  }

  /** A value of eight digits has neither a `T` nor a final `Z`. */
  lemma {:induction false} EightDigits(v: string)
    requires |v| == 8 && DigitsAt(v, 0, 4) && DigitsAt(v, 4, 6) && DigitsAt(v, 6, 8)
    ensures !EndsWith(v, "Z") && 'T' !in v
  {
    assert v == v[0..4] + v[4..6] + v[6..8];
    assert IsDigit(v[6..8][1]);
    assert forall c :: c in v ==> IsDigit(c) by {
      assert forall k :: 0 <= k < 4 ==> IsDigit(v[0..4][k]);
    }
  }

  /** A day past the end of its month (up to 31) is cut back to the month's last day. */
  lemma {:induction false} SmartClamp(v: string, zone: int)
    requires |v| == 8 && DigitsAt(v, 0, 4) && DigitsAt(v, 4, 6) && DigitsAt(v, 6, 8)
    requires Field(v, 0, 4) >= 1 && 1 <= Field(v, 4, 6) <= 12
    requires DaysInMonth(Field(v, 0, 4), Field(v, 4, 6)) < Field(v, 6, 8) <= 31
    ensures ParseDate(v, zone).Success?
    ensures var d := ParseDate(v, zone).value.date;
      d.year == Field(v, 0, 4) && d.month == Field(v, 4, 6) && d.day == DaysInMonth(d.year, d.month)
  {
    EightDigits(v);
  }

  /** Year `0000`, month `00` or `13` and up, and day `00` or `32` and up are rejected. */
  lemma {:induction false} DateOutOfRange(v: string, zone: int)
    requires |v| == 8 && DigitsAt(v, 0, 4) && DigitsAt(v, 4, 6) && DigitsAt(v, 6, 8)
    requires Field(v, 0, 4) == 0 || Field(v, 4, 6) == 0 || Field(v, 4, 6) > 12
          || Field(v, 6, 8) == 0 || Field(v, 6, 8) > 31
    ensures ParseDate(v, zone) == Failure(BadDate(v))
  {
    EightDigits(v);
  }

  /** A value without `T` or a final `Z` that is not eight characters long is rejected. */
  lemma {:induction false} DateOnlyLength(v: string, zone: int)
    requires !EndsWith(v, "Z") && 'T' !in v && |v| != 8
    ensures ParseDate(v, zone) == Failure(BadDate(v))
  {
  }

  /** A value with a `T` and no final `Z` must be exactly `yyyyMMdd'T'HHmmss`. */
  lemma {:induction false} LocalLength(v: string, zone: int)
    requires !EndsWith(v, "Z") && 'T' in v && |v| != 15
    ensures ParseDate(v, zone) == Failure(BadDate(v))
  {
  }

  /** The fields of `yyyyMMdd'T'HHmmss` at the start of `v`, all in range. */
  predicate LocalForm(v: string) {
    |v| >= 15 && v[8] == 'T'
    && DigitsAt(v, 0, 4) && DigitsAt(v, 4, 6) && DigitsAt(v, 6, 8)
    && DigitsAt(v, 9, 11) && DigitsAt(v, 11, 13) && DigitsAt(v, 13, 15)
    && Field(v, 0, 4) >= 1 && ValidDate(Date(Field(v, 0, 4), Field(v, 4, 6), Field(v, 6, 8)))
    && Field(v, 9, 11) < 24 && Field(v, 11, 13) < 60 && Field(v, 13, 15) < 60
  }

  /** The reading those fields name. */
  function LocalReading(v: string): (dt: DateTime)
    requires LocalForm(v)
    ensures ValidDateTime(dt)
  {
    DateTime(Date(Field(v, 0, 4), Field(v, 4, 6), Field(v, 6, 8)), Field(v, 9, 11), Field(v, 11, 13), Field(v, 13, 15))
  }

  lemma {:induction false} ReadLocal(v: string)
    requires LocalForm(v)
    ensures ReadDateTime(v) == Some(LocalReading(v))
  {
  }

  /** `20240115T153000` reads as 2024-01-15 15:30:00, the fields as written. */
  lemma {:induction false} LocalAsWritten(v: string, zone: int)
    requires |v| == 15 && LocalForm(v)
    ensures ParseDate(v, zone) == Success(LocalReading(v))
  {
    ReadLocal(v);
    LocalShape(v);
  }

  /** Java's `plusDays(1)` is the next calendar date. */
  lemma {:induction false} PlusOneDay(d: Date)
    requires ValidDate(d)
    ensures CivilFromDays(DayNumber(d) + 1) == NextDate(d)
  {
    DayNumberNext(d);
  }

  /** `…T240000` is midnight at the start of the next day. */
  lemma {:induction false} EndOfDay(v: string, zone: int)
    requires |v| == 15 && v[8] == 'T'
    requires DigitsAt(v, 0, 4) && DigitsAt(v, 4, 6) && DigitsAt(v, 6, 8)
    requires DigitsAt(v, 9, 11) && DigitsAt(v, 11, 13) && DigitsAt(v, 13, 15)
    requires Field(v, 0, 4) >= 1 && ValidDate(Date(Field(v, 0, 4), Field(v, 4, 6), Field(v, 6, 8)))
    requires Field(v, 9, 11) == 24 && Field(v, 11, 13) == 0 && Field(v, 13, 15) == 0
    ensures ParseDate(v, zone) == Success(DateTime(NextDate(Date(Field(v, 0, 4), Field(v, 4, 6), Field(v, 6, 8))), 0, 0, 0))
  {
    var d := Date(Field(v, 0, 4), Field(v, 4, 6), Field(v, 6, 8));
    assert ReadDate(v) == Some(d);
    assert ReadDateTime(v) == Some(DateTime(CivilFromDays(DayNumber(d) + 1), 0, 0, 0));
    PlusOneDay(d);
    LocalParse(v, zone);
  }

  /** A local value of fifteen characters is read by the `yyyyMMdd'T'HHmmss` pattern alone. */
  lemma {:induction false} LocalParse(v: string, zone: int)
    requires |v| == 15 && v[8] == 'T' && DigitsAt(v, 13, 15)
    ensures ParseDate(v, zone)
         == if ReadDateTime(v).Some? then Success(ReadDateTime(v).value) else Failure(BadDate(v))
  {
    LocalShape(v);
  }

  /** A value of fifteen characters ending in digits and holding `T` at position 8 goes to the local branch. */
  lemma {:induction false} LocalShape(v: string)
    requires |v| == 15 && v[8] == 'T' && DigitsAt(v, 13, 15)
    ensures !EndsWith(v, "Z") && 'T' in v
  {
    assert IsDigit(v[13..15][1]);
  }

  /**
   * `yyyyMMdd'T'HHmmss'Z'` is an instant given in UTC; the reading returned
   * is that instant in the device zone, `zone` seconds later than the value's
   * fields, and in a zone with no offset it is the fields as written.
   */
  lemma {:induction false} UtcConverted(v: string, zone: int)
    requires |v| == 16 && v[15] == 'Z' && LocalForm(v)
    ensures ParseDate(v, zone).Success?
    ensures Seconds(ParseDate(v, zone).value) == Seconds(LocalReading(v)) + zone
    ensures zone == 0 ==> ParseDate(v, zone) == Success(LocalReading(v))
  {
    ReadLocal(v);
    assert EndsWith(v, "Z") by { assert v[15..] == "Z"; }
    if zone == 0 {
      WallClockOfSeconds(LocalReading(v), 0);
    }
  }

  // The line loop of `parseFile`

  /** The locals `title`, `start` and `end`, and the `events` list. */
  datatype Parser = Parser(title: Option<string>, start: Option<DateTime>, end: Option<DateTime>,
                           events: seq<CalendarEvent>)

  const Fresh := Parser(None, None, None, [])

  /** `line.split(":", 2)[1]`: everything after the first colon; without a colon there is no second element. */
  function AfterColon(line: string): (r: Option<string>)
    ensures r.None? <==> ':' !in line
    ensures r.Some? ==> |r.value| < |line| && line == line[..|line| - |r.value|] + r.value
    ensures r.Some? ==> line[|line| - |r.value| - 1] == ':' && ':' !in line[..|line| - |r.value| - 1]
  {
    match IndexOf(line, ':')
    case None => None
    case Some(c) => assert line == line[..c + 1] + line[c + 1..]; Some(line[c + 1..])
  }

  /** The date on a `DTSTART` or `DTEND` line. */
  function LineDate(line: string, zone: int): (r: Result<DateTime, ParseError>)
    ensures ':' !in line ==> r == Failure(NoValue(line))
    ensures ':' in line ==> r == ParseDate(AfterColon(line).value, zone)
  {
    match AfterColon(line)
    case None => Failure(NoValue(line))
    case Some(v) => ParseDate(v, zone)
  }

  predicate Complete(p: Parser) {
    p.title.Some? && p.start.Some? && p.end.Some?
  }

  /** `END:VEVENT` appends the event of the fields when all three are set. */
  function Emitted(p: Parser): (r: seq<CalendarEvent>)
    ensures |r| <= 1 && (r != [] <==> Complete(p))
  {
    if Complete(p) then [CalendarEvent(p.title.value, p.start.value, p.end.value)] else []
  }

  /** One trimmed line: the first test that matches decides. */
  function Step(p: Parser, line: string, zone: int): (r: Result<Parser, ParseError>)
    ensures r.Success? ==> r.value.events == p.events + Emitted(p) || r.value.events == p.events
  {
    if line == "BEGIN:VEVENT" then Success(p.(title := None, start := None, end := None))
    else if StartsWith(line, "SUMMARY:") then Success(p.(title := Some(line[|"SUMMARY:"|..])))
    else if StartsWith(line, "DTSTART") then
      match LineDate(line, zone)
      case Failure(e) => Failure(e)
      case Success(d) => Success(p.(start := Some(d)))
    else if StartsWith(line, "DTEND") then
      match LineDate(line, zone)
      case Failure(e) => Failure(e)
      case Success(d) => Success(p.(end := Some(d)))
    else if line == "END:VEVENT" then Success(p.(events := p.events + Emitted(p)))
    else Success(p)
  }

  /** The loop over the lines, each trimmed; the first failure ends it. */
  function Run(p: Parser, lines: seq<string>, zone: int): Result<Parser, ParseError>
    decreases |lines|
  {
    if lines == [] then Success(p)
    else match Step(p, JavaTrim(lines[0]), zone)
      case Failure(e) => Failure(e)
      case Success(q) => Run(q, lines[1..], zone)
  }

  /** What `parseFile` returns for a content, or the exception it throws. */
  function Import(content: string, zone: int): Result<seq<CalendarEvent>, ParseError> {
    match Run(Fresh, JavaLines(content), zone)
    case Failure(e) => Failure(e)
    case Success(p) => Success(p.events)
  }

  /** `parseFile`. */
  method ParseFile(content: string, zone: int) returns (r: Result<seq<CalendarEvent>, ParseError>)
    ensures r == Import(content, zone)
  {
    var lines := JavaLines(content);
    var title: Option<string> := None;
    var start: Option<DateTime> := None;
    var end: Option<DateTime> := None;
    var events: seq<CalendarEvent> := [];
    for i := 0 to |lines|
      invariant Run(Parser(title, start, end, events), lines[i..], zone) == Run(Fresh, lines, zone)
    {
      RunFrom(Parser(title, start, end, events), lines, i, zone);
      var next := HandleLine(Parser(title, start, end, events), JavaTrim(lines[i]), zone);
      if next.Failure? {
        return Failure(next.error);
      }
      title, start, end, events := next.value.title, next.value.start, next.value.end, next.value.events;
    }
    assert lines[|lines|..] == [];
    return Success(events);
  }

  /** The body of the loop: the tests on one trimmed line, the first that matches deciding. */
  method HandleLine(p: Parser, line: string, zone: int) returns (r: Result<Parser, ParseError>)
    ensures r == Step(p, line, zone)
  {
    var title, start, end, events := p.title, p.start, p.end, p.events;
    if line == "BEGIN:VEVENT" {
      title, start, end := None, None, None;
    } else if StartsWith(line, "SUMMARY:") {
      title := Some(line[|"SUMMARY:"|..]);
    } else if StartsWith(line, "DTSTART") {
      var d := LineDate(line, zone);
      if d.Failure? {
        return Failure(d.error);
      }
      start := Some(d.value);
    } else if StartsWith(line, "DTEND") {
      var d := LineDate(line, zone);
      if d.Failure? {
        return Failure(d.error);
      }
      end := Some(d.value);
    } else if line == "END:VEVENT" {
      if title.Some? && start.Some? && end.Some? {
        events := events + [CalendarEvent(title.value, start.value, end.value)];
      } else {
        assert events + Emitted(p) == events;
      }
    }
    return Success(Parser(title, start, end, events));
  }

  lemma {:induction false} RunFrom(p: Parser, lines: seq<string>, i: nat, zone: int)
    requires i < |lines|
    ensures Run(p, lines[i..], zone)
         == match Step(p, JavaTrim(lines[i]), zone)
            case Failure(e) => Failure(e)
            case Success(q) => Run(q, lines[i + 1..], zone)
  {
    DropOne(lines, i);
  }

  lemma {:induction false} RunConcat(p: Parser, a: seq<string>, b: seq<string>, zone: int)
    ensures Run(p, a + b, zone)
         == match Run(p, a, zone)
            case Failure(e) => Failure(e)
            case Success(q) => Run(q, b, zone)
    decreases |a|
  {
    ConcatParts(a, b);
    if a != [] {
      match Step(p, JavaTrim(a[0]), zone)
      case Failure(e) =>
      case Success(q) => RunConcat(q, a[1..], b, zone);
    }
  }

  /** Two lists of lines of the same length whose lines trim alike, position by position. */
  predicate SameTrims(a: seq<string>, b: seq<string>)
    decreases |a|
  {
    if a == [] || b == [] then a == b
    else JavaTrim(a[0]) == JavaTrim(b[0]) && SameTrims(a[1..], b[1..])
  }

  lemma {:induction false} SameTrimsOf(a: seq<string>, b: seq<string>)
    requires |a| == |b| && forall k :: 0 <= k < |a| ==> JavaTrim(a[k]) == JavaTrim(b[k])
    ensures SameTrims(a, b)
    decreases |a|
  {
    if a != [] {
      var a', b' := a[1..], b[1..];
      forall k | 0 <= k < |a'|
        ensures JavaTrim(a'[k]) == JavaTrim(b'[k])
      {
        assert a'[k] == a[k + 1] && b'[k] == b[k + 1];
      }
      SameTrimsOf(a', b');
    }
  }

  /** Lines that trim alike are read alike. */
  lemma {:induction false} RunSameTrim(p: Parser, a: seq<string>, b: seq<string>, zone: int)
    requires SameTrims(a, b)
    ensures Run(p, a, zone) == Run(p, b, zone)
    decreases |a|
  {
    if a != [] {
      match Step(p, JavaTrim(a[0]), zone)
      case Failure(e) =>
      case Success(q) => RunSameTrim(q, a[1..], b[1..], zone);
    }
  }

  /** Empty lines change nothing. */
  lemma {:induction false} RunBlank(p: Parser, e: seq<string>, zone: int)
    requires forall k :: 0 <= k < |e| ==> e[k] == []
    ensures Run(p, e, zone) == Success(p)
    decreases |e|
  {
    if e != [] {
      assert JavaTrim(e[0]) == [];
      RunBlank(p, e[1..], zone);
    }
  }

  /**
   * The `\r?` of the separator and the dropped trailing empty strings make no
   * difference: the parse reads the content as if it were split at every `\n`.
   */
  lemma {:induction false} LinesAsSplit(content: string, p: Parser, zone: int)
    ensures Run(p, JavaLines(content), zone) == Run(p, SplitOn(content, '\n'), zone)
  {
    var parts := SplitOn(content, '\n');
    if |parts| != 1 {
      var s := StripCarriageReturns(parts);
      StripKeepsTrim(parts);
      SameTrimsOf(s, parts);
      DropTrailingKeepsRun(s, p, zone);
      RunSameTrim(p, s, parts, zone);
    }
  }

  lemma {:induction false} StripKeepsTrim(parts: seq<string>)
    ensures forall k :: 0 <= k < |parts| ==> JavaTrim(StripCarriageReturns(parts)[k]) == JavaTrim(parts[k])
  {
    forall k | 0 <= k < |parts|
      ensures JavaTrim(StripCarriageReturns(parts)[k]) == JavaTrim(parts[k])
    {
      if k < |parts| - 1 {
        TrimDropCr(parts[k]);
      }
    }
  }

  lemma {:induction false} DropTrailingKeepsRun(s: seq<string>, p: Parser, zone: int)
    ensures Run(p, DropTrailingEmpty(s), zone) == Run(p, s, zone)
  {
    var r := DropTrailingEmpty(s);
    assert s == r + s[|r|..];
    RunBlankTail(p, r, s[|r|..], zone);
  }

  lemma {:induction false} RunBlankTail(p: Parser, r: seq<string>, e: seq<string>, zone: int)
    requires forall k :: 0 <= k < |e| ==> e[k] == []
    ensures Run(p, r + e, zone) == Run(p, r, zone)
  {
    RunConcat(p, r, e, zone);
    if Run(p, r, zone).Success? {
      RunBlank(Run(p, r, zone).value, e, zone);
    }
  }

  /** A line with no surrounding white space is its own trim. */
  lemma {:induction false} Untrimmed(s: string)
    requires s != [] && !IsJavaTrimmable(s[0]) && !IsJavaTrimmable(s[|s| - 1])
    ensures JavaTrim(s) == s
  {
  }

  /** `BEGIN:VEVENT` clears the three fields and keeps the events. */
  lemma {:induction false} BeginResets(p: Parser, zone: int)
    ensures Step(p, "BEGIN:VEVENT", zone) == Success(Parser(None, None, None, p.events))
  {
  }

  /** The title is the raw text after `SUMMARY:`, in any state: nothing is unescaped and no event need be open. */
  lemma {:induction false} SummaryAnywhere(p: Parser, text: string, zone: int)
    ensures Step(p, "SUMMARY:" + text, zone) == Success(p.(title := Some(text)))
  {
    var line := "SUMMARY:" + text;
    assert line[..8] == "SUMMARY:";
    assert line[8..] == text;
    assert line[0] != "BEGIN:VEVENT"[0];
  }

  /** The name and parameters of a date line end at the first colon. */
  lemma {:induction false} DateLineValue(head: string, params: string, value: string)
    requires ':' !in head && ':' !in params
    ensures AfterColon(head + params + ":" + value) == Some(value)
    ensures StartsWith(head + params + ":" + value, head)
  {
    var name := head + params;
    assert head + params + ":" + value == name + ":" + value;
    assert ':' !in name by { assert forall c :: c in name ==> c in head || c in params; }
    SplitAtColon(name, value);
    assert (name + ":" + value)[..|head|] == head;
  }

  /** A line starting with `DTSTART` passes the two tests before its own. */
  lemma {:induction false} StartDispatch(line: string)
    requires StartsWith(line, "DTSTART")
    ensures line != "BEGIN:VEVENT" && !StartsWith(line, "SUMMARY:")
  {
    assert line[0] == 'D';
  }

  /** A line starting with `DTEND` passes the three tests before its own. */
  lemma {:induction false} EndDispatch(line: string)
    requires StartsWith(line, "DTEND")
    ensures line != "BEGIN:VEVENT" && !StartsWith(line, "SUMMARY:") && !StartsWith(line, "DTSTART")
  {
    assert line[0] == 'D' && line[2] == 'E';
  }

  /**
   * The value is everything after the first colon, whatever parameters come
   * before it: `DTSTART;VALUE=DATE:20240115` decodes `20240115`.
   */
  lemma {:induction false} StartValue(p: Parser, params: string, value: string, zone: int)
    requires ':' !in params && ParseDate(value, zone).Success?
    ensures Step(p, "DTSTART" + params + ":" + value, zone) == Success(p.(start := Some(ParseDate(value, zone).value)))
  {
    DateLineValue("DTSTART", params, value);
    StartDispatch("DTSTART" + params + ":" + value);
  }

  lemma {:induction false} EndValue(p: Parser, params: string, value: string, zone: int)
    requires ':' !in params && ParseDate(value, zone).Success?
    ensures Step(p, "DTEND" + params + ":" + value, zone) == Success(p.(end := Some(ParseDate(value, zone).value)))
  {
    DateLineValue("DTEND", params, value);
    EndDispatch("DTEND" + params + ":" + value);
  }

  /** `END:VEVENT` passes the four tests before its own. */
  lemma {:induction false} EndIsLast()
    ensures "END:VEVENT" != "BEGIN:VEVENT"
    ensures !StartsWith("END:VEVENT", "SUMMARY:") && !StartsWith("END:VEVENT", "DTSTART")
    ensures !StartsWith("END:VEVENT", "DTEND")
  {
    var line := "END:VEVENT";
    assert line[0] != "BEGIN:VEVENT"[0] && line[0] != "SUMMARY:"[0] && line[0] != "DTSTART"[0] && line[0] != "DTEND"[0];
  }

  lemma {:induction false} StepEnd(p: Parser, zone: int)
    ensures Step(p, "END:VEVENT", zone) == Success(p.(events := p.events + Emitted(p)))
  {
    EndIsLast();
  }

  /** Two lines are read one after the other. */
  lemma {:induction false} RunTwo(p: Parser, a: string, b: string, zone: int)
    ensures Run(p, [a, b], zone)
         == match Step(p, JavaTrim(a), zone)
            case Failure(e) => Failure(e)
            case Success(q) => Run(q, [b], zone)
  {
    assert [a, b][1..] == [b];
  }

  lemma {:induction false} RunOne(p: Parser, a: string, zone: int)
    ensures Run(p, [a], zone) == Step(p, JavaTrim(a), zone)
  {
    assert [a][1..] == [];
  }

  /** One `END:VEVENT` line, read or on its own, appends the event of complete fields. */
  lemma {:induction false} EndOnce(p: Parser, zone: int)
    requires Complete(p)
    ensures var q := p.(events := p.events + [CalendarEvent(p.title.value, p.start.value, p.end.value)]);
      Step(p, JavaTrim("END:VEVENT"), zone) == Success(q) && Run(p, ["END:VEVENT"], zone) == Success(q)
  {
    Untrimmed("END:VEVENT");
    StepEnd(p, zone);
    RunOne(p, "END:VEVENT", zone);
  }

  /** `END:VEVENT` leaves the fields set, so a second one with no `BEGIN:VEVENT` between emits the same event again. */
  lemma {:induction false} RepeatedEnd(p: Parser, zone: int)
    requires Complete(p)
    ensures var e := CalendarEvent(p.title.value, p.start.value, p.end.value);
      Run(p, ["END:VEVENT", "END:VEVENT"], zone) == Success(p.(events := p.events + [e, e]))
  {
    var e := CalendarEvent(p.title.value, p.start.value, p.end.value);
    var q := p.(events := p.events + [e]);
    RunTwo(p, "END:VEVENT", "END:VEVENT", zone);
    EndOnce(p, zone);
    EndOnce(q, zone);
    AppendTwice(p.events, e);
  }

  lemma {:induction false} AppendTwice<T>(s: seq<T>, e: T)
    ensures s + [e] + [e] == s + [e, e]
  {
  }

  /** A `DTSTART` or `DTEND` line with no colon, or with a value `parseDate` rejects, fails its step. */
  lemma {:induction false} BadDateFails(p: Parser, line: string, zone: int)
    requires StartsWith(line, "DTSTART") || StartsWith(line, "DTEND")
    requires ':' !in line || ParseDate(AfterColon(line).value, zone).Failure?
    ensures Step(p, line, zone).Failure?
  {
    assert line[0] == 'D';
    assert line != "BEGIN:VEVENT" && line != "END:VEVENT" && !StartsWith(line, "SUMMARY:");
  }

  /**
   * A failing line aborts the whole parse: whatever follows, no list is
   * returned, only the failure.
   */
  lemma {:induction false} FailureAborts(p: Parser, before: seq<string>, line: string, after: seq<string>, zone: int)
    requires Run(p, before, zone).Success?
    requires Step(Run(p, before, zone).value, JavaTrim(line), zone).Failure?
    ensures Run(p, before + [line] + after, zone)
         == Failure(Step(Run(p, before, zone).value, JavaTrim(line), zone).error)
  {
    RunConcat(p, before + [line], after, zone);
    RunConcat(p, before, [line], zone);
  }
}
