# Task manager: the iCalendar importers, the weekly report, the analytics and the task list

A Dafny model of the logic of a personal task and calendar manager. Users add timed tasks, complete, edit and delete them, import events from iCalendar (RFC 5545) files, and see a weekly report and weekly analytics. The model covers:

- **The browser importer** (`frontend/src/utils/icsParser.js`), in four modules:
  - `IcsLines`: line endings are normalised and folded lines unfolded (section 3.1 of RFC 5545), with the index loop and its inner continuation loop kept as a method.
  - `IcsText`: `cleanValue`, the four replacements that undo TEXT escaping (section 3.3.11 of RFC 5545), then a trim.
  - `IcsDates`: `parseIcsDate`, with its five branches for the DATE and DATE-TIME forms (sections 3.3.4 and 3.3.5 of RFC 5545), and the `YYYY-MM-DD` / `HH:MM` formatters.
  - `IcsImport`: `parseIcsFile`, a two-state machine (`inEvent` and the event being read) written as a method whose result is tied to a specification function.
- **The Java importer** (`Backend/src/main/java/com/taskmanager/IcsParser.java`), module `JavaIcs`. It splits on `\r?\n` and trims. It has no in-event flag, `END:VEVENT` does not reset the fields, and a bad date aborts the whole parse.
- **The weekly report** (`frontend/src/utils/weeklyReport.js`), module `WeeklyReport`. It covers `formatDuration`, `calculateTaskDuration`, `getWeekStart` and `generateWeeklyReport`, whose day buckets are built by methods with loop invariants. `new Date("YYYY-MM-DD")` reads a date-only string as midnight UTC, and the report reads it back with the local getters, so each written date is labelled with the local day on which that instant falls (`WeeklyReport.ShownDay`): the day before, west of UTC.
- **The weekly analytics** (`frontend/src/WeeklyAnalytics.js`), module `Analytics`. It covers the keyword classifier `extractCategory`, the span of a task, and the daily, category and total aggregation of the `useMemo` body.
- **The task list** (`frontend/src/App.js`), module `TaskList`. The state hooks of `MainScreen` are the fields of a class, and its handlers are methods. The list transforms inside them (`find`, `map`, `filter`) are functions.

Shared modules:

- `Common`: `Option` and `Result`.
- `JsText`: JavaScript string primitives (`trim`, `split`, global `replace`, `padStart`, `parseInt`, decimal printing).
- `Calendar`: the proleptic Gregorian calendar and ECMAScript time values. A `JsDate` is whole seconds since the epoch, or the invalid date.

The environment is made of parameters:

- the device time zone is a fixed offset in seconds ahead of UTC;
- "now" is a number of seconds;
- the id generator is a function from the record's position to an id, or a fresh id passed to `addTask`.

Durations are whole minutes.

Where the documented behaviour and the code disagree, the model follows the code. The documentation says a `Z` value's digits are shown as the local time. In the code (`frontend/src/utils/icsParser.js:157-170`, read back at 217-219 and 230-234), a `Z` value becomes the real UTC instant of its digits. The formatters then read it with the local getters, so the digits show as written only in a zone at UTC. `IcsDates.UtcInstant` and `IcsDates.UtcAtZeroOffset` state exactly that.

## Model

| member | source | states |
|---|---|---|
| `JsText.TrimStartBy` | frontend/src/utils/icsParser.js:26 | what is left after trimming the start is a suffix of the input that does not start with a trimmed character |
| `JsText.TrimEndBy` | frontend/src/utils/icsParser.js:26 | what is left after trimming the end is a prefix of the input that does not end with a trimmed character |
| `JsText.Trim` | frontend/src/utils/icsParser.js:19 | a trimmed string is empty or neither starts nor ends with ECMAScript white space |
| `JsText.JavaTrim` | Backend/src/main/java/com/taskmanager/IcsParser.java:30 | Java's `trim` leaves a string that is empty or neither starts nor ends with a character at or below the space |
| `JsText.IndexOf` | frontend/src/utils/icsParser.js:80 | `indexOf` finds nothing exactly when the character is absent, and otherwise its first position |
| `JsText.SplitAtColon` | frontend/src/utils/icsParser.js:80-84 | a line `name:value` whose name has no colon splits at the first colon into exactly that name and that value |
| `JsText.SplitOn` | frontend/src/utils/icsParser.js:22 | `split` with one separator character gives at least one part, and no part contains the separator |
| `JsText.JoinSplit` | frontend/src/utils/icsParser.js:22 | joining the parts of a split with the separator gives back the string |
| `JsText.ReplaceAllAbsent` | frontend/src/utils/icsParser.js:126-129 | a global replacement of a pattern that does not occur leaves the string unchanged |
| `JsText.ReplaceAllConcat` | frontend/src/utils/icsParser.js:126-129 | a global replacement of a two-character pattern distributes over a concatenation where no match can straddle the join |
| `JsText.ReplaceAll` | frontend/src/utils/icsParser.js:126-129 | the definition of a global `replace` of a literal pattern: scanning left to right, each match is replaced and skipped, so matches never overlap |
| `JsText.ToLowerCase` | frontend/src/WeeklyAnalytics.js:71 | lower-casing keeps the length and maps each character in place: `A` to `Z` to `a` to `z` and the KELVIN SIGN to `k`, every other character to itself |
| `JsText.DigitChar` | frontend/src/utils/icsParser.js:218-219 | the printed digit is a decimal digit character whose value is the digit |
| `JsText.NatToString` | frontend/src/utils/icsParser.js:217-220 | `String(n)` of a non-negative number is a non-empty digit string with no leading zero |
| `JsText.DigitsOfNatToString` | frontend/src/utils/icsParser.js:217-220 | reading the printed digits of a number gives back the number |
| `JsText.NatToStringOfDigits` | frontend/src/utils/icsParser.js:217-220 | printing the value of a digit string without a leading zero gives back the string |
| `JsText.Pow10` | frontend/src/utils/icsParser.js:148-150 | every power of ten is at least 1 |
| `JsText.DigitsValueBelow` | frontend/src/utils/icsParser.js:148-150 | a string of n digits is worth less than 10^n |
| `JsText.DigitsValueAtLeast` | frontend/src/utils/icsParser.js:148-150 | a string of n digits without a leading zero is worth at least 10^(n-1) |
| `JsText.Repeat` | frontend/src/utils/icsParser.js:218-219 | the repeated string has the requested length and holds only the given character |
| `JsText.PadStart` | frontend/src/utils/icsParser.js:218-219 | `padStart` gives a string of at least the width that ends with the input, and leaves a string already that wide unchanged in length |
| `JsText.Pad2Digits` | frontend/src/utils/icsParser.js:218-219 | `String(n).padStart(2, '0')` of a number below 100 is two digits worth n |
| `JsText.Pad2OfDigits` | frontend/src/utils/icsParser.js:218-219 | any two digits, read and printed back with `padStart(2, '0')`, are unchanged |
| `JsText.ScanDecimalSnoc` | frontend/src/utils/icsParser.js:148 | `parseInt`'s digit scan reads one more digit as ten times the value so far plus the digit |
| `JsText.ScanDecimalOfDigits` | frontend/src/utils/icsParser.js:148 | `parseInt`'s digit scan reads a digit string as its decimal value |
| `JsText.ParseIntOfDigits` | frontend/src/utils/icsParser.js:148-150 | `parseInt` reads a non-empty run of decimal digits as its decimal value |
| `JsText.ParseInt` | frontend/src/utils/icsParser.js:148-150 | the definition of `parseInt` without a radix: leading white space skipped, one optional sign, a `0x` prefix for base 16, then the longest digit run; no digit gives NaN |
| `JsText.JsNumber` | frontend/src/WeeklyAnalytics.js:8-9 | `Number` of a blank string is 0, and any number it reads from date and time text is non-negative |
| `Calendar.DaysBeforeYearClosed` | frontend/src/utils/icsParser.js:152 | the year-by-year day count before a year equals the closed form `365k + k/4 - k/100 + k/400` that ECMAScript's `DayFromYear` uses |
| `Calendar.YearsOrdered` | frontend/src/utils/icsParser.js:152 | every day of an earlier year comes before the first day of a later year |
| `Calendar.YearOfOrdinal` | frontend/src/utils/icsParser.js:217 | the year found for a day count is the one whose days contain it |
| `Calendar.CivilFromDays` | frontend/src/utils/icsParser.js:217-219 | the calendar date computed from a day number is a valid date with that day number |
| `Calendar.DayNumberInjective` | frontend/src/utils/icsParser.js:217-219 | two valid dates with the same day number are the same date |
| `Calendar.CivilOfDayNumber` | frontend/src/utils/icsParser.js:217-219 | converting a valid date to its day number and back gives the date |
| `Calendar.DayNumberNext` | frontend/src/utils/weeklyReport.js:31-33 | the day number after a date's is the next calendar date: the next day, the first of the next month, or the first of January of the next year |
| `Calendar.Weekday` | frontend/src/utils/weeklyReport.js:120 | `getDay` is in 0..6 |
| `Calendar.MakeDayOfDate` | frontend/src/utils/icsParser.js:152 | `MakeDay` of a valid date with its 0-based month is that date's day number |
| `Calendar.MakeDay` | frontend/src/utils/icsParser.js:152 | the definition of ECMAScript `MakeDay`: a 0-based month that may overflow into the year either way, and a day counted from the first of that month |
| `Calendar.FullYear` | frontend/src/utils/icsParser.js:152 | the definition of the `Date` constructor's year: 0 to 99 mean 1900 to 1999, other years are kept |
| `Calendar.TimeClip` | frontend/src/utils/icsParser.js:152 | a time value is kept exactly when its magnitude is at most 8.64e15 ms, and otherwise the date is invalid |
| `Calendar.NewLocalDate` | frontend/src/utils/icsParser.js:152 | `new Date(y, mo, d, h, mi, s)` with any NaN argument is the invalid date |
| `Calendar.WallClock` | frontend/src/utils/icsParser.js:217-219 | the local getters of a time value give a valid date and clock reading that, taken as UTC, is the time value plus the zone offset |
| `Calendar.SplitDay` | frontend/src/utils/icsParser.js:234-235 | a second count splits into whole days and an hour in 0..23, minute and second in 0..59 |
| `Calendar.WallClockOfSeconds` | frontend/src/utils/icsParser.js:217-219 | reading back the instant of a valid local reading with the local getters gives the same reading |
| `Calendar.NewLocalDateOf` | frontend/src/utils/icsParser.js:181 | `new Date(y, m - 1, d, h, mi, s)` of a valid local reading of year 100 or later is that reading shifted to UTC by the zone offset |
| `Calendar.InTimeRange` | frontend/src/utils/icsParser.js:181 | a valid local reading of a year from 1000 to 9999, less than a day from UTC, is within a `Date`'s range |
| `Calendar.LocalInstant` | frontend/src/utils/icsParser.js:181 | `new Date(y, m - 1, d, h, mi, s)` of such a reading is a valid instant whose local reading is again that reading |
| `Calendar.MidnightInstant` | frontend/src/utils/icsParser.js:152 | `new Date(y, m - 1, d, 0, 0, 0)` of a valid date is a valid instant read back as that date at 00:00 |
| `IcsLines.NormalizeContent` | frontend/src/utils/icsParser.js:16-19 | after CRLF and then CR are rewritten to LF and the content is trimmed, no carriage return is left |
| `IcsLines.NoCarriageReturn` | frontend/src/utils/icsParser.js:18 | the global CR-to-LF replacement leaves no carriage return in any string |
| `IcsLines.PhysicalLines` | frontend/src/utils/icsParser.js:22 | splitting the normalised content on LF gives at least one physical line, and no line holds LF or CR |
| `IcsLines.GroupEnd` | frontend/src/utils/icsParser.js:29 | the continuation run after a line ends at the first line that does not start with a space or tab (or at the end), and every line it passes over does |
| `IcsLines.Unfolded` | frontend/src/utils/icsParser.js:25-37 | the unfolded logical lines are never more than the physical lines, and none is empty |
| `IcsLines.KeepLine` | frontend/src/utils/icsParser.js:34-36 | a logical line is pushed exactly when it is non-empty |
| `IcsLines.UnfoldLines` | frontend/src/utils/icsParser.js:25-37 | the outer loop, with its inner continuation loop, pushes exactly the logical lines `Unfolded` defines: each trimmed physical line followed by its continuation lines minus their first character, empty ones dropped, in order |
| `IcsLines.AbsorbContinuations` | frontend/src/utils/icsParser.js:29-32 | the inner while loop stops at the end of the continuation run and has appended every continuation line of the run without its leading space or tab, in order |
| `IcsLines.UnfoldedAfterIs` | frontend/src/utils/icsParser.js:25-37 | the loop's accumulated view (lines found so far, then the rest) equals the lines found so far followed by the unfolding of the remaining physical lines |
| `IcsLines.LogicalLines` | frontend/src/utils/icsParser.js:16-37 | every logical line of a file is non-empty and there are never more logical lines than physical lines |
| `IcsLines.UnfoldedUnfolded` | frontend/src/utils/icsParser.js:25-37 | with no line led by a space or tab, unfolding from any position yields the trimmed non-empty physical lines from there on, in order |
| `IcsLines.NoFoldingKeepsLines` | frontend/src/utils/icsParser.js:25-37 | with no line led by a space or tab, the logical lines are exactly the trimmed non-empty physical lines, in order |
| `IcsLines.TailsOfFolded` | frontend/src/utils/icsParser.js:31 | dropping the first character of each space-led folded piece and joining them gives back the pieces joined |
| `IcsLines.UnfoldFolded` | frontend/src/utils/icsParser.js:25-37 | unfolding undoes folding: a trimmed first piece followed by space-led continuation pieces reads back as the single logical line of all pieces joined |
| `IcsLines.GroupEndAll` | frontend/src/utils/icsParser.js:29-32 | when every remaining line is a continuation line, the inner loop runs to the end of the content |
| `IcsText.CleanValue` | frontend/src/utils/icsParser.js:124-131 | the unescaped value neither starts nor ends with white space |
| `IcsText.ReplaceAllFlat` | frontend/src/utils/icsParser.js:126-129 | a global replacement of a backslash escape on a value written piece by piece (no piece ending in a backslash) equals the replacement applied to each piece |
| `IcsText.StagesOfChar` | frontend/src/utils/icsParser.js:126-129 | traces the RFC 5545 TEXT escape of any character other than a backslash through the four replacements in their order: each stage undoes exactly its own escape |
| `IcsText.CleanEscaped` | frontend/src/utils/icsParser.js:124-131 | unescaping undoes the RFC 5545 TEXT escape of any value without backslashes: the result is the value itself, trimmed |
| `IcsText.EscapedBackslashN` | frontend/src/utils/icsParser.js:126-129 | because `\n` is replaced before `\\`, the escape of a backslash followed by `n` reads back as a backslash followed by a newline, not as itself |
| `IcsText.EscapePlain` | frontend/src/utils/icsParser.js:124-131 | text with no newline, comma, semicolon or backslash is its own escape |
| `IcsText.FlatConcat` | frontend/src/utils/icsParser.js:124-131 | the character-by-character escape distributes over concatenation |
| `IcsText.EscapeCommaNewline` | frontend/src/utils/icsParser.js:124-131 | the escape of `a,b` newline `c` over plain text is `a\,b\nc` |
| `IcsText.CleanCommaNewline` | frontend/src/utils/icsParser.js:124-131 | an escaped comma and an escaped newline read back as a comma and a newline, as in `Team\, sync\nroom A` |
| `IcsDates.BeforeSemicolon` | frontend/src/utils/icsParser.js:144 | the decoded part is a prefix of the value with no semicolon, and is the whole value when it has none |
| `IcsDates.Substring` | frontend/src/utils/icsParser.js:148-150 | `substring` never gives more than the requested width, and is the exact slice when the string is long enough |
| `IcsDates.BranchOf` | frontend/src/utils/icsParser.js:147-197 | the all-day branch is taken exactly when the flag is set or the value has no `T` and 8 characters; the value is unrecognised exactly when none of the flag, a `T`, a trailing `Z` or a length of at least 8 holds |
| `IcsDates.Decode` | frontend/src/utils/icsParser.js:147-197 | the definition of each branch's result: local midnight for a date, the local reading for a floating value, the `Date.UTC` reading for a `Z` value, the current instant otherwise |
| `IcsDates.ParseIcsDate` | frontend/src/utils/icsParser.js:139-203 | a value no branch accepts decodes to the current instant, the value the `catch` returns |
| `IcsDates.FormatDateForInput` | frontend/src/utils/icsParser.js:211-221 | an invalid date formats as today's UTC date from `toISOString` |
| `IcsDates.FormatTimeForInput` | frontend/src/utils/icsParser.js:228-237 | the time is always five characters with a colon in the middle, and an invalid date formats as `00:00` |
| `IcsDates.FieldRead` | frontend/src/utils/icsParser.js:148-150 | `parseInt` of a non-empty slice of digits is its decimal value |
| `IcsDates.SecondsRead` | frontend/src/utils/icsParser.js:164 | a two-digit seconds slice passes `\|\| "0"` unchanged and is read as its value |
| `IcsDates.TwoDigitsPrinted` | frontend/src/utils/icsParser.js:218-219 | a two-digit field is below 100 and prints back with `padStart(2, '0')` as written |
| `IcsDates.FourDigitYear` | frontend/src/utils/icsParser.js:217 | four digits without a leading zero are a year from 1000 to 9999 that `String` prints as written |
| `IcsDates.FieldsRead` | frontend/src/utils/icsParser.js:148-150 | the year, month and day of a well-formed value are read as written and print back as written |
| `IcsDates.TimeFieldsRead` | frontend/src/utils/icsParser.js:177-179 | the hour, minute and second of a well-formed date-time are read as written, and hour and minute print back as written |
| `IcsDates.DateShown` | frontend/src/utils/icsParser.js:217-220 | a valid date formats as the year, padded month and padded day of its local reading |
| `IcsDates.TimeShown` | frontend/src/utils/icsParser.js:234-236 | a valid date formats as the padded local hour and minute, seconds dropped |
| `IcsDates.YearRead` | frontend/src/utils/icsParser.js:148 | the year digits are read as the year |
| `IcsDates.MonthRead` | frontend/src/utils/icsParser.js:149 | the month digits are read as the 0-based month, one less than written |
| `IcsDates.DayRead` | frontend/src/utils/icsParser.js:150 | the day digits are read as the day |
| `IcsDates.HourRead` | frontend/src/utils/icsParser.js:177 | the hour digits are read as the hour |
| `IcsDates.MinuteRead` | frontend/src/utils/icsParser.js:178 | the minute digits are read as the minute |
| `IcsDates.SecondRead` | frontend/src/utils/icsParser.js:179 | the second digits are read as the second |
| `IcsDates.NoTimeRead` | frontend/src/utils/icsParser.js:162-164 | in an eight-character value hour and minute are NaN and the missing second defaults to 0 |
| `IcsDates.DateFieldsRead` | frontend/src/utils/icsParser.js:148-150 | an eight-digit value is read as its year, 0-based month and day, NaN hour and minute, and second 0 |
| `IcsDates.DateTimeFieldsRead` | frontend/src/utils/icsParser.js:174-179 | a `YYYYMMDDTHHMMSS` value is read as its six fields, the month 0-based |
| `IcsDates.TimeFieldsOf` | frontend/src/utils/icsParser.js:174-179 | the fields of a well-formed date-time's reading are the digits at their fixed positions |
| `IcsDates.YearInRange` | frontend/src/utils/icsParser.js:148 | four digits without a leading zero are a year from 1000 to 9999 |
| `IcsDates.DateTimeRead` | frontend/src/utils/icsParser.js:174-179 | a well-formed `YYYYMMDDTHHMMSS` is read into the fields of a valid reading of a year from 1000 to 9999 |
| `IcsDates.DateRead` | frontend/src/utils/icsParser.js:148-150 | a well-formed `YYYYMMDD` is read into a valid date of a year from 1000 to 9999 and no time |
| `IcsDates.DateFieldOf` | frontend/src/utils/icsParser.js:148-150 | the fields held for a date without a time are its digits, the month 0-based, and second 0 |
| `IcsDates.FloatingBranch` | frontend/src/utils/icsParser.js:173 | `YYYYMMDDTHHMMSS` with nothing after it takes the floating local-time branch |
| `IcsDates.UtcBranch` | frontend/src/utils/icsParser.js:158 | `YYYYMMDDTHHMMSSZ` takes the `Z` branch |
| `IcsDates.AllDayBranch` | frontend/src/utils/icsParser.js:147 | a well-formed eight-digit date takes the all-day branch |
| `IcsDates.FloatingInstant` | frontend/src/utils/icsParser.js:172-184 | a floating `YYYYMMDDTHHMMSS` decodes to a valid instant whose local reading is its digits |
| `IcsDates.FloatingRoundTrip` | frontend/src/utils/icsParser.js:172-184 | a floating date-time formats, in every zone, as its own date and time digits with seconds dropped: `20240115T153000` gives `2024-01-15` and `15:30` |
| `IcsDates.AllDayInstant` | frontend/src/utils/icsParser.js:146-155 | an eight-digit date decodes to a valid instant whose local reading is that date at 00:00 |
| `IcsDates.AllDayDateRoundTrip` | frontend/src/utils/icsParser.js:146-155 | an eight-digit date formats, in every zone, as `YYYY-MM-DD` of its own digits |
| `IcsDates.MidnightShown` | frontend/src/utils/icsParser.js:234-236 | an instant read as local midnight formats as `00:00` |
| `IcsDates.AllDayTimeRoundTrip` | frontend/src/utils/icsParser.js:146-155 | an eight-digit date formats as the time `00:00` in every zone |
| `IcsDates.UtcInstant` | frontend/src/utils/icsParser.js:157-170 | a `YYYYMMDDTHHMMSSZ` value decodes, whatever the zone, to the instant whose UTC reading is its digits |
| `IcsDates.UtcAtZeroOffset` | frontend/src/utils/icsParser.js:157-170 | in a zone at UTC, a `Z` value formats as its own date and time digits |
| `IcsImport.PropertyOf` | frontend/src/utils/icsParser.js:80-83 | the property name of a line is the text before its first colon: the line starts with the name followed by a colon |
| `IcsImport.Apply` | frontend/src/utils/icsParser.js:78-106 | the definition of a property line inside an event: a line without a colon is skipped, otherwise its name and value go to `ApplyProperty` |
| `IcsImport.ApplyProperty` | frontend/src/utils/icsParser.js:87-105 | the definition of the dispatch, in source order: `SUMMARY` and `DESCRIPTION` exactly, `DTSTART` and `DTEND` by prefix, then the two `VALUE=DATE` tests; other names leave the draft |
| `IcsImport.Record` | frontend/src/utils/icsParser.js:59-67 | the record of a complete draft carries the given id and the non-empty title, its description defaults to `''`, and both times are five characters |
| `IcsImport.Emitted` | frontend/src/utils/icsParser.js:57-74 | `END:VEVENT` inside an event emits at most one record, and one exactly when title, start and end are all set |
| `IcsImport.Step` | frontend/src/utils/icsParser.js:49-106 | the definition of one turn of the loop: `BEGIN:VEVENT` opens an empty event, `END:VEVENT` inside an event emits and closes it, other lines inside an event go to `Apply`, lines outside are skipped |
| `IcsImport.Run` | frontend/src/utils/icsParser.js:46-107 | the definition of the loop over the logical lines, from a given state |
| `IcsImport.Import` | frontend/src/utils/icsParser.js:8-117 | the definition of what `parseIcsFile` returns: the records of the loop over the unfolded lines, from outside any event |
| `IcsImport.ParseIcsFile` | frontend/src/utils/icsParser.js:8-117 | the importer returns exactly the records of the state machine `Run` over the unfolded logical lines of the content |
| `IcsImport.ReadEvents` | frontend/src/utils/icsParser.js:42-107 | the event loop, with its `inEvent` flag and `currentEvent` draft, returns exactly the records of the state machine `Run` |
| `IcsImport.RunFrom` | frontend/src/utils/icsParser.js:46-107 | running the machine from line i is one step on line i, then a run from line i+1 |
| `IcsImport.RunConcat` | frontend/src/utils/icsParser.js:46-107 | running over two pieces of lines is running over the first and then the second |
| `IcsImport.EventsGrow` | frontend/src/utils/icsParser.js:70 | records are only ever appended: the ones emitted so far stay at the front, in order |
| `IcsImport.AtMostOnePerEnd` | frontend/src/utils/icsParser.js:54-77 | a run emits at most one record per `END:VEVENT` line |
| `IcsImport.OutsideIgnored` | frontend/src/utils/icsParser.js:49-54 | outside an event every line but `BEGIN:VEVENT` is ignored, a stray `END:VEVENT` included |
| `IcsImport.UnterminatedEmitsNothing` | frontend/src/utils/icsParser.js:54 | without an `END:VEVENT` line nothing is emitted, so an unterminated final block yields no record |
| `IcsImport.BeginDiscards` | frontend/src/utils/icsParser.js:49-52 | `BEGIN:VEVENT` discards any partial draft: only the records emitted so far survive it |
| `IcsImport.RunInside` | frontend/src/utils/icsParser.js:78-106 | inside an event, property lines only update the draft, in order, and emit nothing |
| `IcsImport.Block` | frontend/src/utils/icsParser.js:49-106 | a block `BEGIN:VEVENT`, property lines, `END:VEVENT` emits exactly one record if the gathered draft is complete and none otherwise, and leaves the event closed |
| `IcsImport.GatherKeepsTitle` | frontend/src/utils/icsParser.js:87-89 | lines whose property is not `SUMMARY` leave the title as it was |
| `IcsImport.GatherConcat` | frontend/src/utils/icsParser.js:78-106 | gathering two pieces of property lines is gathering the first, then the second |
| `IcsImport.GatherOne` | frontend/src/utils/icsParser.js:78-106 | gathering one line applies that line's property |
| `IcsImport.ApplySummary` | frontend/src/utils/icsParser.js:87-89 | `SUMMARY:text` sets the title to the unescaped text and changes nothing else |
| `IcsImport.ApplyStart` | frontend/src/utils/icsParser.js:93-95 | `DTSTART:value` sets the start to the decoded value and changes nothing else |
| `IcsImport.ApplyEnd` | frontend/src/utils/icsParser.js:96-98 | `DTEND:value` sets the end to the decoded value and changes nothing else |
| `IcsImport.LastSummaryWins` | frontend/src/utils/icsParser.js:87-89 | a later `SUMMARY` overwrites an earlier one: the last one gives the title |
| `IcsImport.GatherThree` | frontend/src/utils/icsParser.js:78-106 | three property lines are applied in order |
| `IcsImport.FloatingRecord` | frontend/src/utils/icsParser.js:59-67 | the record of a draft with a summary and two floating date-times shows the unescaped summary, `''`, and the digits of the two values as dates and times |
| `IcsImport.FloatingDraft` | frontend/src/utils/icsParser.js:87-98 | the lines `SUMMARY`, `DTSTART`, `DTEND` gather into the unescaped title, no description, and the two decoded instants |
| `IcsImport.FloatingEvent` | frontend/src/utils/icsParser.js:49-76 | a whole block with a summary and floating start and end appends one record with the next id, the unescaped summary, `''`, and the dates and times written in the values (`DTSTART:20240115T153000` gives `2024-01-15`, `15:30`) |
| `IcsImport.ValueDateUnreachable` | frontend/src/utils/icsParser.js:93-105 | the dispatch behaves exactly like one without the `VALUE=DATE` tests: they are unreachable, so the all-day flag is never passed |
| `JavaIcs.DropCr` | Backend/src/main/java/com/taskmanager/IcsParser.java:18 | dropping the optional `\r` of the separator adds no character |
| `JavaIcs.StripCarriageReturns` | Backend/src/main/java/com/taskmanager/IcsParser.java:18 | every part followed by a `\n` loses a `\r` just before it, and the last part is kept as it is |
| `JavaIcs.DropTrailingEmpty` | Backend/src/main/java/com/taskmanager/IcsParser.java:18 | `split` keeps a prefix of the parts that does not end with an empty string, and drops only empty strings |
| `JavaIcs.JavaLines` | Backend/src/main/java/com/taskmanager/IcsParser.java:18 | no line of the split content holds a `\n` |
| `JavaIcs.TrimStartSnoc` | Backend/src/main/java/com/taskmanager/IcsParser.java:30 | trimming the start of a string that ends in a trimmable character keeps that character unless the whole string trims away |
| `JavaIcs.TrimDropCr` | Backend/src/main/java/com/taskmanager/IcsParser.java:18-30 | a line trims alike with or without a final `\r` |
| `JavaIcs.ResolveDate` | Backend/src/main/java/com/taskmanager/IcsParser.java:90-91 | a `yyyyMMdd` date is accepted exactly when the year is at least 1, the month 1 to 12 and the day 1 to 31, and what is accepted is a valid date |
| `JavaIcs.ResolveTime` | Backend/src/main/java/com/taskmanager/IcsParser.java:83-84 | an `HHmmss` time is accepted exactly when minutes and seconds are below 60 and the hour is below 24 or it is `240000`, and what is accepted is a valid reading |
| `JavaIcs.ReadDate` | Backend/src/main/java/com/taskmanager/IcsParser.java:90-91 | a date read from the pattern is valid |
| `JavaIcs.ReadDateTime` | Backend/src/main/java/com/taskmanager/IcsParser.java:83-84 | a date-time read from the pattern is a valid reading |
| `JavaIcs.ParseDate` | Backend/src/main/java/com/taskmanager/IcsParser.java:68-99 | `parseDate` returns a valid reading, or throws an error naming the value |
| `JavaIcs.NextDate` | Backend/src/main/java/com/taskmanager/IcsParser.java:83-84 | the next calendar date is a valid date |
| `JavaIcs.DateAtMidnight` | Backend/src/main/java/com/taskmanager/IcsParser.java:88-93 | eight digits naming a real date of year 1 or later read as that date at 00:00 |
| `JavaIcs.EightDigits` | Backend/src/main/java/com/taskmanager/IcsParser.java:73-88 | eight digits have neither a final `Z` nor a `T`, so they reach the date-only branch |
| `JavaIcs.SmartClamp` | Backend/src/main/java/com/taskmanager/IcsParser.java:90-91 | a day past the end of its month, up to 31, is cut back to the month's last day |
| `JavaIcs.DateOutOfRange` | Backend/src/main/java/com/taskmanager/IcsParser.java:90-97 | year 0000, month 00 or above 12, and day 00 or above 31 throw |
| `JavaIcs.DateOnlyLength` | Backend/src/main/java/com/taskmanager/IcsParser.java:88-97 | a value with neither `T` nor a final `Z` that is not eight characters long throws |
| `JavaIcs.LocalLength` | Backend/src/main/java/com/taskmanager/IcsParser.java:81-97 | a value with a `T` and no final `Z` throws unless it is exactly fifteen characters |
| `JavaIcs.LocalReading` | Backend/src/main/java/com/taskmanager/IcsParser.java:83-84 | the reading named by in-range `yyyyMMdd'T'HHmmss` fields is valid |
| `JavaIcs.ReadLocal` | Backend/src/main/java/com/taskmanager/IcsParser.java:83-84 | in-range `yyyyMMdd'T'HHmmss` fields are read as that reading |
| `JavaIcs.LocalAsWritten` | Backend/src/main/java/com/taskmanager/IcsParser.java:81-85 | `20240115T153000` and every in-range local value read as the fields written |
| `JavaIcs.PlusOneDay` | Backend/src/main/java/com/taskmanager/IcsParser.java:83-84 | the day after a day number is the next calendar date |
| `JavaIcs.EndOfDay` | Backend/src/main/java/com/taskmanager/IcsParser.java:83-84 | `T240000` reads as midnight at the start of the next day |
| `JavaIcs.LocalShape` | Backend/src/main/java/com/taskmanager/IcsParser.java:73-81 | a fifteen-character value ending in digits with `T` at position 8 reaches the local branch |
| `JavaIcs.UtcConverted` | Backend/src/main/java/com/taskmanager/IcsParser.java:73-78 | a `Z` value is accepted and converted to the device zone: its reading is the zone offset later than the fields, and with no offset it is the fields as written |
| `JavaIcs.AfterColon` | Backend/src/main/java/com/taskmanager/IcsParser.java:45 | `split(":", 2)[1]` exists exactly when the line has a colon, and is everything after the first colon |
| `JavaIcs.LineDate` | Backend/src/main/java/com/taskmanager/IcsParser.java:45-49 | a date line without a colon fails, and otherwise its date is `parseDate` of the text after the first colon |
| `JavaIcs.Emitted` | Backend/src/main/java/com/taskmanager/IcsParser.java:51-57 | `END:VEVENT` appends at most one event, and one exactly when title, start and end are all set |
| `JavaIcs.Step` | Backend/src/main/java/com/taskmanager/IcsParser.java:30-57 | a line that does not fail either leaves the events as they were or appends the event of the fields |
| `JavaIcs.Run` | Backend/src/main/java/com/taskmanager/IcsParser.java:28-58 | the definition of the loop over the trimmed lines, where the first failing line ends the parse with its error |
| `JavaIcs.Import` | Backend/src/main/java/com/taskmanager/IcsParser.java:9-66 | the definition of what `parseFile` returns: the events of the loop over the split lines, or the exception it throws |
| `JavaIcs.ParseFile` | Backend/src/main/java/com/taskmanager/IcsParser.java:9-66 | the loop over the content's lines returns exactly what the line machine `Import` gives: the events, or the failure of the first bad line |
| `JavaIcs.HandleLine` | Backend/src/main/java/com/taskmanager/IcsParser.java:30-57 | the loop body on one trimmed line does exactly one `Step` |
| `JavaIcs.RunFrom` | Backend/src/main/java/com/taskmanager/IcsParser.java:28-58 | running from line i is one step on the trimmed line i, then a run from line i+1 unless the step failed |
| `JavaIcs.RunConcat` | Backend/src/main/java/com/taskmanager/IcsParser.java:28-58 | running over two pieces of lines is running over the first and then, if it did not fail, over the second |
| `JavaIcs.RunSameTrim` | Backend/src/main/java/com/taskmanager/IcsParser.java:30 | lines that trim alike are read alike |
| `JavaIcs.RunBlank` | Backend/src/main/java/com/taskmanager/IcsParser.java:30-57 | empty lines change nothing |
| `JavaIcs.LinesAsSplit` | Backend/src/main/java/com/taskmanager/IcsParser.java:18-30 | the `\r?` of the separator and the dropped trailing empty strings make no difference: the parse reads the content as if split at every `\n` |
| `JavaIcs.StripKeepsTrim` | Backend/src/main/java/com/taskmanager/IcsParser.java:18-30 | every stripped part trims as the unstripped part does |
| `JavaIcs.DropTrailingKeepsRun` | Backend/src/main/java/com/taskmanager/IcsParser.java:18 | dropping the trailing empty parts leaves the result of the parse unchanged |
| `JavaIcs.RunBlankTail` | Backend/src/main/java/com/taskmanager/IcsParser.java:30-57 | empty lines at the end change nothing |
| `JavaIcs.Untrimmed` | Backend/src/main/java/com/taskmanager/IcsParser.java:30 | a line with no surrounding white space is its own trim |
| `JavaIcs.BeginResets` | Backend/src/main/java/com/taskmanager/IcsParser.java:32-38 | `BEGIN:VEVENT` clears title, start and end and keeps the events |
| `JavaIcs.SummaryAnywhere` | Backend/src/main/java/com/taskmanager/IcsParser.java:39-42 | the title becomes the raw text after `SUMMARY:` in any state: nothing is unescaped and no event need be open |
| `JavaIcs.DateLineValue` | Backend/src/main/java/com/taskmanager/IcsParser.java:45 | the value of a date line is what follows the first colon, after any parameters |
| `JavaIcs.StartDispatch` | Backend/src/main/java/com/taskmanager/IcsParser.java:32-43 | a line starting with `DTSTART` passes the two tests before its own |
| `JavaIcs.EndDispatch` | Backend/src/main/java/com/taskmanager/IcsParser.java:32-47 | a line starting with `DTEND` passes the three tests before its own |
| `JavaIcs.StartValue` | Backend/src/main/java/com/taskmanager/IcsParser.java:43-46 | a `DTSTART` line, whatever its parameters, sets the start to `parseDate` of the text after the colon: `DTSTART;VALUE=DATE:20240115` decodes `20240115` |
| `JavaIcs.EndValue` | Backend/src/main/java/com/taskmanager/IcsParser.java:47-50 | a `DTEND` line, whatever its parameters, sets the end to `parseDate` of the text after the colon |
| `JavaIcs.EndIsLast` | Backend/src/main/java/com/taskmanager/IcsParser.java:32-51 | `END:VEVENT` passes the four tests before its own |
| `JavaIcs.StepEnd` | Backend/src/main/java/com/taskmanager/IcsParser.java:51-57 | `END:VEVENT` appends the event of complete fields and resets nothing |
| `JavaIcs.RunTwo` | Backend/src/main/java/com/taskmanager/IcsParser.java:28-58 | two lines are read one after the other |
| `JavaIcs.RunOne` | Backend/src/main/java/com/taskmanager/IcsParser.java:28-58 | a run over one line is one step on that trimmed line |
| `JavaIcs.EndOnce` | Backend/src/main/java/com/taskmanager/IcsParser.java:51-57 | one `END:VEVENT` line after complete fields appends their event |
| `JavaIcs.RepeatedEnd` | Backend/src/main/java/com/taskmanager/IcsParser.java:51-57 | since `END:VEVENT` keeps the fields, a second one with no `BEGIN:VEVENT` between emits the same event again |
| `JavaIcs.BadDateFails` | Backend/src/main/java/com/taskmanager/IcsParser.java:43-50 | a `DTSTART` or `DTEND` line with no colon, or with a value `parseDate` rejects, fails |
| `JavaIcs.FailureAborts` | Backend/src/main/java/com/taskmanager/IcsParser.java:60 | a failing line aborts the whole parse: whatever follows, no list is returned, only the failure |
| `WeeklyReport.Duration` | frontend/src/utils/weeklyReport.js:74-84 | a task's duration is a whole number of minutes, never negative, at least the span from start to end, and exactly that span when the end is not before the start |
| `WeeklyReport.JsRem` | frontend/src/utils/weeklyReport.js:93 | JavaScript's `%` agrees with the mathematical remainder for a non-negative dividend and keeps the dividend's sign otherwise |
| `WeeklyReport.FormatDuration` | frontend/src/utils/weeklyReport.js:91-98 | a formatted duration is non-empty and ends in `h` or `m` |
| `WeeklyReport.ReadNumber` | frontend/src/utils/weeklyReport.js:95-97 | a run of digits reads as its value, anything else as nothing |
| `WeeklyReport.DurationRoundTrip` | frontend/src/utils/weeklyReport.js:91-98 | every non-negative number of minutes reads back from its `Hh Mm`, `Hh` or `Mm` text: no duration is lost or confused with another |
| `WeeklyReport.MinutesOnly` | frontend/src/utils/weeklyReport.js:97 | `Mm` reads back as M minutes |
| `WeeklyReport.HoursAndMinutes` | frontend/src/utils/weeklyReport.js:95 | `Hh Mm` reads back as 60·H + M minutes |
| `WeeklyReport.ReadHoursMinutes` | frontend/src/utils/weeklyReport.js:95 | the text before the final `m` of `Hh Mm` reads as 60·H + M |
| `WeeklyReport.SplitAtHour` | frontend/src/utils/weeklyReport.js:95 | in `Hh Mm` the first `h` follows the hour digits and is followed by a space |
| `WeeklyReport.FormatDurationExamples` | frontend/src/utils/weeklyReport.js:91-98 | 0 gives `0m`, 90 gives `1h 30m` and 120 gives `2h` |
| `WeeklyReport.Filter` | frontend/src/utils/weeklyReport.js:15-18 | `filter` never lengthens the list |
| `WeeklyReport.FilterAppendOne` | frontend/src/utils/weeklyReport.js:15-18 | filtering a list with one more task at the end adds that task at the end exactly when it passes |
| `WeeklyReport.FilterMembers` | frontend/src/utils/weeklyReport.js:15-18 | a task is kept exactly when it is in the list and passes the test |
| `WeeklyReport.FilterSorted` | frontend/src/utils/weeklyReport.js:45-48 | filtering keeps the order: a list sorted by start filters to a list sorted by start |
| `WeeklyReport.SortedSnoc` | frontend/src/utils/weeklyReport.js:21-25 | a task starting no earlier than all tasks of a sorted list can be appended keeping it sorted |
| `WeeklyReport.WeekTasksExactly` | frontend/src/utils/weeklyReport.js:15-18 | a task is kept exactly when it is one of the tasks and its date lies from the week start to six days later |
| `WeeklyReport.InWeek` | frontend/src/utils/weeklyReport.js:15-18 | the definition of the filter's test: midnight UTC of the task's written date lies from midnight UTC of the week start to six days later |
| `WeeklyReport.WeekTasks` | frontend/src/utils/weeklyReport.js:15-18 | the definition of the `filter` with that test |
| `WeeklyReport.InsertByStart` | frontend/src/utils/weeklyReport.js:21-25 | inserting a task adds exactly that task: the result is one longer and a permutation of the list plus the task |
| `WeeklyReport.InsertSorted` | frontend/src/utils/weeklyReport.js:21-25 | inserting into a list sorted by start keeps it sorted |
| `WeeklyReport.SortByStart` | frontend/src/utils/weeklyReport.js:21-25 | the sort is a permutation of its input |
| `WeeklyReport.SortSorted` | frontend/src/utils/weeklyReport.js:21-25 | the sort orders the tasks by start |
| `WeeklyReport.InsertStable` | frontend/src/utils/weeklyReport.js:21-25 | inserting a task puts it after every task with the same start |
| `WeeklyReport.SortStable` | frontend/src/utils/weeklyReport.js:21-25 | the sort is stable, as `Array.prototype.sort` is: tasks with the same start keep their input order |
| `WeeklyReport.TotalSnoc` | frontend/src/utils/weeklyReport.js:55 | the `reduce` over one more task adds that task's duration |
| `WeeklyReport.TotalDuration` | frontend/src/utils/weeklyReport.js:55 | the definition of the `reduce`: the sum of the tasks' durations |
| `WeeklyReport.DayTasks` | frontend/src/utils/weeklyReport.js:45-48 | the definition of the tasks pushed onto a day: those whose date is shown on that local day, in order |
| `WeeklyReport.DayName` | frontend/src/utils/weeklyReport.js:29-35 | the definition of `dayNames[getDay()]` |
| `WeeklyReport.SortedWeek` | frontend/src/utils/weeklyReport.js:15-25 | the definition of the week's tasks in the order the report lists them: filtered, then sorted by start |
| `WeeklyReport.ShownDay` | frontend/src/utils/weeklyReport.js:10 | the definition of the local day of `new Date("YYYY-MM-DD")`: midnight UTC of the written day, seen in the device zone |
| `WeeklyReport.ShownDayReads` | frontend/src/utils/weeklyReport.js:10-12 | that day is the day of the local reading the getters return |
| `WeeklyReport.ShownDayShift` | frontend/src/utils/weeklyReport.js:10-17 | dates written k days apart are shown k days apart |
| `WeeklyReport.ShownDayWest` | frontend/src/utils/weeklyReport.js:10 | west of UTC a date-only string shows the day before the one written |
| `WeeklyReport.ShownDayEast` | frontend/src/utils/weeklyReport.js:10 | at UTC or east of it, a date-only string shows the day written |
| `WeeklyReport.AsWrittenWeekStartsSaturday` | frontend/src/utils/weeklyReport.js:10-35 | west of UTC the Sunday `getWeekStart` writes is shown as the Saturday before it, and the first day is named `Saturday` |
| `WeeklyReport.IntendedWeekStartsSunday` | frontend/src/utils/weeklyReport.js:10-35 | read as local midnight (`new Date(y, m - 1, d)`), a written Sunday is shown as that Sunday in every zone, and named `Sunday` |
| `WeeklyReport.GenerateWeeklyReport` | frontend/src/utils/weeklyReport.js:9-67 | `weekStart` and `weekEnd` are the local day on which the written week start is shown and six days later; the report has exactly those seven days; each day is named by its weekday and lists, in sorted order and with their summed duration, the kept tasks whose date is shown on it; `totalTasks` counts the kept tasks, `completedTasks` the completed ones among them, `totalDuration` sums their durations and `averageDailyDuration` is that sum over 7 |
| `WeeklyReport.EmptyWeek` | frontend/src/utils/weeklyReport.js:31-42 | the first loop creates exactly the seven local days from the shown week start on, each with its weekday name, no tasks and duration 0 |
| `WeeklyReport.AssignTasks` | frontend/src/utils/weeklyReport.js:45-51 | the `forEach` keeps the same days and leaves each with exactly the sorted tasks shown on that day, in order, and their summed duration |
| `WeeklyReport.DayTasksSnoc` | frontend/src/utils/weeklyReport.js:45-51 | one more task joins the tasks and duration of the day it is shown on, and no other day's |
| `WeeklyReport.DayTasksAppend` | frontend/src/utils/weeklyReport.js:45-51 | a task appended to the list is added to the bucket of the day it is shown on only |
| `WeeklyReport.TotalAppend` | frontend/src/utils/weeklyReport.js:49 | the duration of a list with one more task grows by that task's duration |
| `WeeklyReport.DaysTotalSnoc` | frontend/src/utils/weeklyReport.js:45-51 | adding a task to the list adds its duration to the seven days' sum exactly when the day it is shown on is one of them |
| `WeeklyReport.DaysAddUp` | frontend/src/utils/weeklyReport.js:45-55 | every task shown in the week is counted in exactly one day: the days' durations add up to the total |
| `WeeklyReport.DaysTotalEmpty` | frontend/src/utils/weeklyReport.js:31-42 | with no task the seven days' durations sum to 0 |
| `WeeklyReport.ReportDaysAddUp` | frontend/src/utils/weeklyReport.js:10-65 | in every zone, every kept task is shown on one of the report's seven days, so the days' durations add up to `totalDuration` |
| `WeeklyReport.DaysSorted` | frontend/src/utils/weeklyReport.js:21-48 | each day lists its tasks ordered by start |
| `WeeklyReport.CompletedAtMostTotal` | frontend/src/utils/weeklyReport.js:54-56 | `completedTasks` never exceeds `totalTasks` |
| `WeeklyReport.WeekStartDay` | frontend/src/utils/weeklyReport.js:118-122 | the week start is a Sunday on or at most six days before the date |
| `WeeklyReport.WeekStartUnique` | frontend/src/utils/weeklyReport.js:118-122 | it is the only Sunday among the seven days ending on the date |
| `WeeklyReport.WeekStartOfWeek` | frontend/src/utils/weeklyReport.js:118-122 | every day of a week has that week's Sunday as its week start |
| `WeeklyReport.GetWeekStart` | frontend/src/utils/weeklyReport.js:118-130 | `getWeekStart` writes the Sunday on or before the date as `YYYY-MM-DD`, month and day zero-padded |
| `Analytics.ExtractCategory` | frontend/src/WeeklyAnalytics.js:70-82 | the category is always one of the seven labels |
| `Analytics.Classify` | frontend/src/WeeklyAnalytics.js:74-81 | the keyword tests only ever name one of the seven labels |
| `Analytics.AnyOfTwo` | frontend/src/WeeklyAnalytics.js:74 | a rule with two keywords matches exactly when the text contains one of them |
| `Analytics.AnyOfThree` | frontend/src/WeeklyAnalytics.js:75 | a rule with three keywords matches exactly when the text contains one of them |
| `Analytics.CategoryByRules` | frontend/src/WeeklyAnalytics.js:73-81 | the chain of tests is the first matching rule of the table Meetings, Study, Work, Exercise, Classes, Personal, else Other |
| `Analytics.FirstMatchAt` | frontend/src/WeeklyAnalytics.js:73-81 | the first rule whose keywords occur wins, whatever later rules match |
| `Analytics.FirstMatchOther` | frontend/src/WeeklyAnalytics.js:81 | the result is Other exactly when no rule matches |
| `Analytics.ContainsAt` | frontend/src/WeeklyAnalytics.js:74-79 | `includes` holds when the keyword occurs at some position |
| `Analytics.ContainsInPrefix` | frontend/src/WeeklyAnalytics.js:74-79 | a text that starts with a word holds everything that word holds |
| `Analytics.ContainsWithin` | frontend/src/WeeklyAnalytics.js:74-79 | substring containment is transitive |
| `Analytics.HomeworkIsStudy` | frontend/src/WeeklyAnalytics.js:75-76 | a text with "homework" and no meeting keyword is Study, although the Work rule matches it too through "work": Study is tested first |
| `Analytics.WorkoutIsWork` | frontend/src/WeeklyAnalytics.js:76-77 | a text with "workout" that matches neither Meetings nor Study is Work and not Exercise, because "work" is tested first, although the Exercise rule matches too |
| `Analytics.LowerConcat` | frontend/src/WeeklyAnalytics.js:71 | the modelled lower-casing distributes over concatenation |
| `Analytics.CategoryIgnoresCase` | frontend/src/WeeklyAnalytics.js:71 | events and descriptions that differ only in the case of ASCII letters get the same category |
| `Analytics.KelvinSignIsWork` | frontend/src/WeeklyAnalytics.js:70-75 | `WOR` followed by the KELVIN SIGN, with no description, lower-cases to `work ` and is classified `Work` |
| `Analytics.LocalDateTime` | frontend/src/WeeklyAnalytics.js:8-10 | a date whose year part `Number` cannot read gives the invalid date |
| `Analytics.ParseLocalDateTime` | frontend/src/WeeklyAnalytics.js:6-11 | `parseLocalDateTime` is `null` exactly when the date text is empty |
| `Analytics.TaskMinutes` | frontend/src/WeeklyAnalytics.js:13-18 | a task without a date has span 0 |
| `Analytics.MissingEndDate` | frontend/src/WeeklyAnalytics.js:15 | a task without `endDate` is measured as if it ended on its `date` |
| `Analytics.SplitAround` | frontend/src/WeeklyAnalytics.js:8-9 | splitting at a separator absent from the first part gives that part, then the split of the rest |
| `Analytics.NumberOfDigits` | frontend/src/WeeklyAnalytics.js:8-9 | `Number` reads a non-empty run of digits as its value |
| `Analytics.IsoDateParts` | frontend/src/WeeklyAnalytics.js:8 | a `YYYY-MM-DD` text is the year, a dash, the padded month, a dash and the padded day |
| `Analytics.SplitTwo` | frontend/src/WeeklyAnalytics.js:9 | a text with one separator splits into its two parts |
| `Analytics.SplitThree` | frontend/src/WeeklyAnalytics.js:8 | a text with two separators splits into its three parts |
| `Analytics.ReadPadded` | frontend/src/WeeklyAnalytics.js:8-9 | a two-digit padded field reads back as its number |
| `Analytics.ReadYear` | frontend/src/WeeklyAnalytics.js:8 | a printed year reads back as the year |
| `Analytics.ReadDateParts` | frontend/src/WeeklyAnalytics.js:8 | the three parts of a `YYYY-MM-DD` text read as year, month and day |
| `Analytics.PartsRead` | frontend/src/WeeklyAnalytics.js:8 | three parts that read as numbers give those numbers at their positions |
| `Analytics.ReadClockParts` | frontend/src/WeeklyAnalytics.js:9 | the two parts of an `HH:MM` text read as hour and minute |
| `Analytics.LocalDateOfReading` | frontend/src/WeeklyAnalytics.js:10 | `new Date(y, m - 1, d, h, mi, 0, 0)` of a valid reading is its local minute, shifted to UTC and clipped |
| `Analytics.IsoDateReads` | frontend/src/WeeklyAnalytics.js:8 | the form's `YYYY-MM-DD` reads as its date |
| `Analytics.ClockReads` | frontend/src/WeeklyAnalytics.js:9 | the form's `HH:MM` reads as its time |
| `Analytics.DateArguments` | frontend/src/WeeklyAnalytics.js:8-10 | for a date text that reads as a date with non-zero month and day, `(m \|\| 1) - 1` and `d \|\| 1` are the 0-based month and the day |
| `Analytics.ClockArguments` | frontend/src/WeeklyAnalytics.js:9-10 | for a time text that reads as hour and minute, `hh \|\| 0` and `mm \|\| 0` are that hour and minute |
| `Analytics.ParseOfParts` | frontend/src/WeeklyAnalytics.js:6-11 | texts that read as a date and a time are parsed as `new Date` of those fields |
| `Analytics.ParseReading` | frontend/src/WeeklyAnalytics.js:6-11 | texts that read as a valid reading in range parse to that local minute shifted to UTC |
| `Analytics.SpanOfReadings` | frontend/src/WeeklyAnalytics.js:13-18 | a task whose ends parse as local minutes a and b spans b - a minutes, or 0 when the end is not after the start |
| `Analytics.MinutesScaled` | frontend/src/WeeklyAnalytics.js:17 | the span of two instants a whole number of minutes apart, shifted alike, is their difference in minutes or 0 |
| `Analytics.SpanOfInstants` | frontend/src/WeeklyAnalytics.js:13-18 | a task whose ends parse as valid instants spans their difference, floored to minutes and never negative |
| `Analytics.SpanScaled` | frontend/src/WeeklyAnalytics.js:17 | shifting both ends by the same offset leaves the span unchanged |
| `Analytics.Plus` | frontend/src/WeeklyAnalytics.js:30 | a sum of minutes is finite exactly when both addends are, since NaN absorbs |
| `Analytics.Get` | frontend/src/WeeklyAnalytics.js:35 | `map.get` finds nothing exactly when no entry has the key |
| `Analytics.Put` | frontend/src/WeeklyAnalytics.js:36 | after `map.set(k, v)` the key holds v and every other key is unchanged |
| `Analytics.AddTo` | frontend/src/WeeklyAnalytics.js:34-42 | the definition of `map.set(k, (map.get(k) \|\| 0) + m)` |
| `Analytics.Add` | frontend/src/WeeklyAnalytics.js:28-42 | the definition of one turn of the `forEach`: the minutes go to the day (if the date is not empty), to the category and to the total |
| `Analytics.Accumulate` | frontend/src/WeeklyAnalytics.js:28-43 | the definition of the `forEach` over the tasks, first to last |
| `Analytics.InsertDescending` | frontend/src/WeeklyAnalytics.js:55-59 | inserting an entry adds exactly that entry: one longer and a permutation of the list plus the entry; it moves ahead only of entries whose hours round to fewer tenths |
| `Analytics.SortDescending` | frontend/src/WeeklyAnalytics.js:52-59 | the breakdown's sort on the rounded hours is a permutation of the category map |
| `Analytics.Analyze` | frontend/src/WeeklyAnalytics.js:20-68 | the loop of the `useMemo` body, with its two maps and running total, computes exactly the aggregation `AnalyticsOf`, whose breakdown is sorted on the hours rounded to a tenth, as line 56 rounds them |
| `Analytics.AnalyticsOf` | frontend/src/WeeklyAnalytics.js:20-68 | the definition of the aggregation: the empty object for no task, else the daily map, the category breakdown stably sorted by hours rounded to a tenth, largest first, the total and the task count |
| `Analytics.AsWrittenThrows` | frontend/src/WeeklyAnalytics.js:20-43 | as written the component's aggregation agrees with the intended one only for the empty list; any task makes it throw |
| `Analytics.EmptyAnalytics` | frontend/src/WeeklyAnalytics.js:21 | an empty task list gives empty breakdowns, a zero total and no task count |
| `Analytics.SumAddTo` | frontend/src/WeeklyAnalytics.js:35-42 | adding m minutes under a key adds m to the map's sum, whether the key is new or not |
| `Analytics.FiniteAddTo` | frontend/src/WeeklyAnalytics.js:35-42 | adding finite minutes keeps every value of the map finite |
| `Analytics.AddBalanced` | frontend/src/WeeklyAnalytics.js:28-43 | one turn of the `forEach` with finite minutes keeps both maps finite and each adding up to the finite total |
| `Analytics.MapsAddUp` | frontend/src/WeeklyAnalytics.js:28-43 | when every span is finite, the category map and the daily map each add up to the total: each task's minutes go once to its category and once to its day, and a task without a date has span 0 |
| `Analytics.EntryAtMostSum` | frontend/src/WeeklyAnalytics.js:33-37 | no entry exceeds the sum of its map |
| `Analytics.SumInsert` | frontend/src/WeeklyAnalytics.js:59 | inserting an entry adds its minutes to the sum |
| `Analytics.SumAppend` | frontend/src/WeeklyAnalytics.js:53-59 | the sum of two lists of entries is the sum of their sums |
| `Analytics.SumSorted` | frontend/src/WeeklyAnalytics.js:53-59 | sorting the breakdown keeps its sum |
| `Analytics.InsertKeepsDescending` | frontend/src/WeeklyAnalytics.js:55-59 | inserting a finite entry into a list ordered by rounded hours, largest first, keeps it so ordered |
| `Analytics.SortedDescending` | frontend/src/WeeklyAnalytics.js:55-59 | with finite values the breakdown is ordered by hours rounded to a tenth, largest first |
| `Analytics.Tenths` | frontend/src/WeeklyAnalytics.js:56 | `Math.round(hours * 10)` of m minutes is the whole number nearest to m / 6, halves rounded up |
| `Analytics.InsertStable` | frontend/src/WeeklyAnalytics.js:59 | an inserted entry goes after every entry whose hours round to the same tenths |
| `Analytics.SortStable` | frontend/src/WeeklyAnalytics.js:52-59 | the sort is stable on the rounded key: categories whose hours round alike keep their map order |
| `Analytics.NearTieKeepsMapOrder` | frontend/src/WeeklyAnalytics.js:55-59 | Work at 61 minutes entered before Study at 62 minutes: both show 1.0 h, and Work stays first |
| `Analytics.LargerRoundedFirst` | frontend/src/WeeklyAnalytics.js:55-59 | Work at 60 minutes (1.0 h) entered before Study at 64 minutes (1.1 h): Study moves ahead |
| `Analytics.ReportTotals` | frontend/src/WeeklyAnalytics.js:20-67 | for a non-empty list with finite spans: the breakdown is ordered by hours rounded to a tenth, largest first, keeps map order among categories that round alike, and is a permutation of the category map; it and the daily map both add up to the total; no day exceeds the total; the task count is the list's length |
| `Analytics.AccumulateSnoc` | frontend/src/WeeklyAnalytics.js:28-43 | the aggregation of one more task is one more turn of the `forEach` |
| `Analytics.NaNForgotten` | frontend/src/WeeklyAnalytics.js:41-42 | `\|\| 0` forgets NaN: after a task of NaN span and one of m minutes in the same category, the category holds m while the total stays NaN |
| `Analytics.PutDistinct` | frontend/src/WeeklyAnalytics.js:36 | `map.set` never adds a second entry for a key |
| `Analytics.AccumulateDistinct` | frontend/src/WeeklyAnalytics.js:24-43 | both maps of the aggregation hold one entry per key |
| `Analytics.AddDistinct` | frontend/src/WeeklyAnalytics.js:35-42 | one turn of the `forEach` keeps both maps at one entry per key |
| `TaskList.ParseDateTimeString` | frontend/src/App.js:62-63 | `new Date("<date>T<time>")` gives an invalid date for any text that is not sixteen characters long |
| `TaskList.InstantOf` | frontend/src/App.js:62-63 | a local date and time yields an instant only when the date exists and the hour and minute are in range |
| `TaskList.FourDigitYear` | frontend/src/App.js:62 | a year from 1000 to 9999 is written with exactly four digits, as the date input writes it |
| `TaskList.ParseFields` | frontend/src/App.js:62-63 | a `YYYY-MM-DDTHH:MM` text of digit fields is read as the local instant of those fields |
| `TaskList.InputsReadBack` | frontend/src/App.js:62-63 | what the date and time inputs write for a local date, hour and minute reads back as that local minute, shifted by the zone offset |
| `TaskList.EarlierIffMinuteBefore` | frontend/src/App.js:62-64 | `start < end` on two input readings holds exactly when the first local minute is before the second |
| `TaskList.FormAccepted` | frontend/src/App.js:50-77 | `addTask` flags nothing exactly when the trimmed title and the four date and time fields are non-empty and the start is before the end |
| `TaskList.FormErrors` | frontend/src/App.js:50-72 | the definition of `nextErrors`: each empty field is flagged, a blank title too, and an end not after the start flags the start time, end date and end time |
| `TaskList.EmptyFieldFlagged` | frontend/src/App.js:52-58 | an empty title or field is flagged; the title and start date are flagged only when empty |
| `TaskList.OrderFlags` | frontend/src/App.js:60-72 | a filled form whose start is not before its end flags exactly the start time, the end date and the end time |
| `TaskList.InputFormAccepted` | frontend/src/App.js:50-77 | a form with a title, filled by the inputs, passes exactly when the start minute is before the end minute |
| `TaskList.NewTask` | frontend/src/App.js:79-87 | the definition of the task `addTask` appends: the id, the trimmed title and description, the four date and time fields; the object has no `completed` field, which every later test reads as false |
| `TaskList.NonEmptyTexts` | frontend/src/App.js:54-57 | the text an input writes for a date or a time is never empty, so it is never flagged as missing |
| `TaskList.Ids` | frontend/src/App.js:99 | the ids of the list, one per task, in order |
| `TaskList.Find` | frontend/src/App.js:99-100 | `find` gives `undefined` exactly when no task has the id, and otherwise a task of the list with that id |
| `TaskList.FindFirst` | frontend/src/App.js:99 | the task `find` returns is the first one with the id |
| `TaskList.Flip` | frontend/src/App.js:101 | the `map` keeps the length and flips the flag of exactly the tasks with the id, position by position |
| `TaskList.FlipTwice` | frontend/src/App.js:101 | toggling the same task twice gives the list back |
| `TaskList.FlipKeepsIds` | frontend/src/App.js:101 | toggling keeps every id in its place |
| `TaskList.ApplyEdit` | frontend/src/App.js:150-162 | the `map` keeps the length; the task with the edited id takes the trimmed title and description and the four fields, the others stay |
| `TaskList.EditKeepsIds` | frontend/src/App.js:150-162 | an edit keeps every id in its place |
| `TaskList.Without` | frontend/src/App.js:376 | the `filter` keeps exactly the tasks whose id is not removed, and never lengthens the list |
| `TaskList.WithoutAppend` | frontend/src/App.js:376 | the `filter` keeps the order: it distributes over concatenation |
| `TaskList.WithoutNothing` | frontend/src/App.js:113 | removing no id leaves the list as it is |
| `TaskList.WithoutIds` | frontend/src/App.js:376 | an id is left after the `filter` exactly when it was in the list and not removed |
| `TaskList.WithoutDistinct` | frontend/src/App.js:113 | the `filter` keeps the ids distinct |
| `TaskList.Toggled` | frontend/src/App.js:233-241 | a click marks an unmarked id and unmarks a marked one, and leaves every other mark alone |
| `TaskList.ToggledTwice` | frontend/src/App.js:233-241 | two clicks on the same task leave the marks as they were |
| `TaskList.ListDurationAsReport` | frontend/src/App.js:170-175 | the list's `formatDuration` writes a non-negative number of minutes as the weekly report writes it |
| `TaskList.ListDuration` | frontend/src/App.js:171-175 | the definition of the branches of the list's `formatDuration`: `Hh Mm`, `Hh`, else `Mm` |
| `TaskList.FormatSpan` | frontend/src/App.js:166-176 | the definition of the list's `formatDuration`: both ends parsed as local date-times, then `SpanText` |
| `TaskList.SpanText` | frontend/src/App.js:168-176 | the definition of the span text: the floored minutes of a forward span, 0 for a backward one, `NaNm` when an end is invalid |
| `TaskList.SpanTextReads` | frontend/src/App.js:166-176 | the span text reads back as its whole minutes, a backwards span is `0m`, and an invalid end gives `NaNm` |
| `TaskList.ForwardSpanReads` | frontend/src/App.js:169-175 | a forward span between two instants reads back as its whole minutes |
| `TaskList.MainScreen.constructor` | frontend/src/App.js:14-26 | the first render has an empty list, form, errors and marks, no edit and no delete mode |
| `TaskList.MainScreen.AddTask` | frontend/src/App.js:50-91 | a failing form sets the errors and changes nothing else; otherwise the task with the fresh id is appended and the form and errors are cleared; a fresh id keeps the ids distinct |
| `TaskList.MainScreen.ToggleCompleted` | frontend/src/App.js:98-111 | an unknown id changes nothing; otherwise the task's flag flips, and completing a task puts its id on the fade list and a completed copy at the head of the stored list; with distinct ids, no other task changes and the ids stay distinct |
| `TaskList.MainScreen.FinishFade` | frontend/src/App.js:112-119 | when the fade ends the task leaves the list and the fade list, and the ids stay distinct |
| `TaskList.MainScreen.StartEdit` | frontend/src/App.js:126-138 | for a known id the edit form takes the task's fields; an unknown id changes nothing |
| `TaskList.MainScreen.CancelEdit` | frontend/src/App.js:140-142 | no task is being edited any more |
| `TaskList.MainScreen.SaveEdit` | frontend/src/App.js:144-164 | an edit with an empty title or field, or a start not before the end, changes nothing; otherwise the edited task takes the form's fields and the edit ends; with distinct ids, no other task changes and the ids stay distinct |
| `TaskList.MainScreen.EnterDeleteMode` | frontend/src/App.js:368 | the Delete Mode button turns delete mode on |
| `TaskList.MainScreen.ClickTask` | frontend/src/App.js:230-243 | in delete mode a click toggles the task's mark; otherwise nothing changes |
| `TaskList.MainScreen.SaveAndExit` | frontend/src/App.js:374-379 | the marked tasks leave the list and the rest keep their order; the marks clear and delete mode ends; the ids stay distinct |
| `TaskList.MainScreen.ExitWithoutSaving` | frontend/src/App.js:384-388 | the marks clear and delete mode ends; the list stays |
| `TaskList.AppendFresh` | frontend/src/App.js:88 | appending a task whose id is not yet in the list keeps the ids distinct |
| `TaskList.FlipDistinct` | frontend/src/App.js:101 | with distinct ids, toggling keeps them distinct and changes no task but the one with the id |
| `TaskList.EditDistinct` | frontend/src/App.js:150-162 | with distinct ids, an edit keeps them distinct and changes no task but the one being edited |

## Left out

- File and console I/O: `Files.readString`, the `System.out` and `console` logging, and the catch of `IOException`. The Java importer takes the content string.
- React rendering, routing and `localStorage`. The completed list in storage is a field of `TaskList.MainScreen`. The load and save effects (`frontend/src/App.js:178-200`) and the bindings of the form inputs are not modelled. Neither is a corrupt stored list, which the `catch` at `frontend/src/App.js:111` ignores.
- The 380 ms `setTimeout` in `toggleCompleted` is asynchronous. Its callback is the separate step `TaskList.MainScreen.FinishFade`.
- Time zones: the device zone is one fixed offset, and the model follows it wherever the code reads local time, including the UTC reading of date-only strings in the weekly report. Daylight-saving changes and `ZoneId.systemDefault()` rules are not modelled.
- `crypto.randomUUID`, `Math.random` and `new Date()` "now" are parameters. Ids are assumed fresh where that matters.
- Floating-point hours are not modelled. Spans are whole minutes, and `averageDailyDuration` is the exact quotient. The rounding to a tenth of an hour that the category sort compares (`frontend/src/WeeklyAnalytics.js:56-59`) is modelled exactly by `Analytics.Tenths`, so a product that floating point puts just off a half is not. The displayed values are not modelled: the rounded daily hours, the percentages, `averageTaskLength` (`frontend/src/WeeklyAnalytics.js:46-66`) and `CalendarEvent.getHours`.
- Strings are sequences of characters (Unicode scalar values), while JavaScript and Java strings are UTF-16 code units. Lengths and positions, such as `value.length === 8` and the `substring` offsets in `parseIcsDate` (`frontend/src/utils/icsParser.js:139-203`) and `line.substring(1)` in the unfolding, are counted in characters. The two counts differ only for a value holding a character outside the Basic Multilingual Plane.
- TaskList.MainScreen.ToggleCompleted and TaskList.MainScreen.StartEdit run in any mode. The checkbox and the edit button are `disabled={deleteMode}` (`frontend/src/App.js:225`, `frontend/src/App.js:263`), so in delete mode the user cannot reach them. The model lets them run, which only adds behaviour the interface does not offer.
- Locale formatting (`toLocaleDateString`, `toLocaleTimeString`) is not modelled. The weekly report's day keys are the local day numbers that `formatDateForReport` prints, not their text. In the analytics, the daily chart's label formatting and its sort by the parsed label (`frontend/src/WeeklyAnalytics.js:46-51`) are left out; the daily map itself is modelled.
- `Array.prototype.sort` works in place. The sorts are modelled as stable insertion sorts on values, so the model does not capture aliasing of the sorted array.
- JsText.ToLowerCase: models `toLowerCase` for `A` to `Z` and the KELVIN SIGN only. Other non-ASCII upper-case letters, the mapping of U+0130 to `i` followed by U+0307 (which lengthens the string), and the context-dependent final sigma are not modelled, so `Analytics.LowerConcat` and the length-keeping ensures hold for the modelled mapping only. The categories are not affected: apart from the KELVIN SIGN, the only lower-case form holding an ASCII letter is U+0130's `i`, which is always followed by U+0307, and no keyword of `extractCategory` ends in `i`.
- WeeklyReport.GenerateWeeklyReport: a task's four date and time strings are taken already read, as the day number written in `date` and the local minutes of start and end. Text that `new Date` cannot read (an empty or malformed date or time), which yields NaN durations that spread into `totalDuration` and the day totals, is not modelled.
- JsText.JsNumber: `Number` is modelled only on trimmed text, as a digit string or blank. Signs, decimals, exponents and hexadecimal literals, which date and time inputs never produce, are outside the model.
- `Date`'s normalisation of out-of-range fields (month 13, day 0) and its reading of years 0 to 99 are part of the model, in `Calendar.NewLocalDate`. The decoding lemmas of `IcsDates` state results only for in-range digit fields, so no lemma describes a normalised value.
- JavaIcs.ParseDate: only digit fields are read. `DateTimeFormatter` features the three patterns never meet, such as signed years and era handling, are not modelled.
- TaskList.ParseDateTimeString: only the strict `YYYY-MM-DDTHH:MM` form that the date and time inputs produce is read. Other text gives the invalid date, where ECMAScript's implementation-specific fallbacks might read more.
- TaskList.InputsReadBack: stated for years from 1000 to 9999, the years the input writes with four digits.
- Calendar.NewLocalDateOf: stated for years 100 and later. `Calendar.FullYear` models how `new Date(y, …)` maps years 0 to 99 to 1900 to 1999, but the lemma does not cover those years.
- Analytics.NaNForgotten: stated over one step of the aggregation (`Add`) rather than over a whole task list.
- Analytics.SpanOfReadings: stated over the instants the texts parse to. `Analytics.ParseReading` links the texts to those instants.
- IcsDates.UtcAtZeroOffset: the digits of a `Z` value are shown as written only in a zone at UTC. For other zones, `IcsDates.UtcInstant` pins the instant, but the shifted wall-clock digits are not stated as a lemma of their own.
- `frontend/src/WeekNavigator.js`, `frontend/src/PrintPage.js`, `frontend/src/CompletedTasks.js`, `Main.java`, `CalendarEvent.java`, `WeeklyReport.java` and `FreeTime.java` are not part of this model: they are navigation, presentation, console glue or plain data holders.

## Findings

| source | as written | input that shows it | evidently intended | confidence | as-written member | corrected member |
|---|---|---|---|---|---|---|
| frontend/src/WeeklyAnalytics.js:20-43 | the `useMemo` callback runs during the render and calls `extractCategory`, whose `const` is declared only at line 70, so the call throws a `ReferenceError` (temporal dead zone) | any non-empty task list | the daily, category and total aggregation of the tasks | not executed | `Analytics.AsWrittenThrows` | `Analytics.ReportTotals` |
| frontend/src/utils/weeklyReport.js:10-35 | `new Date(weekStartStr)` and `new Date(task.date)` read the date-only string as midnight UTC, then `getDate`, `getDay` and `formatDateForReport` read it in the local zone, so west of UTC every day is labelled one day early | `weekStartStr` `2024-01-14`, a Sunday, in a zone at UTC−05:00: the first day is named `Saturday` and `weekStart` is 01/13/2024 | each day labelled with the date written, the week starting on the Sunday `getWeekStart` returns | not executed | `WeeklyReport.AsWrittenWeekStartsSaturday` | `WeeklyReport.IntendedWeekStartsSunday` |
