/**
 * The VEVENT importer of the browser (`parseIcsFile`): a two-state machine
 * over the logical lines. `BEGIN:VEVENT` opens an event with an empty draft,
 * property lines inside an event fill the draft, and `END:VEVENT` inside an
 * event turns a complete draft into a task record for the form.
 *
 * The clock, the device zone and the id generator are the environment `env`;
 * the k-th record emitted takes the id `env.ids(k)`.
 */
module IcsImport {
  import opened Common
  import opened JsText
  import opened Calendar
  import opened IcsDates
  import opened IcsText
  import opened IcsLines

  datatype Env = Env(now: int, offset: int, ids: nat -> string)

  /** `currentEvent`: the properties read so far in the open event. */
  datatype Draft = Draft(title: Option<string>, description: Option<string>,
                         start: Option<JsDate>, end: Option<JsDate>)

  const EmptyDraft := Draft(None, None, None, None)

  /** A task record as the form stores it. */
  datatype ImportedTask = ImportedTask(id: string, event: string, description: string,
                                       date: string, startTime: string, endDate: string, endTime: string)

  /** `inEvent`, `currentEvent` and the records emitted so far. */
  datatype Machine = Machine(inEvent: bool, draft: Draft, events: seq<ImportedTask>)

  const Start := Machine(false, EmptyDraft, [])

  /** The property name of a line: the text before its first colon; a line without a colon has none. */
  function PropertyOf(line: string): (r: Option<string>)
    ensures r.Some? ==> StartsWith(line, r.value + ":")
  {
    match IndexOf(line, ':')
    case None => None
    case Some(c) => assert line[..c + 1] == line[..c] + ":"; Some(line[..c])
  }

  /**
   * The property dispatch inside an event. `SUMMARY` and `DESCRIPTION` match
   * exactly, `DTSTART` and `DTEND` by prefix; the two `VALUE=DATE` tests come
   * after the prefix tests, as they do in the importer.
   */
  function Apply(d: Draft, line: string, env: Env): Draft {
    match IndexOf(line, ':')
    case None => d
    case Some(c) => ApplyProperty(d, line[..c], line[c + 1..], env)
  }

  /** What one property line with the given name and value does to the draft. */
  function ApplyProperty(d: Draft, property: string, value: string, env: Env): Draft {
    if property == "SUMMARY" then d.(title := Some(CleanValue(value)))
    else if property == "DESCRIPTION" then d.(description := Some(CleanValue(value)))
    else if StartsWith(property, "DTSTART") then d.(start := Some(ParseIcsDate(value, false, env.now, env.offset)))
    else if StartsWith(property, "DTEND") then d.(end := Some(ParseIcsDate(value, false, env.now, env.offset)))
    else if property == "DTSTART;VALUE=DATE" then d.(start := Some(ParseIcsDate(value, true, env.now, env.offset)))
    else if property == "DTEND;VALUE=DATE" then d.(end := Some(ParseIcsDate(value, true, env.now, env.offset)))
    else d
  }

  /** `currentEvent.title && currentEvent.start && currentEvent.end`: a `Date` is always truthy. */
  predicate Complete(d: Draft) {
    d.title.Some? && d.title.value != [] && d.start.Some? && d.end.Some?
  }

  /** The record built for a complete draft; a missing description becomes `''`. */
  function Record(d: Draft, id: string, env: Env): (r: ImportedTask)
    requires Complete(d)
    ensures r.id == id && r.event == d.title.value && r.event != []
    ensures r.description == if d.description.Some? then d.description.value else ""
    ensures |r.startTime| == 5 && |r.endTime| == 5
  {
    ImportedTask(id, d.title.value, d.description.GetOr(""),
                 FormatDateForInput(d.start.value, env.now, env.offset), FormatTimeForInput(d.start.value, env.offset),
                 FormatDateForInput(d.end.value, env.now, env.offset), FormatTimeForInput(d.end.value, env.offset))
  }

  /** What `END:VEVENT` inside an event emits: the record of a complete draft, or nothing. */
  function Emitted(d: Draft, count: nat, env: Env): (r: seq<ImportedTask>)
    ensures |r| <= 1
    ensures r != [] <==> Complete(d)
  {
    if Complete(d) then [Record(d, env.ids(count), env)] else []
  }

  /** One line of the state machine. */
  function Step(m: Machine, line: string, env: Env): Machine {
    if line == "BEGIN:VEVENT" then Machine(true, EmptyDraft, m.events)
    else if line == "END:VEVENT" && m.inEvent then
      Machine(false, m.draft, m.events + Emitted(m.draft, |m.events|, env))
    else if m.inEvent then m.(draft := Apply(m.draft, line, env))
    else m
  }

  function Run(m: Machine, lines: seq<string>, env: Env): Machine
    decreases |lines|
  {
    if lines == [] then m else Run(Step(m, lines[0], env), lines[1..], env)
  }

  /** The records `parseIcsFile` returns for a file content. */
  function Import(content: string, env: Env): seq<ImportedTask> {
    Run(Start, LogicalLines(content), env).events
  }

  /** `parseIcsFile`: the unfolding pass, then the event loop over the logical lines. */
  method ParseIcsFile(content: string, env: Env) returns (events: seq<ImportedTask>)
    ensures events == Import(content, env)
  {
    var rawLines := PhysicalLines(content);
    var lines := UnfoldLines(rawLines);
    events := ReadEvents(lines, env);
  }

  /** The event loop of `parseIcsFile`. */
  method ReadEvents(lines: seq<string>, env: Env) returns (events: seq<ImportedTask>)
    ensures events == Run(Start, lines, env).events
  {
    var currentEvent := EmptyDraft;
    var inEvent := false;
    events := [];
    for i := 0 to |lines|
      invariant Run(Machine(inEvent, currentEvent, events), lines[i..], env) == Run(Start, lines, env)
    {
      var line := lines[i];
      RunFrom(Machine(inEvent, currentEvent, events), lines, i, env);
      if line == "BEGIN:VEVENT" {
        inEvent := true;
        currentEvent := EmptyDraft;
      } else if line == "END:VEVENT" && inEvent {
        if Complete(currentEvent) {
          events := events + [Record(currentEvent, env.ids(|events|), env)];
        } else {
          assert events + Emitted(currentEvent, |events|, env) == events;
        }
        inEvent := false;
      } else if inEvent {
        currentEvent := Apply(currentEvent, line, env);
      }
    }
  }

  lemma {:induction false} RunFrom(m: Machine, lines: seq<string>, i: nat, env: Env)
    requires i < |lines|
    ensures Run(m, lines[i..], env) == Run(Step(m, lines[i], env), lines[i + 1..], env)
  {
    DropOne(lines, i);
  }

  lemma {:induction false} RunConcat(m: Machine, a: seq<string>, b: seq<string>, env: Env)
    ensures Run(m, a + b, env) == Run(Run(m, a, env), b, env)
    decreases |a|
  {
    ConcatParts(a, b);
    if a != [] {
      RunConcat(Step(m, a[0], env), a[1..], b, env);
    }
  }

  /** Records are only ever appended: the ones emitted so far stay, in order, at the front. */
  lemma {:induction false} EventsGrow(m: Machine, lines: seq<string>, env: Env)
    ensures var r := Run(m, lines, env).events;
      |m.events| <= |r| && r[..|m.events|] == m.events
    decreases |lines|
  {
    if lines != [] {
      var m' := Step(m, lines[0], env);
      EventsGrow(m', lines[1..], env);
      var r := Run(m', lines[1..], env).events;
      assert r[..|m.events|] == r[..|m'.events|][..|m.events|];
    }
  }

  function Count(lines: seq<string>, l: string): nat {
    if lines == [] then 0 else (if lines[0] == l then 1 else 0) + Count(lines[1..], l)
  }

  /** At most one record per `END:VEVENT` line. */
  lemma {:induction false} AtMostOnePerEnd(m: Machine, lines: seq<string>, env: Env)
    ensures |Run(m, lines, env).events| <= |m.events| + Count(lines, "END:VEVENT")
    decreases |lines|
  {
    if lines != [] {
      AtMostOnePerEnd(Step(m, lines[0], env), lines[1..], env);
    }
  }

  /** Outside an event everything but `BEGIN:VEVENT` is ignored, a stray `END:VEVENT` included. */
  lemma {:induction false} OutsideIgnored(m: Machine, lines: seq<string>, env: Env)
    requires !m.inEvent
    requires forall k :: 0 <= k < |lines| ==> lines[k] != "BEGIN:VEVENT"
    ensures Run(m, lines, env) == m
    decreases |lines|
  {
    if lines != [] {
      assert Step(m, lines[0], env) == m;
      OutsideIgnored(m, lines[1..], env);
    }
  }

  /** Without an `END:VEVENT` line, nothing is emitted: an unterminated final block yields no record. */
  lemma {:induction false} UnterminatedEmitsNothing(m: Machine, lines: seq<string>, env: Env)
    requires forall k :: 0 <= k < |lines| ==> lines[k] != "END:VEVENT"
    ensures Run(m, lines, env).events == m.events
    decreases |lines|
  {
    if lines != [] {
      UnterminatedEmitsNothing(Step(m, lines[0], env), lines[1..], env);
    }
  }

  /** `BEGIN:VEVENT` discards whatever was read before it: only the records emitted so far survive. */
  lemma {:induction false} BeginDiscards(m: Machine, before: seq<string>, after: seq<string>, env: Env)
    ensures Run(m, before + ["BEGIN:VEVENT"] + after, env)
         == Run(Machine(true, EmptyDraft, Run(m, before, env).events), after, env)
  {
    RunConcat(m, before + ["BEGIN:VEVENT"], after, env);
    RunConcat(m, before, ["BEGIN:VEVENT"], env);
  }

  /** The draft read from the property lines of an event, in order: a later line overwrites an earlier one. */
  function Gather(d: Draft, props: seq<string>, env: Env): Draft
    decreases |props|
  {
    if props == [] then d else Gather(Apply(d, props[0], env), props[1..], env)
  }

  /** A line that is neither of the two block delimiters. */
  predicate PropertyLine(l: string) {
    l != "BEGIN:VEVENT" && l != "END:VEVENT"
  }

  lemma {:induction false} RunInside(d: Draft, evs: seq<ImportedTask>, props: seq<string>, env: Env)
    requires forall k :: 0 <= k < |props| ==> PropertyLine(props[k])
    ensures Run(Machine(true, d, evs), props, env) == Machine(true, Gather(d, props, env), evs)
    decreases |props|
  {
    if props != [] {
      RunInside(Apply(d, props[0], env), evs, props[1..], env);
    }
  }

  /**
   * A block `BEGIN:VEVENT`, property lines, `END:VEVENT` emits exactly one
   * record if the draft it gathers is complete, and none otherwise.
   */
  lemma {:induction false} Block(m: Machine, props: seq<string>, env: Env)
    requires forall k :: 0 <= k < |props| ==> PropertyLine(props[k])
    ensures var g := Gather(EmptyDraft, props, env);
      Run(m, ["BEGIN:VEVENT"] + props + ["END:VEVENT"], env)
      == Machine(false, g, m.events + Emitted(g, |m.events|, env))
  {
    RunConcat(m, ["BEGIN:VEVENT"] + props, ["END:VEVENT"], env);
    RunConcat(m, ["BEGIN:VEVENT"], props, env);
    RunInside(EmptyDraft, m.events, props, env);
  }

  /** A line whose property is not `p` leaves the draft's `p` field as it was. */
  lemma {:induction false} GatherKeepsTitle(d: Draft, props: seq<string>, env: Env)
    requires forall k :: 0 <= k < |props| ==> PropertyOf(props[k]) != Some("SUMMARY")
    ensures Gather(d, props, env).title == d.title
    decreases |props|
  {
    if props != [] {
      GatherKeepsTitle(Apply(d, props[0], env), props[1..], env);
    }
  }

  lemma {:induction false} GatherConcat(d: Draft, a: seq<string>, b: seq<string>, env: Env)
    ensures Gather(d, a + b, env) == Gather(Gather(d, a, env), b, env)
    decreases |a|
  {
    ConcatParts(a, b);
    if a != [] {
      GatherConcat(Apply(d, a[0], env), a[1..], b, env);
    }
  }

  lemma {:induction false} GatherOne(d: Draft, line: string, env: Env)
    ensures Gather(d, [line], env) == Apply(d, line, env)
  {
    assert [line][1..] == [];
  }

  /** `SUMMARY:text` sets the title to the unescaped text. */
  lemma {:induction false} ApplySummary(d: Draft, text: string, env: Env)
    ensures Apply(d, "SUMMARY:" + text, env) == d.(title := Some(CleanValue(text)))
  {
    assert "SUMMARY:" == "SUMMARY" + ":";
    SplitAtColon("SUMMARY", text);
  }

  /** `DTSTART:value` and `DTEND:value` set the start and the end to the decoded value. */
  lemma {:induction false} ApplyStart(d: Draft, value: string, env: Env)
    ensures Apply(d, "DTSTART:" + value, env) == d.(start := Some(ParseIcsDate(value, false, env.now, env.offset)))
  {
    assert "DTSTART:" == "DTSTART" + ":";
    SplitAtColon("DTSTART", value);
    assert "DTSTART"[..7] == "DTSTART";
    assert "DTSTART"[0] != "SUMMARY"[0];
  }

  lemma {:induction false} ApplyEnd(d: Draft, value: string, env: Env)
    ensures Apply(d, "DTEND:" + value, env) == d.(end := Some(ParseIcsDate(value, false, env.now, env.offset)))
  {
    assert "DTEND:" == "DTEND" + ":";
    SplitAtColon("DTEND", value);
    assert "DTEND"[..5] == "DTEND";
    assert "DTEND"[0] != "SUMMARY"[0] && "DTEND"[1] != "DESCRIPTION"[1];
  }

  /** The last `SUMMARY` line of an event gives its title. */
  lemma {:induction false} LastSummaryWins(d: Draft, before: seq<string>, text: string, after: seq<string>, env: Env)
    requires forall k :: 0 <= k < |after| ==> PropertyOf(after[k]) != Some("SUMMARY")
    ensures Gather(d, before + ["SUMMARY:" + text] + after, env).title == Some(CleanValue(text))
  {
    var line := "SUMMARY:" + text;
    GatherConcat(d, before + [line], after, env);
    GatherConcat(d, before, [line], env);
    GatherOne(Gather(d, before, env), line, env);
    ApplySummary(Gather(d, before, env), text, env);
    GatherKeepsTitle(Gather(d, before + [line], env), after, env);
  }

  lemma {:induction false} GatherThree(d: Draft, props: seq<string>, env: Env)
    requires |props| == 3
    ensures Gather(d, props, env) == Apply(Apply(Apply(d, props[0], env), props[1], env), props[2], env)
  {
    var d1 := Apply(d, props[0], env);
    var d2 := Apply(d1, props[1], env);
    var r1 := props[1..];
    var r2 := r1[1..];
    assert r1[0] == props[1] && r2[0] == props[2] && r2[1..] == [];
    assert Gather(d, props, env) == Gather(d1, r1, env);
    assert Gather(d1, r1, env) == Gather(d2, r2, env);
    GatherOne(d2, r2[0], env);
    assert r2 == [r2[0]];
  }

  /**
   * The record expected from a summary and two floating values
   * `YYYYMMDDTHHMMSS`: the unescaped summary, no description, and the date
   * `YYYY-MM-DD` and the time `HH:MM` written in each value.
   */
  function FloatingTask(id: string, text: string, v1: string, v2: string): ImportedTask
    requires |v1| == 15 && |v2| == 15
  {
    ImportedTask(id, CleanValue(text), "",
                 v1[0..4] + "-" + v1[4..6] + "-" + v1[6..8], v1[9..11] + ":" + v1[11..13],
                 v2[0..4] + "-" + v2[4..6] + "-" + v2[6..8], v2[9..11] + ":" + v2[11..13])
  }

  /** The record of a draft with a summary and two floating values shows the digits of the values. */
  lemma {:induction false} FloatingRecord(text: string, v1: string, v2: string, id: string, env: Env)
    requires CleanValue(text) != [] && SaneOffset(env.offset)
    requires |v1| == 15 && WellFormedDateTime(v1) && ';' !in v1
    requires |v2| == 15 && WellFormedDateTime(v2) && ';' !in v2
    ensures var g := Draft(Some(CleanValue(text)), None, Some(ParseIcsDate(v1, false, env.now, env.offset)),
                           Some(ParseIcsDate(v2, false, env.now, env.offset)));
      Complete(g) && Record(g, id, env) == FloatingTask(id, text, v1, v2)
  {
    FloatingRoundTrip(v1, env.now, env.offset);
    FloatingRoundTrip(v2, env.now, env.offset);
  }

  /** A line that starts with neither `B` nor `E` is no block delimiter. */
  lemma {:induction false} PrefixedLine(p: string, v: string)
    requires p != [] && p[0] != 'B' && p[0] != 'E'
    ensures PropertyLine(p + v)
  {
    assert (p + v)[0] == p[0];
  }

  lemma {:induction false} FiveLines<T>(a: T, b: T, c: T, d: T, e: T)
    ensures [a] + [b, c, d] + [e] == [a, b, c, d, e]
  {
  }

  /**
   * A block with a summary and floating start and end values emits one record
   * holding the unescaped summary, an empty description, and the dates and
   * times written in the two values: `DTSTART:20240115T153000` gives the
   * date `2024-01-15` and the start time `15:30`.
   */
  lemma {:induction false} FloatingEvent(m: Machine, text: string, v1: string, v2: string, env: Env)
    requires CleanValue(text) != [] && SaneOffset(env.offset)
    requires |v1| == 15 && WellFormedDateTime(v1) && ';' !in v1
    requires |v2| == 15 && WellFormedDateTime(v2) && ';' !in v2
    ensures Run(m, ["BEGIN:VEVENT", "SUMMARY:" + text, "DTSTART:" + v1, "DTEND:" + v2, "END:VEVENT"], env).events
         == m.events + [FloatingTask(env.ids(|m.events|), text, v1, v2)]
  {
    PrefixedLine("SUMMARY:", text);
    PrefixedLine("DTSTART:", v1);
    PrefixedLine("DTEND:", v2);
    FloatingDraft(text, v1, v2, env);
    FloatingRecord(text, v1, v2, env.ids(|m.events|), env);
    BlockOfThree(m, "SUMMARY:" + text, "DTSTART:" + v1, "DTEND:" + v2, FloatingTask(env.ids(|m.events|), text, v1, v2), env);
  }

  /** A block of three property lines whose draft comes out complete appends that draft's record. */
  lemma {:induction false} BlockOfThree(m: Machine, a: string, b: string, c: string, t: ImportedTask, env: Env)
    requires PropertyLine(a) && PropertyLine(b) && PropertyLine(c)
    requires Complete(Gather(EmptyDraft, [a, b, c], env))
    requires Record(Gather(EmptyDraft, [a, b, c], env), env.ids(|m.events|), env) == t
    ensures Run(m, ["BEGIN:VEVENT", a, b, c, "END:VEVENT"], env).events == m.events + [t]
  {
    var props := [a, b, c];
    FiveLines("BEGIN:VEVENT", a, b, c, "END:VEVENT");
    assert forall k :: 0 <= k < |props| ==> PropertyLine(props[k]);
    Block(m, props, env);
    assert Emitted(Gather(EmptyDraft, props, env), |m.events|, env) == [t];
  }

  lemma {:induction false} FloatingDraft(text: string, v1: string, v2: string, env: Env)
    ensures Gather(EmptyDraft, ["SUMMARY:" + text, "DTSTART:" + v1, "DTEND:" + v2], env)
         == Draft(Some(CleanValue(text)), None, Some(ParseIcsDate(v1, false, env.now, env.offset)),
                  Some(ParseIcsDate(v2, false, env.now, env.offset)))
  {
    var props := ["SUMMARY:" + text, "DTSTART:" + v1, "DTEND:" + v2];
    ApplySummary(EmptyDraft, text, env);
    var d1 := EmptyDraft.(title := Some(CleanValue(text)));
    ApplyStart(d1, v1, env);
    var d2 := d1.(start := Some(ParseIcsDate(v1, false, env.now, env.offset)));
    ApplyEnd(d2, v2, env);
    GatherThree(EmptyDraft, props, env);
  }

  /**
   * The dispatch as it behaves: the `VALUE=DATE` tests can never be reached,
   * since a property equal to `DTSTART;VALUE=DATE` already starts with
   * `DTSTART` (and likewise for `DTEND`). All-day values are therefore never
   * decoded with the all-day flag set.
   */
  function LiveDispatch(d: Draft, line: string, env: Env): Draft {
    match IndexOf(line, ':')
    case None => d
    case Some(c) => Dispatch(d, line[..c], line[c + 1..], env)
  }

  /** What one property line with the given name and value does to the draft. */
  function Dispatch(d: Draft, property: string, value: string, env: Env): Draft {
    if property == "SUMMARY" then d.(title := Some(CleanValue(value)))
    else if property == "DESCRIPTION" then d.(description := Some(CleanValue(value)))
    else if StartsWith(property, "DTSTART") then d.(start := Some(ParseIcsDate(value, false, env.now, env.offset)))
    else if StartsWith(property, "DTEND") then d.(end := Some(ParseIcsDate(value, false, env.now, env.offset)))
    else d
  }

  lemma {:induction false} ValueDateUnreachable(d: Draft, line: string, env: Env)
    ensures Apply(d, line, env) == LiveDispatch(d, line, env)
  {
    match IndexOf(line, ':')
    case None =>
    case Some(c) =>
      var p := line[..c];
      if p == "DTSTART;VALUE=DATE" {
        assert p[..7] == "DTSTART";
      } else if p == "DTEND;VALUE=DATE" {
        assert p[..5] == "DTEND";
      }
  }
}
