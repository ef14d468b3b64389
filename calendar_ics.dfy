/**
 * Reading iCalendar files (pkg/calendar/analyzer.go, and the identical
 * copy in cmd/calendar/main.go): the line-oriented VEVENT parser with its
 * `inEvent` flag and partial event, the DTSTART/DTEND/CREATED value
 * decoder, and the walk over a directory that skips files it cannot parse.
 *
 * Only the VEVENT component of RFC 5545 is read, and of it only UID,
 * SUMMARY, DTSTART, DTEND and CREATED; the VALUE=DATE parameter is
 * recognised by substring, folded lines are not unfolded and TZID is
 * ignored (a local time is taken as UTC).
 */
module CalendarIcs {
  import opened Wrappers
  import opened Text
  import opened Collections
  import opened Timestamps

  /** A calendar event; unset times hold Go's zero time. */
  datatype Event = Event(
    uid: string,
    summary: string,
    start: Timestamp,
    end: Timestamp,
    created: Timestamp,
    isAllDay: bool)

  /** Go's `Event{}`. */
  const NoEvent := Event("", "", Zero, Zero, Zero, false)

  /** Every time in the event is one `time.Time` can hold. */
  predicate WellFormed(e: Event)
  {
    Valid(e.start) && Valid(e.end) && Valid(e.created)
  }

  // ---------------------------------------------------------------------
  // Property values
  // ---------------------------------------------------------------------

  /** `extractDateTime`: the text after the last ':' of the line, or "" when there is none. */
  function ExtractDateTime(line: string): (r: string)
    ensures ':' !in r
    ensures ':' in line ==> HasSuffix(line, ":" + r)
    ensures ':' !in line ==> r == ""
  {
    match LastIndexOf(line, ':')
    case None => ""
    case Some(k) =>
      assert line[|line| - |line[k + 1..]| - 1..] == ":" + line[k + 1..];
      line[k + 1..]
  }

  datatype DateTimeError =
    | EmptyValue
    | LayoutMismatch(layout: string, value: string)
    | UnsupportedFormat(value: string)

  /** `parseDateTime`: picks a layout by the shape of the value, then parses with it. */
  function DecodeDateTime(s: string): (r: Result<Timestamp, DateTimeError>)
    ensures r == Err(EmptyValue) <==> s == ""
    ensures r.Ok? ==> Valid(r.value)
  {
    if s == "" then Err(EmptyValue)
    else if |s| >= 15 && HasSuffix(s, "Z") then
      if ParseDateTimeUtc(s).Some? then ParseDateTimeUtcExact(s); Ok(ParseDateTimeUtc(s).value)
      else Err(LayoutMismatch("20060102T150405Z", s))
    else if |s| >= 15 && 'T' in s then
      if ParseDateTime(s).Some? then ParseDateTimeExact(s); Ok(ParseDateTime(s).value)
      else Err(LayoutMismatch("20060102T150405", s))
    else if |s| == 8 then
      if ParseDate(s).Some? then ParseDateExact(s); Ok(ParseDate(s).value)
      else Err(LayoutMismatch("20060102", s))
    else Err(UnsupportedFormat(s))
  }

  /**
   * The three forms the decoder accepts each carry every valid time of years
   * 0..9999; the two with a time of day may add a fractional second.
   */
  lemma DecodeDateTimeAccepts(t: Timestamp, f: string)
    requires Valid(t) && 0 <= t.year < 10000 && OptionalFraction(f)
    ensures DecodeDateTime(FormatDateTime(t) + f + "Z") == Ok(t)
    ensures DecodeDateTime(FormatDateTime(t) + f) == Ok(t)
    ensures DecodeDateTime(FormatDate(t)) == Ok(t.(hour := 0, minute := 0, second := 0))
  {
    ParseDateTimeUtcRoundTrip(t, f);
    ParseDateTimeRoundTrip(t, f);
    ParseDateRoundTrip(t.(hour := 0, minute := 0, second := 0));
    var u, l := FormatDateTime(t) + f + "Z", FormatDateTime(t) + f;
    assert u[|u| - 1] == 'Z' && HasSuffix(u, "Z");
    assert l[8] == 'T' && l[|l| - 1] != 'Z' && !HasSuffix(l, "Z");
  }

  /**
   * Nothing else decodes: a decoded value is one of the three forms of the
   * decoded time, the two with a time of day perhaps with a fractional second.
   */
  lemma DecodeDateTimeExact(s: string)
    requires DecodeDateTime(s).Ok?
    ensures var t := DecodeDateTime(s).value;
      0 <= t.year < 10000 &&
      ((exists f :: OptionalFraction(f) && s == FormatDateTime(t) + f + "Z") ||
       (exists f :: OptionalFraction(f) && s == FormatDateTime(t) + f) ||
       (s == FormatDate(t) && t.hour == 0 && t.minute == 0 && t.second == 0))
  {
    if |s| >= 15 && HasSuffix(s, "Z") {
      ParseDateTimeUtcExact(s);
      assert s == s[..15] + s[15..|s| - 1] + "Z";
    } else if |s| >= 15 && 'T' in s {
      ParseDateTimeExact(s);
      assert s == s[..15] + s[15..];
    } else {
      ParseDateExact(s);
    }
  }

  // ---------------------------------------------------------------------
  // The VEVENT state machine
  // ---------------------------------------------------------------------

  const BeginLine := "BEGIN:VEVENT"
  const EndLine := "END:VEVENT"

  /** No content line starts with two of the property names the parser looks for. */
  lemma PropertyPrefixesExclusive(line: string)
    ensures HasPrefix(line, "UID:") ==>
      !HasPrefix(line, "SUMMARY:") && !HasPrefix(line, "DTSTART") && !HasPrefix(line, "DTEND") && !HasPrefix(line, "CREATED:")
    ensures HasPrefix(line, "SUMMARY:") ==>
      !HasPrefix(line, "DTSTART") && !HasPrefix(line, "DTEND") && !HasPrefix(line, "CREATED:")
    ensures HasPrefix(line, "DTSTART") ==> !HasPrefix(line, "DTEND") && !HasPrefix(line, "CREATED:")
    ensures HasPrefix(line, "DTEND") ==> !HasPrefix(line, "CREATED:")
  {
    if HasPrefix(line, "UID:") { assert line[0] == 'U'; }
    if HasPrefix(line, "SUMMARY:") { assert line[0] == 'S'; }
    if HasPrefix(line, "DTSTART") { assert line[0] == 'D' && line[2] == 'S'; }
    if HasPrefix(line, "DTEND") { assert line[0] == 'D' && line[2] == 'E'; }
  }

  /** The effect of one trimmed content line inside a VEVENT block. */
  function ApplyProperty(e: Event, line: string): (r: Event)
    ensures r.uid != e.uid ==> HasPrefix(line, "UID:") && r.uid == line[4..]
    ensures r.summary != e.summary ==> HasPrefix(line, "SUMMARY:") && r.summary == line[8..]
    ensures r.start != e.start ==> HasPrefix(line, "DTSTART") && Ok(r.start) == DecodeDateTime(ExtractDateTime(line))
    ensures r.end != e.end ==> HasPrefix(line, "DTEND") && Ok(r.end) == DecodeDateTime(ExtractDateTime(line))
    ensures r.created != e.created ==> HasPrefix(line, "CREATED:") && Ok(r.created) == DecodeDateTime(line[8..])
    ensures HasPrefix(line, "UID:") ==> r.uid == line[4..]
    ensures HasPrefix(line, "SUMMARY:") ==> r.summary == line[8..]
    ensures HasPrefix(line, "DTSTART") && DecodeDateTime(ExtractDateTime(line)).Ok? ==>
      r.start == DecodeDateTime(ExtractDateTime(line)).value
    ensures HasPrefix(line, "DTEND") && DecodeDateTime(ExtractDateTime(line)).Ok? ==>
      r.end == DecodeDateTime(ExtractDateTime(line)).value
    ensures HasPrefix(line, "CREATED:") && DecodeDateTime(line[8..]).Ok? ==> r.created == DecodeDateTime(line[8..]).value
    ensures r.isAllDay <==> e.isAllDay || (HasPrefix(line, "DTSTART") && Contains(line, "VALUE=DATE"))
    ensures WellFormed(e) ==> WellFormed(r)
  {
    PropertyPrefixesExclusive(line);
    if HasPrefix(line, "UID:") then e.(uid := TrimPrefix(line, "UID:"))
    else if HasPrefix(line, "SUMMARY:") then e.(summary := TrimPrefix(line, "SUMMARY:"))
    else if HasPrefix(line, "DTSTART") then
      var e' := if Contains(line, "VALUE=DATE") then e.(isAllDay := true) else e;
      match DecodeDateTime(ExtractDateTime(line))
      case Ok(t) => e'.(start := t)
      case Err(_) => e'
    else if HasPrefix(line, "DTEND") then
      match DecodeDateTime(ExtractDateTime(line))
      case Ok(t) => e.(end := t)
      case Err(_) => e
    else if HasPrefix(line, "CREATED:") then
      match DecodeDateTime(TrimPrefix(line, "CREATED:"))
      case Ok(t) => e.(created := t)
      case Err(_) => e
    else e
  }

  /** A DTSTART line carrying VALUE=DATE marks the event all-day even when its value does not decode. */
  lemma ValueDateMarksAllDay(e: Event, line: string)
    requires HasPrefix(line, "DTSTART") && Contains(line, "VALUE=DATE")
    requires DecodeDateTime(ExtractDateTime(line)).Err?
    ensures ApplyProperty(e, line) == e.(isAllDay := true)
  {
    PropertyPrefixesExclusive(line);
  }

  /** The parser's variables between two lines: `inEvent`, `currentEvent` and `events`. */
  datatype ScanState = ScanState(inEvent: bool, current: Event, events: seq<Event>)

  const Initial := ScanState(false, NoEvent, [])

  /** One iteration of the scanning loop. */
  function Step(st: ScanState, raw: string): ScanState
  {
    var line := TrimSpace(raw);
    if line == BeginLine then ScanState(true, NoEvent, st.events)
    else if line == EndLine then
      ScanState(false, st.current, if st.inEvent then st.events + [st.current] else st.events)
    else if st.inEvent then st.(current := ApplyProperty(st.current, line))
    else st
  }

  /** The loop run over `lines` from state `st`. */
  function Run(st: ScanState, lines: seq<string>): ScanState
    decreases |lines|
  {
    if lines == [] then st else Run(Step(st, lines[0]), lines[1..])
  }

  lemma {:induction false} RunConcat(st: ScanState, a: seq<string>, b: seq<string>)
    ensures Run(st, a + b) == Run(Run(st, a), b)
    decreases |a|
  {
    if a != [] {
      assert (a + b)[0] == a[0];
      assert (a + b)[1..] == a[1..] + b;
      RunConcat(Step(st, a[0]), a[1..], b);
    } else {
      assert a + b == b;
    }
  }

  /** Running one more line of the input is one more loop iteration. */
  lemma RunPrefixStep(lines: seq<string>, i: nat)
    requires i < |lines|
    ensures Run(Initial, lines[..i + 1]) == Step(Run(Initial, lines[..i]), lines[i])
  {
    assert lines[..i + 1] == lines[..i] + [lines[i]];
    RunConcat(Initial, lines[..i], [lines[i]]);
    RunOne(Run(Initial, lines[..i]), lines[i]);
  }

  lemma RunOne(st: ScanState, line: string)
    ensures Run(st, [line]) == Step(st, line)
  {
    assert [line][1..] == [];
  }

  /** What `bufio.Scanner` delivered from one file: its lines, and the error it stopped with, if any. */
  datatype FileContent =
    | OpenFailed(message: string)
    | Scanned(lines: seq<string>, readError: Option<string>)

  /**
   * `parseICSFile`: the events of every closed VEVENT block, in file order,
   * together with the open or read error; after a read error the events of
   * the lines read so far are still returned.
   */
  method ParseIcsFile(content: FileContent) returns (events: seq<Event>, err: Option<string>)
    ensures content.OpenFailed? ==> events == [] && err == Some(content.message)
    ensures content.Scanned? ==> events == Run(Initial, content.lines).events && err == content.readError
  {
    if content.OpenFailed? {
      return [], Some(content.message);
    }
    var lines := content.lines;
    var inEvent := false;
    var current := NoEvent;
    events := [];
    for i := 0 to |lines|
      invariant Run(Initial, lines[..i]) == ScanState(inEvent, current, events)
    {
      var line := TrimSpace(lines[i]);
      if line == BeginLine {
        inEvent := true;
        current := NoEvent;
      } else if line == EndLine {
        if inEvent {
          events := events + [current];
        }
        inEvent := false;
      } else if inEvent {
        current := ApplyProperty(current, line);
      }
      RunPrefixStep(lines, i);
    }
    assert lines[..|lines|] == lines;
    err := content.readError;
  }

  // ---------------------------------------------------------------------
  // What the state machine does with blocks
  // ---------------------------------------------------------------------

  predicate IsBegin(raw: string) { TrimSpace(raw) == BeginLine }
  predicate IsEnd(raw: string) { TrimSpace(raw) == EndLine }

  /** Lines that neither open nor close a block. */
  predicate PlainLines(lines: seq<string>)
  {
    forall i :: 0 <= i < |lines| ==> !IsBegin(lines[i]) && !IsEnd(lines[i])
  }

  /** The event a block's property lines build from `Event{}`, applied in order. */
  function Build(e: Event, props: seq<string>): Event
    decreases |props|
  {
    if props == [] then e else Build(ApplyProperty(e, TrimSpace(props[0])), props[1..])
  }

  /** Property lines inside an open block only build up the current event. */
  lemma {:induction false} RunProperties(st: ScanState, props: seq<string>)
    requires st.inEvent && PlainLines(props)
    ensures Run(st, props) == st.(current := Build(st.current, props))
    decreases |props|
  {
    if props != [] {
      RunProperties(Step(st, props[0]), props[1..]);
    }
  }

  /**
   * A BEGIN line discards any partial event, whatever came before, so a
   * repeated BEGIN restarts the block; the lines after it build the new event.
   */
  lemma BeginResets(st: ScanState, props: seq<string>)
    requires PlainLines(props)
    ensures Run(st, [BeginLine] + props) == ScanState(true, Build(NoEvent, props), st.events)
  {
    TrimSpaceOfTrimmed(BeginLine);
    RunConcat(st, [BeginLine], props);
    RunProperties(ScanState(true, NoEvent, st.events), props);
  }

  /** A block closed by END emits exactly the event its lines built. */
  lemma BlockEmitsOneEvent(st: ScanState, props: seq<string>)
    requires PlainLines(props)
    ensures Run(st, [BeginLine] + props + [EndLine]) ==
      ScanState(false, Build(NoEvent, props), st.events + [Build(NoEvent, props)])
  {
    BeginResets(st, props);
    RunConcat(st, [BeginLine] + props, [EndLine]);
    TrimSpaceOfTrimmed(EndLine);
  }

  /** Outside a block, lines other than BEGIN change nothing; in particular a stray END emits nothing. */
  lemma {:induction false} OutsideIgnored(st: ScanState, lines: seq<string>)
    requires !st.inEvent
    requires forall i :: 0 <= i < |lines| ==> !IsBegin(lines[i])
    ensures Run(st, lines).events == st.events && !Run(st, lines).inEvent
    decreases |lines|
  {
    if lines != [] {
      OutsideIgnored(Step(st, lines[0]), lines[1..]);
    }
  }

  /** A block still open when the input ends is dropped. */
  lemma TrailingBlockDropped(st: ScanState, props: seq<string>)
    requires PlainLines(props)
    ensures Run(st, [BeginLine] + props).events == st.events
  {
    BeginResets(st, props);
  }

  /** The blocks of a file, one after the other, with plain lines between and around them. */
  function Blocks(gaps: seq<seq<string>>, bodies: seq<seq<string>>): seq<string>
    requires |gaps| == |bodies| + 1
    decreases |bodies|
  {
    if bodies == [] then gaps[0]
    else gaps[0] + [BeginLine] + bodies[0] + [EndLine] + Blocks(gaps[1..], bodies[1..])
  }

  function BuildAll(bodies: seq<seq<string>>): (r: seq<Event>)
    ensures |r| == |bodies|
    ensures forall i :: 0 <= i < |bodies| ==> r[i] == Build(NoEvent, bodies[i])
  {
    if bodies == [] then [] else [Build(NoEvent, bodies[0])] + BuildAll(bodies[1..])
  }

  /** A file made of blocks yields exactly one event per block, in order. */
  lemma {:induction false} BlocksYieldEvents(st: ScanState, gaps: seq<seq<string>>, bodies: seq<seq<string>>)
    requires !st.inEvent && |gaps| == |bodies| + 1
    requires forall i :: 0 <= i < |gaps| ==> PlainLines(gaps[i])
    requires forall i :: 0 <= i < |bodies| ==> PlainLines(bodies[i])
    ensures Run(st, Blocks(gaps, bodies)).events == st.events + BuildAll(bodies)
    decreases |bodies|
  {
    assert PlainLines(gaps[0]);
    if bodies == [] {
      GapIgnored(st, gaps[0]);
      assert Blocks(gaps, bodies) == gaps[0];
      assert st.events + BuildAll(bodies) == st.events;
    } else {
      assert PlainLines(bodies[0]);
      var s2 := GapThenBlock(st, gaps, bodies);
      PlainTails(gaps, bodies);
      BlocksYieldEvents(s2, gaps[1..], bodies[1..]);
      var first, later := Build(NoEvent, bodies[0]), BuildAll(bodies[1..]);
      BuildAllCons(bodies);
      AppendOneThen(st.events, first, later);
    }
  }

  /** The first gap and block of a file, then the rest of it. */
  lemma GapThenBlock(st: ScanState, gaps: seq<seq<string>>, bodies: seq<seq<string>>) returns (s2: ScanState)
    requires !st.inEvent && |gaps| == |bodies| + 1 && bodies != []
    requires PlainLines(gaps[0]) && PlainLines(bodies[0])
    ensures !s2.inEvent && s2.events == st.events + [Build(NoEvent, bodies[0])]
    ensures Run(st, Blocks(gaps, bodies)) == Run(s2, Blocks(gaps[1..], bodies[1..]))
  {
    var rest := Blocks(gaps[1..], bodies[1..]);
    var block := [BeginLine] + bodies[0] + [EndLine];
    BlocksCons(gaps, bodies);
    RunConcat(st, gaps[0] + block, rest);
    RunConcat(st, gaps[0], block);
    GapIgnored(st, gaps[0]);
    var s1 := Run(st, gaps[0]);
    BlockEmitsOneEvent(s1, bodies[0]);
    s2 := Run(s1, block);
  }

  lemma BlocksCons(gaps: seq<seq<string>>, bodies: seq<seq<string>>)
    requires |gaps| == |bodies| + 1 && bodies != []
    ensures Blocks(gaps, bodies) == (gaps[0] + ([BeginLine] + bodies[0] + [EndLine])) + Blocks(gaps[1..], bodies[1..])
  {
    var block := [BeginLine] + bodies[0] + [EndLine];
    assert gaps[0] + [BeginLine] + bodies[0] + [EndLine] == gaps[0] + block;
  }

  lemma PlainTails(gaps: seq<seq<string>>, bodies: seq<seq<string>>)
    requires |gaps| == |bodies| + 1 && bodies != []
    requires forall i :: 0 <= i < |gaps| ==> PlainLines(gaps[i])
    requires forall i :: 0 <= i < |bodies| ==> PlainLines(bodies[i])
    ensures forall i :: 0 <= i < |gaps[1..]| ==> PlainLines(gaps[1..][i])
    ensures forall i :: 0 <= i < |bodies[1..]| ==> PlainLines(bodies[1..][i])
  {
    forall i | 0 <= i < |gaps[1..]| ensures PlainLines(gaps[1..][i]) {
      assert gaps[1..][i] == gaps[i + 1];
    }
    forall i | 0 <= i < |bodies[1..]| ensures PlainLines(bodies[1..][i]) {
      assert bodies[1..][i] == bodies[i + 1];
    }
  }

  lemma AppendOneThen(events: seq<Event>, e: Event, later: seq<Event>)
    ensures (events + [e]) + later == events + ([e] + later)
  {
  }

  lemma BuildAllCons(bodies: seq<seq<string>>)
    requires bodies != []
    ensures BuildAll(bodies) == [Build(NoEvent, bodies[0])] + BuildAll(bodies[1..])
  {
  }

  lemma GapIgnored(st: ScanState, gap: seq<string>)
    requires !st.inEvent && PlainLines(gap)
    ensures Run(st, gap).events == st.events && !Run(st, gap).inEvent
  {
    OutsideIgnored(st, gap);
  }

  /** The scan only appends: earlier events are never changed or removed. */
  lemma {:induction false} EventsOnlyGrow(st: ScanState, lines: seq<string>)
    ensures |st.events| <= |Run(st, lines).events|
    ensures Run(st, lines).events[..|st.events|] == st.events
    decreases |lines|
  {
    if lines != [] {
      EventsOnlyGrow(Step(st, lines[0]), lines[1..]);
    }
  }

  /** There are never more events than END lines. */
  lemma {:induction false} AtMostOneEventPerEnd(st: ScanState, lines: seq<string>)
    ensures |Run(st, lines).events| <= |st.events| + |Filter(lines, IsEnd)|
    decreases |lines|
  {
    if lines != [] {
      AtMostOneEventPerEnd(Step(st, lines[0]), lines[1..]);
      assert lines == [lines[0]] + lines[1..];
      FilterConcat([lines[0]], lines[1..], IsEnd);
    }
  }

  /** Events parsed from a file have valid times: each is unset or decoded. */
  lemma {:induction false} ScannedEventsWellFormed(st: ScanState, lines: seq<string>)
    requires WellFormed(st.current) && forall i :: 0 <= i < |st.events| ==> WellFormed(st.events[i])
    ensures forall i :: 0 <= i < |Run(st, lines).events| ==> WellFormed(Run(st, lines).events[i])
    decreases |lines|
  {
    if lines != [] {
      var st' := Step(st, lines[0]);
      assert WellFormed(NoEvent);
      assert forall i :: 0 <= i < |st'.events| ==> WellFormed(st'.events[i]);
      ScannedEventsWellFormed(st', lines[1..]);
    }
  }

  // ---------------------------------------------------------------------
  // Walking the calendar directory
  // ---------------------------------------------------------------------

  /** One callback of `filepath.Walk`: a visited entry, or the error Walk reports for it. */
  datatype WalkEntry =
    | Visit(name: string, content: FileContent)
    | WalkFailure(message: string)

  predicate IsIcsName(name: string)
  {
    HasSuffix(Lower(name), ".ics")
  }

  /** A visited `.ics` file that opened and read without error. */
  predicate Parsed(v: WalkEntry)
  {
    v.Visit? && IsIcsName(v.name) && v.content.Scanned? && v.content.readError.None?
  }

  /** The events a visited entry contributes: a file that fails to parse contributes none. */
  function Contribution(v: WalkEntry): seq<Event>
  {
    if Parsed(v) then Run(Initial, v.content.lines).events else []
  }

  predicate NoFailure(entries: seq<WalkEntry>)
  {
    forall i :: 0 <= i < |entries| ==> entries[i].Visit?
  }

  function Concat(entries: seq<WalkEntry>): seq<Event>
    decreases |entries|
  {
    if entries == [] then [] else Contribution(entries[0]) + Concat(entries[1..])
  }

  /** Reading a directory is reading its files one after another. */
  lemma {:induction false} ConcatAppend(a: seq<WalkEntry>, b: seq<WalkEntry>)
    ensures Concat(a + b) == Concat(a) + Concat(b)
    decreases |a|
  {
    if a != [] {
      assert (a + b)[0] == a[0];
      assert (a + b)[1..] == a[1..] + b;
      ConcatAppend(a[1..], b);
    } else {
      assert a + b == b;
    }
  }

  /** The first error Walk reports. */
  function FirstFailure(entries: seq<WalkEntry>): (m: string)
    requires !NoFailure(entries)
    decreases |entries|
  {
    if entries[0].WalkFailure? then entries[0].message else FirstFailure(entries[1..])
  }

  /**
   * `readAllICSFiles`: the events of every `.ics` file (name matched case-insensitively)
   * in walk order; a file that fails to open or read is skipped, and an error from
   * the walk itself aborts with that error.
   */
  method ReadAllIcsFiles(entries: seq<WalkEntry>) returns (r: Result<seq<Event>, string>)
    ensures NoFailure(entries) ==> r == Ok(Concat(entries))
    ensures !NoFailure(entries) ==> r == Err(FirstFailure(entries))
  {
    var all: seq<Event> := [];
    var i := 0;
    while i < |entries|
      invariant 0 <= i <= |entries|
      invariant NoFailure(entries[..i])
      invariant all == Concat(entries[..i])
    {
      var entry := entries[i];
      if entry.WalkFailure? {
        FailureAt(entries, i);
        return Err(entry.message);
      }
      var events := ReadEntry(entry);
      ConcatStep(entries, i);
      all := all + events;
      i := i + 1;
    }
    assert entries[..|entries|] == entries;
    r := Ok(all);
  }

  /** The body of the walk callback for a visited entry: an `.ics` file's events unless it fails to parse. */
  method ReadEntry(entry: WalkEntry) returns (events: seq<Event>)
    requires entry.Visit?
    ensures events == Contribution(entry)
  {
    events := [];
    if IsIcsName(entry.name) {
      var parsed, err := ParseIcsFile(entry.content);
      if err.None? {
        events := parsed;
      }
    }
  }

  lemma ConcatStep(entries: seq<WalkEntry>, i: nat)
    requires i < |entries|
    ensures Concat(entries[..i + 1]) == Concat(entries[..i]) + Contribution(entries[i])
  {
    assert entries[..i + 1] == entries[..i] + [entries[i]];
    ConcatAppend(entries[..i], [entries[i]]);
    assert Concat([entries[i]]) == Contribution(entries[i]) + Concat([]);
  }

  /** The first failure after a failure-free prefix is the one Walk reports. */
  lemma {:induction false} FailureAt(entries: seq<WalkEntry>, i: nat)
    requires i < |entries| && NoFailure(entries[..i]) && entries[i].WalkFailure?
    ensures !NoFailure(entries) && FirstFailure(entries) == entries[i].message
    decreases i
  {
    if i > 0 {
      assert entries[..i][0] == entries[0];
      assert entries[1..][..i - 1] == entries[..i][1..];
      FailureAt(entries[1..], i - 1);
    }
  }

  /** A file that fails to parse is skipped: the result is as if it were not there. */
  lemma SkipUnparsable(a: seq<WalkEntry>, v: WalkEntry, b: seq<WalkEntry>)
    requires v.Visit? && !Parsed(v)
    ensures Concat(a + [v] + b) == Concat(a + b)
  {
    ConcatAppend(a + [v], b);
    ConcatAppend(a, [v]);
    ConcatAppend(a, b);
  }
}
