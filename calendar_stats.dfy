/**
 * The statistics the calendar analyzer computes over parsed events: the
 * date-range filter, the all-day heuristic, timed totals, grouping by
 * trimmed title, per-title and all-day per-title statistics, the two
 * rankings, category totals and the working-hours histogram with its
 * peak hours. Durations are whole seconds.
 */
module CalendarStats {
  import opened Wrappers
  import opened Text
  import opened Collections
  import opened Numerals
  import opened Timestamps
  import opened CalendarIcs
  import opened CategorizationConfig

  // ---------------------------------------------------------------------
  // Date range
  // ---------------------------------------------------------------------

  /** `endDate.AddDate(0, 0, 1)` as an instant: every time here is UTC, so a day is 86400 seconds. */
  function DayAfter(t: Timestamp): (i: int)
    ensures i - Instant(t) == SecondsPerDay
  {
    Instant(t) + SecondsPerDay
  }

  /** Start set, not before `startDate`, and before the day after `endDate`. */
  predicate InRange(e: Event, startDate: Timestamp, endDate: Timestamp)
    ensures InRange(e, startDate, endDate) <==>
      !IsZero(e.start) && Instant(startDate) <= Instant(e.start) < Instant(endDate) + SecondsPerDay
  {
    !IsZero(e.start) && !Before(e.start, startDate) && Instant(e.start) < DayAfter(endDate)
  }

  function InRangeOf(startDate: Timestamp, endDate: Timestamp): Event -> bool
  {
    e => InRange(e, startDate, endDate)
  }

  /** `filterEventsByDateRange`: the events in range, in their original order. */
  method FilterEventsByDateRange(events: seq<Event>, startDate: Timestamp, endDate: Timestamp)
    returns (filtered: seq<Event>)
    ensures filtered == Filter(events, InRangeOf(startDate, endDate))
    ensures forall e :: e in filtered <==> e in events && InRange(e, startDate, endDate)
  {
    var wanted := InRangeOf(startDate, endDate);
    filtered := [];
    for i := 0 to |events|
      invariant filtered == Filter(events[..i], wanted)
    {
      PrefixSnoc(events, i);
      FilterSnoc(events[..i], events[i], wanted);
      if InRange(events[i], startDate, endDate) {
        filtered := filtered + [events[i]];
      }
    }
    assert events[..|events|] == events;
  }

  // ---------------------------------------------------------------------
  // All-day heuristic and timed totals
  // ---------------------------------------------------------------------

  /** Both the start and the end are set. */
  predicate BothSet(e: Event)
  {
    !IsZero(e.start) && !IsZero(e.end)
  }

  /** `event.End.Sub(event.Start)`. */
  function Span(e: Event): int
  {
    Sub(e.end, e.start)
  }

  /** `int(d.Hours())`: whole hours, truncated toward zero. */
  function WholeHours(d: int): int
  {
    TruncDiv(d, SecondsPerHour)
  }

  /** `isAllDayEvent`: flagged, or exactly 24 hours, or a positive whole-hour count divisible by 24. */
  predicate IsAllDayEvent(e: Event)
    ensures e.isAllDay ==> IsAllDayEvent(e)
    ensures !BothSet(e) ==> (IsAllDayEvent(e) <==> e.isAllDay)
  {
    e.isAllDay ||
    (BothSet(e) &&
      (Span(e) == 24 * SecondsPerHour ||
       (WholeHours(Span(e)) >= 24 && TruncMod(WholeHours(Span(e)), 24) == 0)))
  }

  /**
   * Without the flag, an event counts as all-day exactly when its span is
   * at least a day and less than an hour past a whole number of days: the
   * hour truncation forgives up to 59 minutes 59 seconds.
   */
  lemma AllDayHeuristic(e: Event)
    requires !e.isAllDay && BothSet(e)
    ensures IsAllDayEvent(e) <==> Span(e) >= SecondsPerDay && Span(e) % SecondsPerDay < SecondsPerHour
  {
    var d := Span(e);
    if d >= 0 {
      var q := d / SecondsPerDay;
      var r := d % SecondsPerDay;
      var h := 24 * q + r / SecondsPerHour;
      assert d == SecondsPerDay * q + r;
      assert SecondsPerHour * h <= d < SecondsPerHour * (h + 1);
      assert WholeHours(d) == h;
      assert h % 24 == r / SecondsPerHour;
    }
  }

  /** 24h30m counts as all-day, 25h does not, and a negative span never does. */
  lemma AllDayExamples(e: Event)
    requires !e.isAllDay && BothSet(e)
    ensures Span(e) == 24 * SecondsPerHour + 30 * SecondsPerMinute ==> IsAllDayEvent(e)
    ensures Span(e) == 25 * SecondsPerHour ==> !IsAllDayEvent(e)
    ensures Span(e) < 0 ==> !IsAllDayEvent(e)
  {
    AllDayHeuristic(e);
  }

  /** What one event adds in `calculateDuration`: a positive span of a timed event with both times set. */
  function TimedSpan(e: Event): (d: int)
    ensures d >= 0
    ensures d > 0 <==> !IsAllDayEvent(e) && BothSet(e) && Span(e) > 0
  {
    if !IsAllDayEvent(e) && BothSet(e) && Span(e) > 0 then Span(e) else 0
  }

  /** `calculateDuration`: the total of the timed spans, never negative. */
  method CalculateDuration(events: seq<Event>) returns (total: int)
    ensures total == SumBy(events, TimedSpan)
    ensures total >= 0
  {
    total := 0;
    for i := 0 to |events|
      invariant total == SumBy(events[..i], TimedSpan)
    {
      SumBySnoc(events[..i], events[i], TimedSpan);
      assert events[..i + 1] == events[..i] + [events[i]];
      var e := events[i];
      if !IsAllDayEvent(e) && !IsZero(e.start) && !IsZero(e.end) {
        var d := Sub(e.end, e.start);
        if d > 0 {
          total := total + d;
        }
      }
    }
    assert events[..|events|] == events;
    SumByNonNegative(events, TimedSpan);
  }

  /** The timed total of a list is the sum of the totals of its parts. */
  lemma TimedTotalAdditive(a: seq<Event>, b: seq<Event>)
    ensures SumBy(a + b, TimedSpan) == SumBy(a, TimedSpan) + SumBy(b, TimedSpan)
  {
    SumByConcat(a, b, TimedSpan);
  }

  // ---------------------------------------------------------------------
  // Grouping by title
  // ---------------------------------------------------------------------

  /** The grouping key: the summary with surrounding white space removed. */
  function TitleOf(e: Event): string
  {
    TrimSpace(e.summary)
  }

  function TitleIs(k: string): Event -> bool
  {
    e => TitleOf(e) == k
  }

  /** `g` maps each non-empty title occurring in `events` to the events with that title, in order. */
  ghost predicate IsGrouping(g: map<string, seq<Event>>, events: seq<Event>)
  {
    (forall k :: k in g <==> k != "" && Filter(events, TitleIs(k)) != []) &&
    (forall k :: k in g ==> g[k] == Filter(events, TitleIs(k)))
  }

  /** `groupEventsByTitle`. */
  method GroupEventsByTitle(events: seq<Event>) returns (g: map<string, seq<Event>>)
    ensures IsGrouping(g, events)
  {
    g := map[];
    for i := 0 to |events|
      invariant IsGrouping(g, events[..i])
    {
      var e := events[i];
      assert events[..i + 1] == events[..i] + [e];
      GroupingStep(g, events[..i], e);
      var title := TrimSpace(e.summary);
      if title != "" {
        var group := if title in g then g[title] else [];
        g := g[title := group + [e]];
      }
    }
    assert events[..|events|] == events;
  }

  /** Appending an event to its title's group (or dropping it when the title is empty) keeps the grouping. */
  lemma GroupingStep(g: map<string, seq<Event>>, events: seq<Event>, e: Event)
    requires IsGrouping(g, events)
    ensures var t := TitleOf(e);
      t != "" ==> IsGrouping(g[t := (if t in g then g[t] else []) + [e]], events + [e])
    ensures TitleOf(e) == "" ==> IsGrouping(g, events + [e])
  {
    var t := TitleOf(e);
    if t != "" {
      var g' := g[t := (if t in g then g[t] else []) + [e]];
      GroupingStepKeys(g, events, e);
      GroupingStepValues(g, events, e);
      assert IsGrouping(g', events + [e]);
    } else {
      forall k | k != "" ensures Filter(events + [e], TitleIs(k)) == Filter(events, TitleIs(k)) {
        FilterSnoc(events, e, TitleIs(k));
      }
    }
  }

  lemma GroupingStepKeys(g: map<string, seq<Event>>, events: seq<Event>, e: Event)
    requires IsGrouping(g, events) && TitleOf(e) != ""
    ensures var t := TitleOf(e);
      forall k :: k in g[t := (if t in g then g[t] else []) + [e]] <==>
        k != "" && Filter(events + [e], TitleIs(k)) != []
  {
    var t := TitleOf(e);
    forall k ensures k in g[t := (if t in g then g[t] else []) + [e]] <==>
      k != "" && Filter(events + [e], TitleIs(k)) != []
    {
      FilterSnoc(events, e, TitleIs(k));
    }
  }

  lemma GroupingStepValues(g: map<string, seq<Event>>, events: seq<Event>, e: Event)
    requires IsGrouping(g, events) && TitleOf(e) != ""
    ensures var t := TitleOf(e);
      var g' := g[t := (if t in g then g[t] else []) + [e]];
      forall k :: k in g' ==> g'[k] == Filter(events + [e], TitleIs(k))
  {
    var t := TitleOf(e);
    var g' := g[t := (if t in g then g[t] else []) + [e]];
    forall k | k in g' ensures g'[k] == Filter(events + [e], TitleIs(k)) {
      FilterSnoc(events, e, TitleIs(k));
      if k == t && t !in g {
        assert Filter(events, TitleIs(t)) == [];
      }
    }
  }

  /** Each event with a non-empty title sits in the group of its title. */
  lemma GroupingCovers(g: map<string, seq<Event>>, events: seq<Event>, e: Event)
    requires IsGrouping(g, events)
    requires e in events && TitleOf(e) != ""
    ensures TitleOf(e) in g && e in g[TitleOf(e)]
  {
    assert e in Filter(events, TitleIs(TitleOf(e)));
  }

  // ---------------------------------------------------------------------
  // Per-title statistics
  // ---------------------------------------------------------------------

  datatype TitleStats = TitleStats(title: string, count: int, duration: int)

  function Titles(stats: seq<TitleStats>): (r: seq<string>)
    ensures |r| == |stats| && forall i :: 0 <= i < |stats| ==> r[i] == stats[i].title
  {
    seq(|stats|, i requires 0 <= i < |stats| => stats[i].title)
  }

  /**
   * `calculateTitleStats`: one entry per group, titles in ascending order,
   * the count the group's size and the duration its timed total.
   */
  method CalculateTitleStats(g: map<string, seq<Event>>) returns (stats: seq<TitleStats>)
    ensures Titles(stats) == SortedKeys(g.Keys)
    ensures StrictlyAscending(Titles(stats))
    ensures forall i :: 0 <= i < |stats| ==>
      stats[i].title in g &&
      stats[i].count == |g[stats[i].title]| &&
      stats[i].duration == SumBy(g[stats[i].title], TimedSpan) &&
      stats[i].duration >= 0
  {
    var titles := SortedKeys(g.Keys);
    SortedKeysAscending(g.Keys);
    stats := [];
    for i := 0 to |titles|
      invariant |stats| == i
      invariant forall j :: 0 <= j < i ==>
        stats[j].title == titles[j] &&
        stats[j].count == |g[titles[j]]| &&
        stats[j].duration == SumBy(g[titles[j]], TimedSpan) &&
        stats[j].duration >= 0
    {
      var events := g[titles[i]];
      var d := CalculateDuration(events);
      stats := stats + [TitleStats(titles[i], |events|, d)];
    }
  }

  // ---------------------------------------------------------------------
  // All-day statistics
  // ---------------------------------------------------------------------

  /** Whole days of a span, `int(d.Hours() / 24)`. */
  function WholeDays(d: int): int
  {
    TruncDiv(d, SecondsPerDay)
  }

  /** The days an event adds in `calculateAllDayStats`: at least one for an all-day event, none otherwise. */
  function AllDayDays(e: Event): (n: int)
    ensures IsAllDayEvent(e) ==> n >= 1
    ensures !IsAllDayEvent(e) ==> n == 0
    ensures BothSet(e) && IsAllDayEvent(e) && WholeDays(Span(e)) > 0 ==> n == WholeDays(Span(e))
  {
    if !IsAllDayEvent(e) then 0
    else if BothSet(e) && WholeDays(Span(e)) > 0 then WholeDays(Span(e))
    else 1
  }

  function AllDayCount(events: seq<Event>): nat
  {
    |Filter(events, IsAllDayEvent)|
  }

  /** Every all-day event adds at least a day, so a group's days are at least its all-day count. */
  lemma {:induction false} AllDayDaysAtLeastCount(events: seq<Event>)
    ensures SumBy(events, AllDayDays) >= AllDayCount(events)
    decreases |events|
  {
    if events != [] {
      var init := events[..|events| - 1];
      var last := events[|events| - 1];
      assert events == init + [last];
      FilterSnoc(init, last, IsAllDayEvent);
      AllDayDaysAtLeastCount(init);
    }
  }

  /** The entry `calculateAllDayStats` emits for one title: none when the group has no all-day event. */
  function AllDayRow(g: map<string, seq<Event>>, t: string): seq<TitleStats>
    requires t in g
  {
    if AllDayCount(g[t]) > 0 then
      [TitleStats(t, AllDayCount(g[t]), SumBy(g[t], AllDayDays) * SecondsPerDay)]
    else []
  }

  function AllDayStatsOf(g: map<string, seq<Event>>, titles: seq<string>): seq<TitleStats>
    requires forall i :: 0 <= i < |titles| ==> titles[i] in g
    decreases |titles|
  {
    if titles == [] then []
    else AllDayStatsOf(g, titles[..|titles| - 1]) + AllDayRow(g, titles[|titles| - 1])
  }

  /**
   * An all-day entry for a group: it counts the group's all-day events (at
   * least one) and spans 24 hours per day, each event adding at least one
   * day.
   */
  ghost predicate IsAllDayEntry(g: map<string, seq<Event>>, s: TitleStats)
  {
    s.title in g &&
    s.count == AllDayCount(g[s.title]) && s.count >= 1 &&
    s.duration == SumBy(g[s.title], AllDayDays) * SecondsPerDay &&
    s.duration >= s.count * SecondsPerDay
  }

  lemma AllDayRowIsEntry(g: map<string, seq<Event>>, t: string)
    requires t in g
    ensures forall s :: s in AllDayRow(g, t) ==> IsAllDayEntry(g, s) && s.title == t
  {
    AllDayDaysAtLeastCount(g[t]);
  }

  /** Every entry of the all-day statistics is an all-day entry for one of the titles. */
  lemma {:induction false} AllDayStatsOfEntries(g: map<string, seq<Event>>, titles: seq<string>)
    requires forall i :: 0 <= i < |titles| ==> titles[i] in g
    ensures forall s :: s in AllDayStatsOf(g, titles) ==> s.title in titles && IsAllDayEntry(g, s)
    decreases |titles|
  {
    if titles != [] {
      var init := titles[..|titles| - 1];
      var t := titles[|titles| - 1];
      assert titles == init + [t];
      AllDayStatsOfEntries(g, init);
      AllDayRowIsEntry(g, t);
      var r0 := AllDayStatsOf(g, init);
      var row := AllDayRow(g, t);
      var r := AllDayStatsOf(g, titles);
      assert r == r0 + row;
      forall s | s in r ensures s.title in titles && IsAllDayEntry(g, s) {
        if s in r0 {
          assert s.title in init;
        } else {
          assert s in row;
        }
      }
    }
  }

  /** A title gets an all-day entry exactly when its group has an all-day event. */
  lemma {:induction false} AllDayStatsOfCovers(g: map<string, seq<Event>>, titles: seq<string>)
    requires forall i :: 0 <= i < |titles| ==> titles[i] in g
    ensures forall t :: t in titles ==> (AllDayCount(g[t]) > 0 <==> t in Titles(AllDayStatsOf(g, titles)))
    decreases |titles|
  {
    if titles != [] {
      var init := titles[..|titles| - 1];
      var t := titles[|titles| - 1];
      assert titles == init + [t];
      AllDayStatsOfCovers(g, init);
      var r0 := AllDayStatsOf(g, init);
      var row := AllDayRow(g, t);
      TitlesAppend(r0, row);
      assert Titles(AllDayStatsOf(g, titles)) == Titles(r0) + Titles(row);
      TitlesOfRow(g, t);
      forall u | u in Titles(r0) ensures u in init {
        AllDayStatsOfTitles(g, init, u);
      }
    }
  }

  lemma TitlesAppend(a: seq<TitleStats>, b: seq<TitleStats>)
    ensures Titles(a + b) == Titles(a) + Titles(b)
  {
  }

  lemma TitlesOfRow(g: map<string, seq<Event>>, t: string)
    requires t in g
    ensures Titles(AllDayRow(g, t)) == if AllDayCount(g[t]) > 0 then [t] else []
  {
  }

  /** Every title in the all-day entries comes from the titles given. */
  lemma AllDayStatsOfTitles(g: map<string, seq<Event>>, titles: seq<string>, u: string)
    requires forall i :: 0 <= i < |titles| ==> titles[i] in g
    requires u in Titles(AllDayStatsOf(g, titles))
    ensures u in titles
  {
    var r := AllDayStatsOf(g, titles);
    var i :| 0 <= i < |r| && Titles(r)[i] == u;
    assert r[i] in r;
    AllDayStatsOfEntries(g, titles);
  }

  lemma AllDayStep(events: seq<Event>, j: nat)
    requires j < |events|
    ensures AllDayCount(events[..j + 1]) == AllDayCount(events[..j]) + (if IsAllDayEvent(events[j]) then 1 else 0)
    ensures SumBy(events[..j + 1], AllDayDays) == SumBy(events[..j], AllDayDays) + AllDayDays(events[j])
  {
    assert events[..j + 1] == events[..j] + [events[j]];
    FilterSnoc(events[..j], events[j], IsAllDayEvent);
    SumBySnoc(events[..j], events[j], AllDayDays);
  }

  lemma AllDayStatsOfSnoc(g: map<string, seq<Event>>, titles: seq<string>, i: nat)
    requires forall k :: 0 <= k < |titles| ==> titles[k] in g
    requires i < |titles|
    ensures AllDayStatsOf(g, titles[..i + 1]) == AllDayStatsOf(g, titles[..i]) + AllDayRow(g, titles[i])
  {
    assert titles[..i + 1][..i] == titles[..i];
  }

  /** The inner loop of `calculateAllDayStats` over one group: its all-day events and their days. */
  method CountAllDay(events: seq<Event>) returns (allDayCount: int, totalDays: int)
    ensures allDayCount == AllDayCount(events)
    ensures totalDays == SumBy(events, AllDayDays)
    ensures totalDays >= allDayCount
  {
    allDayCount := 0;
    totalDays := 0;
    for j := 0 to |events|
      invariant allDayCount == AllDayCount(events[..j])
      invariant totalDays == SumBy(events[..j], AllDayDays)
    {
      var e := events[j];
      AllDayStep(events, j);
      if IsAllDayEvent(e) {
        allDayCount := allDayCount + 1;
        if !IsZero(e.start) && !IsZero(e.end) {
          var days := TruncDiv(Sub(e.end, e.start), SecondsPerDay);
          if days > 0 {
            totalDays := totalDays + days;
          } else {
            totalDays := totalDays + 1;
          }
        } else {
          totalDays := totalDays + 1;
        }
      }
    }
    assert events[..|events|] == events;
    AllDayDaysAtLeastCount(events);
  }

  /** `calculateAllDayStats`: titles in ascending order, only those with an all-day event. */
  method CalculateAllDayStats(g: map<string, seq<Event>>) returns (stats: seq<TitleStats>)
    ensures stats == AllDayStatsOf(g, SortedKeys(g.Keys))
  {
    var titles := SortedKeys(g.Keys);
    stats := AllDayStatsFor(g, titles);
  }

  /** The loop of `calculateAllDayStats` over the titles in the order given. */
  method AllDayStatsFor(g: map<string, seq<Event>>, titles: seq<string>) returns (stats: seq<TitleStats>)
    requires forall k :: 0 <= k < |titles| ==> titles[k] in g
    ensures stats == AllDayStatsOf(g, titles)
  {
    stats := [];
    for i := 0 to |titles|
      invariant stats == AllDayStatsOf(g, titles[..i])
    {
      var row := AllDayGroup(g, titles[i]);
      AllDayStatsOfSnoc(g, titles, i);
      stats := stats + row;
    }
    assert titles[..|titles|] == titles;
  }

  /** One title of `calculateAllDayStats`: an entry only when the group has an all-day event. */
  method AllDayGroup(g: map<string, seq<Event>>, title: string) returns (row: seq<TitleStats>)
    requires title in g
    ensures row == AllDayRow(g, title)
  {
    var allDayCount, totalDays := CountAllDay(g[title]);
    row := [];
    if allDayCount > 0 {
      var duration := totalDays * SecondsPerDay;
      row := [TitleStats(title, allDayCount, duration)];
    }
  }

  /** The all-day entries keep the order of the titles they come from. */
  lemma {:induction false} AllDayStatsOfAscending(g: map<string, seq<Event>>, titles: seq<string>)
    requires forall i :: 0 <= i < |titles| ==> titles[i] in g
    requires StrictlyAscending(titles)
    ensures StrictlyAscending(Titles(AllDayStatsOf(g, titles)))
    decreases |titles|
  {
    if titles != [] {
      var init := titles[..|titles| - 1];
      var t := titles[|titles| - 1];
      assert titles == init + [t];
      AllDayStatsOfAscending(g, init);
      var r0 := AllDayStatsOf(g, init);
      var row := AllDayRow(g, t);
      TitlesAppend(r0, row);
      assert Titles(AllDayStatsOf(g, titles)) == Titles(r0) + Titles(row);
      TitlesOfRow(g, t);
      if AllDayCount(g[t]) > 0 {
        forall u | u in Titles(r0) ensures Less(u, t) {
          AllDayStatsOfTitles(g, init, u);
          var k :| 0 <= k < |init| && init[k] == u;
          assert titles[k] == u;
        }
        AscendingSnoc(Titles(r0), t);
      } else {
        assert Titles(r0) + Titles(row) == Titles(r0);
      }
    }
  }

  // ---------------------------------------------------------------------
  // Rankings
  // ---------------------------------------------------------------------

  /** The two orders the report ranks title statistics by. */
  datatype RankKey = ByCount | ByDuration

  function KeyValue(k: RankKey, s: TitleStats): int
  {
    match k
    case ByCount => s.count
    case ByDuration => s.duration
  }

  /** The comparator given to `sort.Slice`: the larger key first, equal keys by ascending title. */
  predicate Ahead(k: RankKey, a: TitleStats, b: TitleStats)
  {
    KeyValue(k, a) > KeyValue(k, b) || (KeyValue(k, a) == KeyValue(k, b) && Less(a.title, b.title))
  }

  function AheadOf(k: RankKey): (TitleStats, TitleStats) -> bool
  {
    (a, b) => Ahead(k, a, b)
  }

  /** `!less(j, i)`: the order a sorted result satisfies between positions `i < j`. */
  function NotBehind(k: RankKey): (TitleStats, TitleStats) -> bool
  {
    (a, b) => !Ahead(k, b, a)
  }

  lemma AheadAsymmetric(k: RankKey, a: TitleStats, b: TitleStats)
    requires Ahead(k, a, b)
    ensures !Ahead(k, b, a)
  {
    if Less(a.title, b.title) {
      LessAsymmetric(a.title, b.title);
    }
  }

  /** Entries with different titles are always ordered one way or the other. */
  lemma AheadTotal(k: RankKey, a: TitleStats, b: TitleStats)
    requires a.title != b.title
    ensures Ahead(k, a, b) || Ahead(k, b, a)
  {
    LessTotal(a.title, b.title);
  }

  lemma NotBehindIsTotalPreorder(k: RankKey)
    ensures IsTotalPreorder(NotBehind(k))
  {
    forall a, b ensures NotBehind(k)(a, b) || NotBehind(k)(b, a) {
      if Ahead(k, b, a) {
        AheadAsymmetric(k, b, a);
      }
    }
    forall a, b, c | NotBehind(k)(a, b) && NotBehind(k)(b, c) ensures NotBehind(k)(a, c) {
      if Ahead(k, c, a) {
        LessTotal(b.title, a.title);
        if Less(a.title, b.title) {
          LessTransitive(c.title, a.title, b.title);
        }
      }
    }
  }

  /** The ranked copy `sort.Slice` produces: a permutation in comparator order. */
  function Rank(k: RankKey, stats: seq<TitleStats>): (r: seq<TitleStats>)
    ensures multiset(r) == multiset(stats) && |r| == |stats|
    ensures SortedBy(r, NotBehind(k))
  {
    NotBehindIsTotalPreorder(k);
    SortBy(stats, NotBehind(k))
  }

  function StatTitle(s: TitleStats): string
  {
    s.title
  }

  predicate DistinctTitles(stats: seq<TitleStats>)
  {
    forall i, j :: 0 <= i < j < |stats| ==> stats[i].title != stats[j].title
  }

  lemma AscendingTitlesDistinct(stats: seq<TitleStats>)
    requires StrictlyAscending(Titles(stats))
    ensures DistinctTitles(stats)
  {
    forall i, j | 0 <= i < j < |stats| ensures stats[i].title != stats[j].title {
      assert Less(Titles(stats)[i], Titles(stats)[j]);
      LessIrreflexive(stats[i].title);
    }
  }

  /** A comparator-sorted permutation of entries with distinct titles is strictly ordered. */
  lemma SortedIsStrict(k: RankKey, stats: seq<TitleStats>, r: seq<TitleStats>)
    requires DistinctTitles(stats)
    requires multiset(r) == multiset(stats) && SortedBy(r, NotBehind(k))
    ensures SortedBy(r, AheadOf(k)) && Asymmetric(r, AheadOf(k))
  {
    PermutationDistinct(stats, r, StatTitle);
    forall i, j | 0 <= i < j < |r| ensures Ahead(k, r[i], r[j]) {
      assert StatTitle(r[i]) != StatTitle(r[j]);
      AheadTotal(k, r[i], r[j]);
    }
    forall i, j | 0 <= i < |r| && 0 <= j < |r| && Ahead(k, r[i], r[j]) ensures !Ahead(k, r[j], r[i]) {
      AheadAsymmetric(k, r[i], r[j]);
    }
  }

  /**
   * With distinct titles (as both statistics lists have), the ranking
   * leaves `sort.Slice` no freedom: every comparator-sorted permutation is
   * the same list, strictly ordered.
   */
  lemma RankDeterministic(k: RankKey, stats: seq<TitleStats>, other: seq<TitleStats>)
    requires DistinctTitles(stats)
    requires multiset(other) == multiset(stats) && SortedBy(other, NotBehind(k))
    ensures SortedBy(Rank(k, stats), AheadOf(k))
    ensures other == Rank(k, stats)
  {
    var r := Rank(k, stats);
    SortedIsStrict(k, stats, r);
    SortedIsStrict(k, stats, other);
    StrictlySortedUnique(r, other, AheadOf(k));
  }
}
