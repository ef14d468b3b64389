/**
 * The older standalone calendar tool. It scans VEVENT blocks, decodes
 * dates, applies the all-day heuristic and groups by title exactly as the
 * analyzer does (those definitions are shared), but it differs in four
 * places modelled here: the lower date bound is strict, the total
 * duration keeps all-day events, and both statistics lists come out in
 * map order instead of title order.
 */
module CalendarCli {
  import opened Text
  import opened Collections
  import opened Timestamps
  import opened CalendarIcs
  import opened CalendarStats

  // ---------------------------------------------------------------------
  // Date range
  // ---------------------------------------------------------------------

  /** Start set, strictly after `startDate`, and before the day after `endDate`. */
  predicate InRangeStrict(e: Event, startDate: Timestamp, endDate: Timestamp)
  {
    !IsZero(e.start) && After(e.start, startDate) && Instant(e.start) < DayAfter(endDate)
  }

  function InRangeStrictOf(startDate: Timestamp, endDate: Timestamp): Event -> bool
  {
    e => InRangeStrict(e, startDate, endDate)
  }

  /** `filterEventsByDateRange` of the standalone tool: the events strictly inside the range, in order. */
  method FilterEventsStrict(events: seq<Event>, startDate: Timestamp, endDate: Timestamp)
    returns (filtered: seq<Event>)
    ensures filtered == Filter(events, InRangeStrictOf(startDate, endDate))
    ensures forall e :: e in filtered <==> e in events && InRangeStrict(e, startDate, endDate)
  {
    filtered := [];
    for i := 0 to |events|
      invariant filtered == Filter(events[..i], InRangeStrictOf(startDate, endDate))
    {
      FilterSnoc(events[..i], events[i], InRangeStrictOf(startDate, endDate));
      assert events[..i + 1] == events[..i] + [events[i]];
      var e := events[i];
      if !IsZero(e.start) && After(e.start, startDate) && Instant(e.start) < DayAfter(endDate) {
        filtered := filtered + [e];
      }
    }
    assert events[..|events|] == events;
  }

  /**
   * The strict bound differs from the analyzer's only at the start
   * instant itself: an event starting exactly at `startDate` (midnight of
   * the first day) is kept by the analyzer and dropped here.
   */
  lemma StrictBoundDropsOnlyStartInstant(e: Event, startDate: Timestamp, endDate: Timestamp)
    ensures InRangeStrict(e, startDate, endDate) <==>
      InRange(e, startDate, endDate) && Instant(e.start) != Instant(startDate)
    ensures Instant(e.start) == Instant(startDate) && InRange(e, startDate, endDate) ==>
      !InRangeStrict(e, startDate, endDate)
  {
  }

  /** So the standalone tool never keeps more events than the analyzer. */
  lemma StrictFilterNarrower(events: seq<Event>, startDate: Timestamp, endDate: Timestamp)
    ensures |Filter(events, InRangeStrictOf(startDate, endDate))| <= |Filter(events, InRangeOf(startDate, endDate))|
  {
    FilterMonotone(events, InRangeStrictOf(startDate, endDate), InRangeOf(startDate, endDate));
  }

  // ---------------------------------------------------------------------
  // Total duration
  // ---------------------------------------------------------------------

  /** What one event adds in the standalone `calculateDuration`: a positive span, all-day or not. */
  function PositiveSpan(e: Event): (d: int)
    ensures d >= 0
    ensures d > 0 <==> BothSet(e) && Span(e) > 0
  {
    if BothSet(e) && Span(e) > 0 then Span(e) else 0
  }

  /**
   * `calculateDuration` of the standalone tool: the positive spans of all
   * events with both times set, all-day events included. (Its
   * `calculateDurationExcludingAllDay` is the analyzer's
   * `calculateDuration`, `CalendarStats.CalculateDuration`.)
   */
  method CalculateDurationAll(events: seq<Event>) returns (total: int)
    ensures total == SumBy(events, PositiveSpan)
    ensures total >= SumBy(events, TimedSpan) >= 0
  {
    total := 0;
    for i := 0 to |events|
      invariant total == SumBy(events[..i], PositiveSpan)
    {
      SumBySnoc(events[..i], events[i], PositiveSpan);
      assert events[..i + 1] == events[..i] + [events[i]];
      var e := events[i];
      if !IsZero(e.start) && !IsZero(e.end) {
        var d := Sub(e.end, e.start);
        if d > 0 {
          total := total + d;
        }
      }
    }
    assert events[..|events|] == events;
    DurationSplit(events);
    SumByNonNegative(Filter(events, IsAllDayEvent), PositiveSpan);
    SumByNonNegative(events, TimedSpan);
  }

  /**
   * The all-inclusive total is the timed total plus exactly the positive
   * spans of the all-day events.
   */
  lemma DurationSplit(events: seq<Event>)
    ensures SumBy(events, PositiveSpan) ==
      SumBy(events, TimedSpan) + SumBy(Filter(events, IsAllDayEvent), PositiveSpan)
  {
    forall e ensures PositiveSpan(e) == TimedSpan(e) + (if IsAllDayEvent(e) then PositiveSpan(e) else 0) {
    }
    SumBySplit(events, PositiveSpan, TimedSpan, IsAllDayEvent);
  }

  // ---------------------------------------------------------------------
  // Per-title statistics in map order
  // ---------------------------------------------------------------------

  /** The entry for one title group: its size and its timed total. */
  function TitleRow(g: map<string, seq<Event>>, t: string): TitleStats
    requires t in g
  {
    TitleStats(t, |g[t]|, SumBy(g[t], TimedSpan))
  }

  function TitleRows(g: map<string, seq<Event>>, titles: seq<string>): (r: seq<TitleStats>)
    requires forall i :: 0 <= i < |titles| ==> titles[i] in g
    ensures |r| == |titles| && forall i :: 0 <= i < |titles| ==> r[i] == TitleRow(g, titles[i])
  {
    seq(|titles|, i requires 0 <= i < |titles| => TitleRow(g, titles[i]))
  }

  /**
   * `calculateTitleStats` of the standalone tool: one entry per group, in
   * the order the range over the map visits them.
   */
  method CalculateTitleStatsUnordered(g: map<string, seq<Event>>) returns (stats: seq<TitleStats>, ghost order: seq<string>)
    ensures ListsKeys(order, g)
    ensures stats == TitleRows(g, order)
  {
    var titles := MapKeys(g);
    order := titles;
    stats := [];
    for i := 0 to |titles|
      invariant |stats| == i
      invariant forall j :: 0 <= j < i ==> stats[j] == TitleRow(g, titles[j])
    {
      var events := g[titles[i]];
      var d := CalendarStats.CalculateDuration(events);
      stats := stats + [TitleStats(titles[i], |events|, d)];
    }
  }

  /** The analyzer's title order is one of the orders a map range may take. */
  lemma SortedKeysListsKeys<V>(m: map<string, V>)
    ensures ListsKeys(SortedKeys(m.Keys), m)
  {
    var r := SortedKeys(m.Keys);
    SortedKeysAscending(m.Keys);
    forall i, j | 0 <= i < j < |r| ensures r[i] != r[j] {
      assert Less(r[i], r[j]);
      LessIrreflexive(r[i]);
    }
  }

  lemma TitleRowsMembers(g: map<string, seq<Event>>, order: seq<string>)
    requires ListsKeys(order, g)
    ensures Distinct(TitleRows(g, order))
    ensures forall s :: s in TitleRows(g, order) <==> s.title in g && s == TitleRow(g, s.title)
  {
    var r := TitleRows(g, order);
    forall i, j | 0 <= i < j < |r| ensures r[i] != r[j] {
      assert r[i].title == order[i] && r[j].title == order[j];
    }
    forall s: TitleStats | s.title in g && s == TitleRow(g, s.title) ensures s in r {
      var i :| 0 <= i < |order| && order[i] == s.title;
      assert r[i] == s;
    }
  }

  /**
   * Whatever order the map is ranged in, the standalone tool's title
   * statistics are the analyzer's (title-ordered) statistics, permuted.
   */
  lemma TitleStatsPermutation(g: map<string, seq<Event>>, order: seq<string>)
    requires ListsKeys(order, g)
    ensures multiset(TitleRows(g, order)) == multiset(TitleRows(g, SortedKeys(g.Keys)))
  {
    SortedKeysListsKeys(g);
    TitleRowsMembers(g, order);
    TitleRowsMembers(g, SortedKeys(g.Keys));
    DistinctSameElements(TitleRows(g, order), TitleRows(g, SortedKeys(g.Keys)));
  }

  // ---------------------------------------------------------------------
  // All-day statistics in map order
  // ---------------------------------------------------------------------

  /**
   * `calculateAllDayStats` of the standalone tool: the all-day entries of
   * the groups that have one, in the order the range over the map visits
   * them.
   */
  method CalculateAllDayStatsUnordered(g: map<string, seq<Event>>) returns (stats: seq<TitleStats>, ghost order: seq<string>)
    ensures ListsKeys(order, g)
    ensures stats == AllDayStatsOf(g, order)
  {
    var titles := MapKeys(g);
    order := titles;
    stats := AllDayStatsFor(g, titles);
  }

  /** All-day entries for distinct titles have distinct titles. */
  lemma {:induction false} AllDayStatsOfDistinct(g: map<string, seq<Event>>, titles: seq<string>)
    requires forall i :: 0 <= i < |titles| ==> titles[i] in g
    requires Distinct(titles)
    ensures DistinctTitles(AllDayStatsOf(g, titles))
    decreases |titles|
  {
    if titles != [] {
      var init := titles[..|titles| - 1];
      var t := titles[|titles| - 1];
      assert titles == init + [t];
      assert Distinct(init);
      AllDayStatsOfDistinct(g, init);
      AllDayStatsOfEntries(g, init);
      var r0 := AllDayStatsOf(g, init);
      var row := AllDayRow(g, t);
      if row != [] {
        forall k | 0 <= k < |init| ensures init[k] != t {
          assert titles[k] == init[k];
        }
        forall i | 0 <= i < |r0| ensures r0[i].title != t {
          assert r0[i] in r0;
        }
      }
    }
  }

  /** An all-day entry is determined by its title. */
  lemma AllDayEntryUnique(g: map<string, seq<Event>>, s: TitleStats, u: TitleStats)
    requires IsAllDayEntry(g, s) && IsAllDayEntry(g, u) && s.title == u.title
    ensures s == u
  {
  }

  lemma AllDayStatsIncluded(g: map<string, seq<Event>>, a: seq<string>, b: seq<string>, s: TitleStats)
    requires ListsKeys(a, g) && ListsKeys(b, g)
    requires s in AllDayStatsOf(g, a)
    ensures s in AllDayStatsOf(g, b)
  {
    AllDayStatsOfEntries(g, a);
    AllDayStatsOfCovers(g, b);
    AllDayStatsOfEntries(g, b);
    var r := AllDayStatsOf(g, b);
    assert s.title in b;
    var i :| 0 <= i < |r| && Titles(r)[i] == s.title;
    assert r[i] in r;
    AllDayEntryUnique(g, s, r[i]);
  }

  /**
   * Whatever order the map is ranged in, the standalone tool's all-day
   * statistics are the analyzer's, permuted.
   */
  lemma AllDayStatsPermutation(g: map<string, seq<Event>>, order: seq<string>)
    requires ListsKeys(order, g)
    ensures multiset(AllDayStatsOf(g, order)) == multiset(AllDayStatsOf(g, SortedKeys(g.Keys)))
  {
    var sorted := SortedKeys(g.Keys);
    SortedKeysListsKeys(g);
    var a := AllDayStatsOf(g, order);
    var b := AllDayStatsOf(g, sorted);
    AllDayStatsOfDistinct(g, order);
    AllDayStatsOfDistinct(g, sorted);
    forall i, j | 0 <= i < j < |a| ensures a[i] != a[j] { }
    forall i, j | 0 <= i < j < |b| ensures b[i] != b[j] { }
    forall s ensures s in a <==> s in b {
      if s in a { AllDayStatsIncluded(g, order, sorted, s); }
      if s in b { AllDayStatsIncluded(g, sorted, order, s); }
    }
    DistinctSameElements(a, b);
  }
}
