// Working-hours analysis of calendar events (pkg/calendar/analyzer.go,
// analyzeWorkingHours and formatDuration).

module CalendarHours {
  import opened Text
  import opened Collections
  import opened Numerals
  import opened Timestamps
  import opened CalendarIcs
  import opened CalendarStats
  import opened CalendarCategories

  datatype WorkingHoursStats = WorkingHoursStats(
    hourlyDistribution: map<int, int>,
    dailyDistribution: map<string, int>,
    peakHours: seq<int>,
    totalWorkingHours: int)

  // ---------------------------------------------------------------------
  // Distributions
  // ---------------------------------------------------------------------

  /** The unflagged events whose `key` is `k`. */
  function InBucket<K(==)>(key: Event -> K, k: K): Event -> bool
  {
    e => Unflagged(e) && key(e) == k
  }

  /** What an event adds to bucket `k`: its span if it is unflagged and its `key` is `k`. */
  function BucketSpan<K(==)>(key: Event -> K, span: Event -> int, k: K): Event -> int
  {
    e => if Unflagged(e) && key(e) == k then span(e) else 0
  }

  /** The span of an unflagged event, 0 for a flagged one. */
  function WorkSpan(span: Event -> int): Event -> int
  {
    e => if Unflagged(e) then span(e) else 0
  }

  /**
   * `m` maps each key some unflagged event has to the sum of the spans of
   * those events, and nothing else.
   */
  ghost predicate IsDistribution<K(!new)>(m: map<K, int>, key: Event -> K, span: Event -> int, events: seq<Event>)
  {
    (forall k {:trigger Filter(events, InBucket(key, k))} :: k in m <==> Filter(events, InBucket(key, k)) != []) &&
    (forall k {:trigger SumBy(events, BucketSpan(key, span, k))} :: k in m ==> m[k] == SumBy(events, BucketSpan(key, span, k)))
  }

  lemma DistributionSkip<K(!new)>(m: map<K, int>, key: Event -> K, span: Event -> int, events: seq<Event>, e: Event)
    requires IsDistribution(m, key, span, events) && !Unflagged(e)
    ensures IsDistribution(m, key, span, events + [e])
  {
    forall k ensures Filter(events + [e], InBucket(key, k)) == Filter(events, InBucket(key, k)) {
      FilterSnoc(events, e, InBucket(key, k));
    }
    forall k ensures SumBy(events + [e], BucketSpan(key, span, k)) == SumBy(events, BucketSpan(key, span, k)) {
      SumBySnoc(events, e, BucketSpan(key, span, k));
    }
  }

  /** `m[key(e)] += span(e)` keeps the distribution. */
  lemma DistributionAdd<K(!new)>(m: map<K, int>, key: Event -> K, span: Event -> int, events: seq<Event>, e: Event)
    requires IsDistribution(m, key, span, events) && Unflagged(e)
    ensures IsDistribution(m[key(e) := Get(m, key(e)) + span(e)], key, span, events + [e])
  {
    DistributionAddKeys(m, key, span, events, e);
    DistributionAddValues(m, key, span, events, e);
  }

  lemma DistributionAddKeys<K(!new)>(m: map<K, int>, key: Event -> K, span: Event -> int, events: seq<Event>, e: Event)
    requires IsDistribution(m, key, span, events) && Unflagged(e)
    ensures forall k :: k in m[key(e) := Get(m, key(e)) + span(e)] <==> Filter(events + [e], InBucket(key, k)) != []
  {
    forall k ensures Filter(events + [e], InBucket(key, k)) ==
      Filter(events, InBucket(key, k)) + (if key(e) == k then [e] else [])
    {
      FilterSnoc(events, e, InBucket(key, k));
    }
  }

  lemma DistributionAddValues<K(!new)>(m: map<K, int>, key: Event -> K, span: Event -> int, events: seq<Event>, e: Event)
    requires IsDistribution(m, key, span, events) && Unflagged(e)
    ensures var m' := m[key(e) := Get(m, key(e)) + span(e)];
      forall k :: k in m' ==> m'[k] == SumBy(events + [e], BucketSpan(key, span, k))
  {
    var m' := m[key(e) := Get(m, key(e)) + span(e)];
    forall k | k in m' ensures m'[k] == SumBy(events + [e], BucketSpan(key, span, k)) {
      SumBySnoc(events, e, BucketSpan(key, span, k));
      if k == key(e) {
        if k !in m {
          BucketSpanZero(key, span, events, k);
        }
      } else {
        assert m'[k] == m[k];
      }
    }
  }

  /** A bucket no unflagged event falls into sums to zero. */
  lemma {:induction false} BucketSpanZero<K(!new)>(key: Event -> K, span: Event -> int, events: seq<Event>, k: K)
    requires Filter(events, InBucket(key, k)) == []
    ensures SumBy(events, BucketSpan(key, span, k)) == 0
    decreases |events|
  {
    if events != [] {
      var init := events[..|events| - 1];
      var last := events[|events| - 1];
      assert events == init + [last];
      FilterSnoc(init, last, InBucket(key, k));
      BucketSpanZero(key, span, init, k);
    }
  }

  /** The hour of the day an event starts at: `event.Start.Hour()`. */
  function HourOf(e: Event): int
  {
    Hour(e.start)
  }

  /** The day of the week an event starts on: `event.Start.Weekday().String()`. */
  function DayOf(e: Event): string
  {
    WeekdayName(Weekday(e.start))
  }

  /** The loop invariant of `analyzeWorkingHours` after `events`. */
  ghost predicate Distributed(hourly: map<int, int>, daily: map<string, int>, total: int,
                              hourOf: Event -> int, dayOf: Event -> string, span: Event -> int, events: seq<Event>)
  {
    IsDistribution(hourly, hourOf, span, events) &&
    IsDistribution(daily, dayOf, span, events) &&
    total == SumBy(events, WorkSpan(span)) &&
    MapSum(hourly) == total == MapSum(daily)
  }

  lemma DistributedSkip(hourly: map<int, int>, daily: map<string, int>, total: int,
                        hourOf: Event -> int, dayOf: Event -> string, span: Event -> int, events: seq<Event>, e: Event)
    requires Distributed(hourly, daily, total, hourOf, dayOf, span, events) && !Unflagged(e)
    ensures Distributed(hourly, daily, total, hourOf, dayOf, span, events + [e])
  {
    SumBySnoc(events, e, WorkSpan(span));
    DistributionSkip(hourly, hourOf, span, events, e);
    DistributionSkip(daily, dayOf, span, events, e);
  }

  lemma DistributedAdd(hourly: map<int, int>, daily: map<string, int>, total: int,
                       hourOf: Event -> int, dayOf: Event -> string, span: Event -> int, events: seq<Event>, e: Event,
                       hourly': map<int, int>, daily': map<string, int>, total': int)
    requires Distributed(hourly, daily, total, hourOf, dayOf, span, events) && Unflagged(e)
    requires hourly' == hourly[hourOf(e) := Get(hourly, hourOf(e)) + span(e)]
    requires daily' == daily[dayOf(e) := Get(daily, dayOf(e)) + span(e)]
    requires total' == total + span(e)
    ensures Distributed(hourly', daily', total', hourOf, dayOf, span, events + [e])
  {
    assert SumBy(events + [e], WorkSpan(span)) == total + span(e) by {
      SumBySnoc(events, e, WorkSpan(span));
    }
    assert IsDistribution(hourly', hourOf, span, events + [e]) by {
      DistributionAdd(hourly, hourOf, span, events, e);
    }
    assert IsDistribution(daily', dayOf, span, events + [e]) by {
      DistributionAdd(daily, dayOf, span, events, e);
    }
    assert MapSum(hourly') == total + span(e) by {
      MapSumAdd(hourly, hourOf(e), span(e));
    }
    assert MapSum(daily') == total + span(e) by {
      MapSumAdd(daily, dayOf(e), span(e));
    }
  }

  /**
   * The loop of `analyzeWorkingHours` for keys `hourOf` and `dayOf`:
   * every unflagged event adds its span to its hour, its weekday and the
   * total.
   */
  method Distribute(hourOf: Event -> int, dayOf: Event -> string, span: Event -> int, events: seq<Event>)
    returns (hourly: map<int, int>, daily: map<string, int>, total: int)
    ensures IsDistribution(hourly, hourOf, span, events)
    ensures IsDistribution(daily, dayOf, span, events)
    ensures total == SumBy(events, WorkSpan(span))
    ensures MapSum(hourly) == total == MapSum(daily)
  {
    hourly, daily, total := map[], map[], 0;
    for i := 0 to |events|
      invariant Distributed(hourly, daily, total, hourOf, dayOf, span, events[..i])
    {
      PrefixSnoc(events, i);
      hourly, daily, total := DistributeOne(hourly, daily, total, hourOf, dayOf, span, events[..i], events[i]);
    }
    assert events[..|events|] == events;
  }

  /** One pass of the loop: an all-day event is skipped, any other adds its span. */
  method DistributeOne(hourly: map<int, int>, daily: map<string, int>, total: int,
                       hourOf: Event -> int, dayOf: Event -> string, span: Event -> int, ghost seen: seq<Event>, e: Event)
    returns (hourly': map<int, int>, daily': map<string, int>, total': int)
    requires Distributed(hourly, daily, total, hourOf, dayOf, span, seen)
    ensures Distributed(hourly', daily', total', hourOf, dayOf, span, seen + [e])
  {
    if e.isAllDay {
      DistributedSkip(hourly, daily, total, hourOf, dayOf, span, seen, e);
      return hourly, daily, total;
    }
    var duration := span(e);
    var hour := hourOf(e);
    var day := dayOf(e);
    hourly' := hourly[hour := Get(hourly, hour) + duration];
    daily' := daily[day := Get(daily, day) + duration];
    total' := total + duration;
    DistributedAdd(hourly, daily, total, hourOf, dayOf, span, seen, e, hourly', daily', total');
  }

  /** Hours in the distribution are hours of the day. */
  lemma HourlyKeysAreHours(hourly: map<int, int>, events: seq<Event>)
    requires IsDistribution(hourly, HourOf, Span, events)
    ensures forall h :: h in hourly ==> 0 <= h < 24
  {
    forall h | h in hourly ensures 0 <= h < 24 {
      var bucket := Filter(events, InBucket(HourOf, h));
      assert bucket[0] in bucket;
      assert InBucket(HourOf, h)(bucket[0]);
      assert HourOf(bucket[0]) == h;
    }
  }

  /** Days in the distribution are weekday names. */
  lemma DailyKeysAreWeekdays(daily: map<string, int>, events: seq<Event>)
    requires IsDistribution(daily, DayOf, Span, events)
    ensures forall d :: d in daily ==> exists w :: 0 <= w < 7 && d == WeekdayName(w)
  {
    forall d | d in daily ensures exists w :: 0 <= w < 7 && d == WeekdayName(w) {
      var bucket := Filter(events, InBucket(DayOf, d));
      assert bucket[0] in bucket;
      assert InBucket(DayOf, d)(bucket[0]);
      assert DayOf(bucket[0]) == d;
      var w := Weekday(bucket[0].start);
      assert 0 <= w < 7;
      assert d == WeekdayName(w);
    }
  }

  // ---------------------------------------------------------------------
  // Peak hours
  // ---------------------------------------------------------------------

  datatype HourData = HourData(hour: int, duration: int)

  /** The comparator of the hour list: more time first, equal times by the earlier hour. */
  predicate HourAhead(a: HourData, b: HourData)
  {
    a.duration > b.duration || (a.duration == b.duration && a.hour < b.hour)
  }

  function HourNotBehind(): (HourData, HourData) -> bool
  {
    (a, b) => !HourAhead(b, a)
  }

  lemma HourNotBehindIsTotalPreorder()
    ensures IsTotalPreorder(HourNotBehind())
  {
  }

  /** Hour `a` had more time than hour `b`, or as much and is earlier. */
  predicate Busier(m: map<int, int>, a: int, b: int)
  {
    Get(m, a) > Get(m, b) || (Get(m, a) == Get(m, b) && a < b)
  }

  /**
   * The peak hours of a distribution: the `min(3, n)` busiest hours, in
   * order, each busier than every hour left out.
   */
  ghost predicate IsPeak(peak: seq<int>, m: map<int, int>)
  {
    |peak| == (if |m.Keys| < 3 then |m.Keys| else 3) &&
    (forall i :: 0 <= i < |peak| ==> peak[i] in m) &&
    (forall i, j :: 0 <= i < j < |peak| ==> Busier(m, peak[i], peak[j])) &&
    (forall i, h :: 0 <= i < |peak| && h in m && h !in peak ==> Busier(m, peak[i], h))
  }

  function HourDataHour(d: HourData): int
  {
    d.hour
  }

  /** The hours of a prefix of the sorted list. */
  function Hours(s: seq<HourData>): (r: seq<int>)
    ensures |r| == |s| && forall i :: 0 <= i < |s| ==> r[i] == s[i].hour
  {
    if s == [] then [] else Hours(s[..|s| - 1]) + [s[|s| - 1].hour]
  }

  /**
   * Sorting the hour list of a distribution, in any order it was
   * collected, and keeping its first three hours gives the peak hours.
   */
  lemma PeakOfSorted(m: map<int, int>, list: seq<HourData>, sorted: seq<HourData>, n: nat)
    requires forall d :: d in list ==> d.hour in m && d.duration == m[d.hour]
    requires forall h :: h in m ==> HourData(h, m[h]) in list
    requires forall i, j :: 0 <= i < j < |list| ==> list[i].hour != list[j].hour
    requires |list| == |m.Keys|
    requires multiset(sorted) == multiset(list) && SortedBy(sorted, HourNotBehind())
    requires n == if |sorted| < 3 then |sorted| else 3
    ensures IsPeak(Hours(sorted[..n]), m)
  {
    SortedHoursAhead(list, sorted);
    SortedHoursOfMap(m, list, sorted);
    PeakOfOrdered(m, sorted, n);
  }

  /** The first `n` hours of a list strictly ordered by the comparator and holding the whole map are its peak. */
  lemma PeakOfOrdered(m: map<int, int>, sorted: seq<HourData>, n: nat)
    requires forall i, j :: 0 <= i < j < |sorted| ==> HourAhead(sorted[i], sorted[j])
    requires forall i :: 0 <= i < |sorted| ==> sorted[i].hour in m && sorted[i].duration == m[sorted[i].hour]
    requires forall h :: h in m ==> HourData(h, m[h]) in sorted
    requires |sorted| == |m.Keys| && n == if |sorted| < 3 then |sorted| else 3
    ensures IsPeak(Hours(sorted[..n]), m)
  {
    var peak := Hours(sorted[..n]);
    assert forall i :: 0 <= i < n ==> peak[i] == sorted[i].hour;
    forall i, j | 0 <= i < j < |peak| ensures Busier(m, peak[i], peak[j]) {
      assert HourAhead(sorted[i], sorted[j]);
    }
    forall i, h | 0 <= i < |peak| && h in m && h !in peak ensures Busier(m, peak[i], h) {
      var j := SortedHourIndex(m, sorted, h);
      assert j >= n;
      assert HourAhead(sorted[i], sorted[j]);
    }
  }

  /** Sorted by the comparator, a list with distinct hours is strictly ordered by it. */
  lemma SortedHoursAhead(list: seq<HourData>, sorted: seq<HourData>)
    requires forall i, j :: 0 <= i < j < |list| ==> list[i].hour != list[j].hour
    requires multiset(sorted) == multiset(list) && SortedBy(sorted, HourNotBehind())
    ensures |sorted| == |list|
    ensures forall i, j :: 0 <= i < j < |sorted| ==> HourAhead(sorted[i], sorted[j])
  {
    PermutationDistinct(list, sorted, HourDataHour);
    assert |sorted| == |multiset(sorted)|;
    forall i, j | 0 <= i < j < |sorted| ensures HourAhead(sorted[i], sorted[j]) {
      assert HourDataHour(sorted[i]) != HourDataHour(sorted[j]);
      assert HourNotBehind()(sorted[i], sorted[j]);
    }
  }

  /** The sorted list holds exactly the hours of the map, each with its time. */
  lemma SortedHoursOfMap(m: map<int, int>, list: seq<HourData>, sorted: seq<HourData>)
    requires forall d :: d in list ==> d.hour in m && d.duration == m[d.hour]
    requires forall h :: h in m ==> HourData(h, m[h]) in list
    requires multiset(sorted) == multiset(list)
    ensures forall i :: 0 <= i < |sorted| ==> sorted[i].hour in m && sorted[i].duration == m[sorted[i].hour]
    ensures forall h :: h in m ==> HourData(h, m[h]) in sorted
  {
    forall i | 0 <= i < |sorted| ensures sorted[i].hour in m && sorted[i].duration == m[sorted[i].hour] {
      assert sorted[i] in multiset(sorted);
      assert sorted[i] in list;
    }
    forall h | h in m ensures HourData(h, m[h]) in sorted {
      assert HourData(h, m[h]) in multiset(list);
    }
  }

  /** Where an hour of the map sits in the sorted list. */
  lemma SortedHourIndex(m: map<int, int>, sorted: seq<HourData>, h: int) returns (j: nat)
    requires forall h :: h in m ==> HourData(h, m[h]) in sorted
    requires h in m
    ensures j < |sorted| && sorted[j] == HourData(h, m[h])
  {
    assert HourData(h, m[h]) in sorted;
    j :| 0 <= j < |sorted| && sorted[j] == HourData(h, m[h]);
  }

  /** The hour list built from the keys of a map in some order. */
  lemma HourListOfKeys(m: map<int, int>, hours: seq<int>, list: seq<HourData>)
    requires forall k :: k in hours <==> k in m
    requires Distinct(hours)
    requires |list| == |hours|
    requires forall j :: 0 <= j < |hours| ==> hours[j] in m && list[j] == HourData(hours[j], m[hours[j]])
    ensures forall d :: d in list ==> d.hour in m && d.duration == m[d.hour]
    ensures forall h :: h in m ==> HourData(h, m[h]) in list
    ensures forall i, j :: 0 <= i < j < |list| ==> list[i].hour != list[j].hour
    ensures |list| == |m.Keys|
  {
    assert forall x :: x in hours <==> x in m.Keys;
    DistinctCardinality(hours, m.Keys);
    forall h | h in m ensures HourData(h, m[h]) in list {
      var j :| 0 <= j < |hours| && hours[j] == h;
      assert list[j] == HourData(h, m[h]);
    }
  }

  /** The loop that lists each hour of `hours` with its time. */
  method HourList(hourly: map<int, int>, hours: seq<int>) returns (hourList: seq<HourData>)
    requires forall j :: 0 <= j < |hours| ==> hours[j] in hourly
    ensures |hourList| == |hours|
    ensures forall j :: 0 <= j < |hours| ==> hours[j] in hourly && hourList[j] == HourData(hours[j], hourly[hours[j]])
  {
    hourList := [];
    for i := 0 to |hours|
      invariant |hourList| == i
      invariant forall j :: 0 <= j < i ==> hourList[j] == HourData(hours[j], hourly[hours[j]])
    {
      hourList := hourList + [HourData(hours[i], hourly[hours[i]])];
    }
  }

  /** The loop that keeps the hours of the first (at most) three entries. */
  method FirstHours(sorted: seq<HourData>) returns (peak: seq<int>, n: nat)
    ensures n == if |sorted| < 3 then |sorted| else 3
    ensures peak == Hours(sorted[..n])
  {
    peak, n := [], 0;
    while n < |sorted| && n < 3
      invariant n <= |sorted| && n <= 3
      invariant peak == Hours(sorted[..n])
    {
      assert sorted[..n + 1][..n] == sorted[..n];
      peak := peak + [sorted[n].hour];
      n := n + 1;
    }
  }

  /**
   * The second half of `analyzeWorkingHours`: the hours of the
   * distribution are collected in map order (any order), sorted by the
   * comparator and the first three kept.
   */
  method PeakHours(hourly: map<int, int>) returns (peak: seq<int>)
    ensures IsPeak(peak, hourly)
  {
    var hours := MapKeys(hourly);
    var hourList := HourList(hourly, hours);
    HourListOfKeys(hourly, hours, hourList);
    HourNotBehindIsTotalPreorder();
    var sorted := SortBy(hourList, HourNotBehind());
    var n;
    peak, n := FirstHours(sorted);
    PeakOfSorted(hourly, hourList, sorted, n);
  }

  /**
   * `analyzeWorkingHours`: each unflagged event's raw span is added to the
   * hour it starts at, the weekday it starts on and the total, so both
   * distributions add up to the total; the peak hours are the (at most
   * three) busiest hours.
   */
  method AnalyzeWorkingHours(events: seq<Event>) returns (stats: WorkingHoursStats)
    ensures IsDistribution(stats.hourlyDistribution, HourOf, Span, events)
    ensures IsDistribution(stats.dailyDistribution, DayOf, Span, events)
    ensures stats.totalWorkingHours == SumBy(events, WorkSpan(Span))
    ensures MapSum(stats.hourlyDistribution) == stats.totalWorkingHours == MapSum(stats.dailyDistribution)
    ensures IsPeak(stats.peakHours, stats.hourlyDistribution)
  {
    var hourly, daily, total := Distribute(HourOf, DayOf, Span, events);
    var peak := PeakHours(hourly);
    stats := WorkingHoursStats(hourly, daily, peak, total);
  }

  // ---------------------------------------------------------------------
  // Durations as text
  // ---------------------------------------------------------------------

  /**
   * `formatDuration`: whole hours (truncated) and the minutes past them
   * (truncated, so negative for a negative duration) as "<h>h<m>m", or
   * "<m>m" when there is no positive whole hour.
   */
  function FormatDuration(d: int): (r: string)
    ensures HasSuffix(r, "m")
    ensures 'h' in r <==> d >= SecondsPerHour
  {
    var hours := TruncDiv(d, SecondsPerHour);
    var minutes := TruncMod(TruncDiv(d, SecondsPerMinute), 60);
    DurationTextMarker(hours, minutes);
    DurationText(hours, minutes)
  }

  /**
   * A non-negative duration's text determines its whole minutes: the
   * hours before the `h`, if any, and the minutes before the `m`.
   */
  lemma FormatDurationInjective(d: int, e: int)
    requires d >= 0 && e >= 0
    requires FormatDuration(d) == FormatDuration(e)
    ensures d / SecondsPerMinute == e / SecondsPerMinute
  {
    var hd, md := DurationFields(d);
    var he, me := DurationFields(e);
    HoursMinutesInjective(hd, md, he, me);
  }

  /** A non-negative duration's whole hours and the minutes past them, as its text shows them. */
  lemma DurationFields(d: int) returns (h: int, m: int)
    requires d >= 0
    ensures h >= 0 && 0 <= m < 60 && d / SecondsPerMinute == h * 60 + m
    ensures FormatDuration(d) == DurationText(h, m)
  {
    h := TruncDiv(d, SecondsPerHour);
    var q := TruncDiv(d, SecondsPerMinute);
    m := TruncMod(q, 60);
    var h' := TruncDiv(q, 60);
    assert h' * 3600 <= d < (h' + 1) * 3600;
    assert h' == h;
    assert q == d / SecondsPerMinute;
  }

  /** The text `formatDuration` writes for whole hours and minutes. */
  function DurationText(h: int, m: int): string
  {
    if h > 0 then IntToDecimal(h) + "h" + IntToDecimal(m) + "m" else IntToDecimal(m) + "m"
  }

  /** The text holds an 'h' exactly when there are whole hours, and it splits there. */
  lemma DurationTextMarker(h: int, m: int)
    ensures HasSuffix(DurationText(h, m), "m")
    ensures ('h' in DurationText(h, m)) <==> h > 0
    ensures h > 0 ==> DurationText(h, m) == IntToDecimal(h) + ['h'] + (IntToDecimal(m) + "m") && 'h' !in IntToDecimal(h)
    ensures h <= 0 ==> DurationText(h, m)[..|DurationText(h, m)| - 1] == IntToDecimal(m)
  {
    var t := DurationText(h, m);
    IntToDecimalChars(h);
    IntToDecimalChars(m);
    if h > 0 {
      assert t == IntToDecimal(h) + ['h'] + (IntToDecimal(m) + "m");
      assert 'h' in t by {
        assert t[|IntToDecimal(h)|] == 'h';
      }
    } else {
      assert t == IntToDecimal(m) + ['m'];
    }
  }

  /** The "<h>h<m>m" / "<m>m" text of non-negative hours and minutes determines both. */
  lemma HoursMinutesInjective(h: int, m: int, h': int, m': int)
    requires h >= 0 && m >= 0 && h' >= 0 && m' >= 0
    requires DurationText(h, m) == DurationText(h', m')
    ensures h == h' && m == m'
  {
    DurationTextMarker(h, m);
    DurationTextMarker(h', m');
    if h > 0 {
      SplitAtMarker(IntToDecimal(h), IntToDecimal(m) + "m", IntToDecimal(h'), IntToDecimal(m') + "m", 'h');
      IntToDecimalInjective(h, h');
      assert IntToDecimal(m) == (IntToDecimal(m) + "m")[..|IntToDecimal(m)|];
      assert IntToDecimal(m') == (IntToDecimal(m') + "m")[..|IntToDecimal(m')|];
      IntToDecimalInjective(m, m');
    } else {
      IntToDecimalInjective(m, m');
    }
  }
}
