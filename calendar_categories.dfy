// Per-category breakdown of calendar events (pkg/calendar/analyzer.go,
// analyzeCategoryStats and categorizeEvent).

module CalendarCategories {
  import opened Wrappers
  import opened Text
  import opened Collections
  import opened Timestamps
  import opened CalendarIcs
  import opened CategorizationConfig
  import opened CalendarStats

  // ---------------------------------------------------------------------
  // Category statistics
  // ---------------------------------------------------------------------

  datatype CategoryInfo = CategoryInfo(count: int, duration: int, events: seq<Event>)

  datatype EventCategoryStats = EventCategoryStats(
    categories: map<string, CategoryInfo>,
    meetingTime: int,
    focusTime: int,
    learningTime: int,
    adminTime: int)

  /** The display name `categorizeEvent` gives to a rule key, if its table has one. */
  function DisplayName(key: string): (r: Option<string>)
    ensures r.Some? ==> r.value != OtherCategory
  {
    if key == "1on1 meetings" then Some("1on1 Meetings")
    else if key == "daily standups" then Some("Daily Standups")
    else if key == "regular meetings" then Some("Regular Meetings")
    else if key == "general meetings" || key == "meeting" then Some("General Meetings")
    else if key == "focus work" || key == "focus" then Some("Focus Work")
    else if key == "technical consultation" then Some("Technical Consultation")
    else if key == "learning & training" || key == "learning" then Some("Learning & Training")
    else if key == "time off" then Some("Time Off")
    else if key == "admin" then Some("Admin Work")
    else None
  }

  const OtherCategory := "Other"

  /** `categorizeEvent`: the display name of the matched rule key; any key outside the table is "Other". */
  function CategorizeEvent(c: Config, title: string): (r: string)
    ensures DisplayName(CategorizeByKeywords(c, title)).Some? ==> r == DisplayName(CategorizeByKeywords(c, title)).value
    ensures r == OtherCategory <==> DisplayName(CategorizeByKeywords(c, title)).None?
  {
    match DisplayName(CategorizeByKeywords(c, title))
    case Some(name) => name
    case None => OtherCategory
  }

  /** The fallback key "other" and the configuration's own category names outside the table all become "Other". */
  lemma FallbackIsOther(c: Config, title: string)
    requires CategorizeByKeywords(c, title) == Fallback
    ensures CategorizeEvent(c, title) == OtherCategory
  {
    assert DisplayName(Fallback) == None by {
      assert |Fallback| == 5 && Fallback[0] == 'o';
    }
  }

  /** The events `analyzeCategoryStats` looks at: all but those with the explicit all-day flag. */
  predicate Unflagged(e: Event)
  {
    !e.isAllDay
  }

  function CategoryOf(c: Config, e: Event): string
  {
    CategorizeEvent(c, Lower(e.summary))
  }

  function Classifier(c: Config): Event -> string
  {
    e => CategoryOf(c, e)
  }

  /** The unflagged events `classify` puts in category `k`. */
  function InCategory(classify: Event -> string, k: string): Event -> bool
  {
    e => Unflagged(e) && classify(e) == k
  }

  /** The time category `GetCategoryTime` gives an event's lower-cased summary. */
  function TimeKind(c: Config): Event -> string
  {
    (e: Event) => GetCategoryTime(c, Lower(e.summary))
  }

  /** What an event adds to one of the four time totals: its span when `kindOf` says `kind`. */
  function KindSpan(kindOf: Event -> string, span: Event -> int, kind: string): Event -> int
  {
    e => if Unflagged(e) && kindOf(e) == kind then span(e) else 0
  }

  function CountsOf(m: map<string, CategoryInfo>): (r: map<string, int>)
    ensures r.Keys == m.Keys && forall k :: k in m ==> r[k] == m[k].count
  {
    map k | k in m :: m[k].count
  }

  /**
   * `m` holds, for each category some unflagged event falls into, those
   * events in order, their number and the sum of their raw spans.
   */
  ghost predicate IsBreakdown(m: map<string, CategoryInfo>, classify: Event -> string, weight: Event -> int, events: seq<Event>)
  {
    (forall k :: k in m <==> Filter(events, InCategory(classify, k)) != []) &&
    (forall k :: k in m ==>
      m[k].events == Filter(events, InCategory(classify, k)) &&
      m[k].count == |m[k].events| &&
      m[k].duration == SumBy(m[k].events, weight))
  }

  /** One more event counted in category `cat`, with its raw span. */
  function AddToCategory(m: map<string, CategoryInfo>, cat: string, e: Event, d: int): map<string, CategoryInfo>
  {
    var info := if cat in m then m[cat] else CategoryInfo(0, 0, []);
    m[cat := CategoryInfo(info.count + 1, info.duration + d, info.events + [e])]
  }

  /** Adding one unflagged event to its category keeps the breakdown. */
  lemma BreakdownStep(m: map<string, CategoryInfo>, classify: Event -> string, weight: Event -> int, events: seq<Event>, e: Event)
    requires IsBreakdown(m, classify, weight, events) && Unflagged(e)
    ensures IsBreakdown(AddToCategory(m, classify(e), e, weight(e)), classify, weight, events + [e])
  {
    forall k ensures Filter(events + [e], InCategory(classify, k)) ==
      Filter(events, InCategory(classify, k)) + (if classify(e) == k then [e] else [])
    {
      FilterSnoc(events, e, InCategory(classify, k));
    }
    BreakdownStepKeys(m, classify, weight, events, e);
    BreakdownStepValues(m, classify, weight, events, e);
  }

  lemma BreakdownStepKeys(m: map<string, CategoryInfo>, classify: Event -> string, weight: Event -> int, events: seq<Event>, e: Event)
    requires IsBreakdown(m, classify, weight, events)
    requires forall k ::
      Filter(events + [e], InCategory(classify, k)) == Filter(events, InCategory(classify, k)) + (if classify(e) == k then [e] else [])
    ensures forall k :: k in AddToCategory(m, classify(e), e, weight(e)) <==> Filter(events + [e], InCategory(classify, k)) != []
  {
  }

  lemma BreakdownStepValues(m: map<string, CategoryInfo>, classify: Event -> string, weight: Event -> int, events: seq<Event>, e: Event)
    requires IsBreakdown(m, classify, weight, events)
    requires forall k ::
      Filter(events + [e], InCategory(classify, k)) == Filter(events, InCategory(classify, k)) + (if classify(e) == k then [e] else [])
    ensures var m' := AddToCategory(m, classify(e), e, weight(e));
      forall k :: k in m' ==>
        m'[k].events == Filter(events + [e], InCategory(classify, k)) &&
        m'[k].count == |m'[k].events| &&
        m'[k].duration == SumBy(m'[k].events, weight)
  {
    var cat := classify(e);
    var m' := AddToCategory(m, cat, e, weight(e));
    forall k | k in m' ensures m'[k].events == Filter(events + [e], InCategory(classify, k)) &&
        m'[k].count == |m'[k].events| && m'[k].duration == SumBy(m'[k].events, weight)
    {
      if k == cat {
        var old_ := if cat in m then m[cat].events else [];
        assert old_ == Filter(events, InCategory(classify, cat));
        assert m'[k].events == old_ + [e];
        SumBySnoc(old_, e, weight);
      } else {
        assert m'[k] == m[k];
      }
    }
  }

  /** A flagged event changes nothing. */
  lemma BreakdownSkip(m: map<string, CategoryInfo>, classify: Event -> string, weight: Event -> int, events: seq<Event>, e: Event)
    requires IsBreakdown(m, classify, weight, events) && !Unflagged(e)
    ensures IsBreakdown(m, classify, weight, events + [e])
  {
    forall k ensures Filter(events + [e], InCategory(classify, k)) == Filter(events, InCategory(classify, k)) {
      FilterSnoc(events, e, InCategory(classify, k));
    }
  }

  /** Adding one to a category's count adds one to the sum of the counts. */
  lemma CountsStep(m: map<string, CategoryInfo>, k: string, e: Event, d: int)
    ensures MapSum(CountsOf(AddToCategory(m, k, e, d))) == MapSum(CountsOf(m)) + 1
  {
    var counts := CountsOf(m);
    assert CountsOf(AddToCategory(m, k, e, d)) == counts[k := Get(counts, k) + 1];
    MapSumAdd(counts, k, 1);
  }

  /**
   * The loop invariant of `analyzeCategoryStats` after `events`: the
   * category breakdown, the counts adding up to the unflagged events, and
   * the four time totals.
   */
  ghost predicate Tallied(m: map<string, CategoryInfo>, t: TimeTotals,
                          classify: Event -> string, kindOf: Event -> string, span: Event -> int, events: seq<Event>)
  {
    IsBreakdown(m, classify, span, events) &&
    MapSum(CountsOf(m)) == |Filter(events, Unflagged)| &&
    t == TotalsOf(events, kindOf, span)
  }

  lemma TalliedSkip(m: map<string, CategoryInfo>, t: TimeTotals,
                    classify: Event -> string, kindOf: Event -> string, span: Event -> int, events: seq<Event>, i: nat)
    requires i < |events| && !Unflagged(events[i])
    requires Tallied(m, t, classify, kindOf, span, events[..i])
    ensures Tallied(m, t, classify, kindOf, span, events[..i + 1])
  {
    UnflaggedStep(events, i);
    TotalsStep(events, i, kindOf, span);
    BreakdownSkip(m, classify, span, events[..i], events[i]);
  }

  lemma TalliedAdd(m: map<string, CategoryInfo>, t: TimeTotals,
                   classify: Event -> string, kindOf: Event -> string, span: Event -> int, events: seq<Event>, i: nat)
    requires i < |events| && Unflagged(events[i])
    requires Tallied(m, t, classify, kindOf, span, events[..i])
    ensures var e := events[i];
      Tallied(AddToCategory(m, classify(e), e, span(e)), AddTime(t, kindOf(e), span(e)),
              classify, kindOf, span, events[..i + 1])
  {
    var e := events[i];
    UnflaggedStep(events, i);
    TotalsStep(events, i, kindOf, span);
    BreakdownStep(m, classify, span, events[..i], e);
    CountsStep(m, classify(e), e, span(e));
  }

  /** The `switch` on the time category: its span goes to the matching total, if there is one. */
  method AddCategoryTime(meeting: int, focus: int, learning: int, admin: int, categoryType: string, duration: int)
    returns (meeting': int, focus': int, learning': int, admin': int)
    ensures TimeTotals(meeting', focus', learning', admin') ==
      AddTime(TimeTotals(meeting, focus, learning, admin), categoryType, duration)
  {
    meeting', focus', learning', admin' := meeting, focus, learning, admin;
    if categoryType == "meeting" {
      meeting' := meeting + duration;
    } else if categoryType == "focus" {
      focus' := focus + duration;
    } else if categoryType == "learning" {
      learning' := learning + duration;
    } else if categoryType == "admin" {
      admin' := admin + duration;
    }
  }

  /**
   * The loop of `analyzeCategoryStats`, for a categoriser `classify`
   * (`categorizeEvent` of the lower-cased summary) and a time categoriser
   * `kindOf` (`GetCategoryTime` of it), with `span` the duration of an
   * event (`End.Sub(Start)`). Flagged events are skipped; every
   * other event is added, with its span, to its category, and its span
   * to the time total its time category names, if any.
   */
  method TallyCategories(classify: Event -> string, kindOf: Event -> string, span: Event -> int, events: seq<Event>)
    returns (stats: EventCategoryStats)
    ensures IsBreakdown(stats.categories, classify, span, events)
    ensures MapSum(CountsOf(stats.categories)) == |Filter(events, Unflagged)|
    ensures stats.meetingTime == SumBy(events, KindSpan(kindOf, span, "meeting"))
    ensures stats.focusTime == SumBy(events, KindSpan(kindOf, span, "focus"))
    ensures stats.learningTime == SumBy(events, KindSpan(kindOf, span, "learning"))
    ensures stats.adminTime == SumBy(events, KindSpan(kindOf, span, "admin"))
  {
    var m: map<string, CategoryInfo> := map[];
    var meeting, focus, learning, admin := 0, 0, 0, 0;
    assert CountsOf(m) == map[];
    for i := 0 to |events|
      invariant Tallied(m, TimeTotals(meeting, focus, learning, admin), classify, kindOf, span, events[..i])
    {
      var e := events[i];
      if e.isAllDay {
        TalliedSkip(m, TimeTotals(meeting, focus, learning, admin), classify, kindOf, span, events, i);
        continue;
      }
      TalliedAdd(m, TimeTotals(meeting, focus, learning, admin), classify, kindOf, span, events, i);
      var duration := span(e);
      var category := classify(e);
      m := AddToCategory(m, category, e, duration);
      var categoryType := kindOf(e);
      meeting, focus, learning, admin := AddCategoryTime(meeting, focus, learning, admin, categoryType, duration);
    }
    assert events[..|events|] == events;
    TotalsAreSums(events, kindOf, span);
    stats := EventCategoryStats(m, meeting, focus, learning, admin);
  }

  lemma TimeKindsDistinct()
    ensures "meeting" != "focus" && "meeting" != "learning" && "meeting" != "admin"
    ensures "focus" != "learning" && "focus" != "admin" && "learning" != "admin"
  {
    assert "focus"[0] != "admin"[0];
  }

  /** The per-event step of the count of unflagged events. */
  lemma UnflaggedStep(events: seq<Event>, i: nat)
    requires i < |events|
    ensures events[..i + 1] == events[..i] + [events[i]]
    ensures |Filter(events[..i + 1], Unflagged)| == |Filter(events[..i], Unflagged)| + (if Unflagged(events[i]) then 1 else 0)
  {
    assert events[..i + 1] == events[..i] + [events[i]];
    FilterSnoc(events[..i], events[i], Unflagged);
  }

  /** The four time totals (meeting, focus, learning, admin) after the events so far. */
  datatype TimeTotals = TimeTotals(meeting: int, focus: int, learning: int, admin: int)

  /** The span `d` of an event of time category `kind` added to its total; other kinds change nothing. */
  function AddTime(t: TimeTotals, kind: string, d: int): TimeTotals
  {
    if kind == "meeting" then t.(meeting := t.meeting + d)
    else if kind == "focus" then t.(focus := t.focus + d)
    else if kind == "learning" then t.(learning := t.learning + d)
    else if kind == "admin" then t.(admin := t.admin + d)
    else t
  }

  /** The totals the loop has built after `events`. */
  function TotalsOf(events: seq<Event>, kindOf: Event -> string, span: Event -> int): (t: TimeTotals)
    decreases |events|
  {
    if events == [] then TimeTotals(0, 0, 0, 0)
    else
      var e := events[|events| - 1];
      var t0 := TotalsOf(events[..|events| - 1], kindOf, span);
      if Unflagged(e) then AddTime(t0, kindOf(e), span(e)) else t0
  }

  /** Each time total is the sum, over the unflagged events of its kind, of their spans. */
  lemma {:induction false} TotalsAreSums(events: seq<Event>, kindOf: Event -> string, span: Event -> int)
    ensures TotalsOf(events, kindOf, span).meeting == SumBy(events, KindSpan(kindOf, span, "meeting"))
    ensures TotalsOf(events, kindOf, span).focus == SumBy(events, KindSpan(kindOf, span, "focus"))
    ensures TotalsOf(events, kindOf, span).learning == SumBy(events, KindSpan(kindOf, span, "learning"))
    ensures TotalsOf(events, kindOf, span).admin == SumBy(events, KindSpan(kindOf, span, "admin"))
    decreases |events|
  {
    if events != [] {
      var init := events[..|events| - 1];
      TotalsAreSums(init, kindOf, span);
      TimeKindsDistinct();
    }
  }

  lemma TotalsStep(events: seq<Event>, i: nat, kindOf: Event -> string, span: Event -> int)
    requires i < |events|
    ensures events[..i + 1][..i] == events[..i]
    ensures TotalsOf(events[..i + 1], kindOf, span) ==
      if Unflagged(events[i]) then AddTime(TotalsOf(events[..i], kindOf, span), kindOf(events[i]), span(events[i]))
      else TotalsOf(events[..i], kindOf, span)
  {
    assert events[..i + 1][..i] == events[..i];
  }

  /**
   * `analyzeCategoryStats`: every unflagged event lands in exactly one
   * category (`categorizeEvent` of its lower-cased summary) with its raw
   * span, so the counts add up to the number of unflagged events; the four
   * time totals collect the raw spans of the events whose `GetCategoryTime`
   * is "meeting", "focus", "learning" or "admin".
   */
  method AnalyzeCategoryStats(c: Config, events: seq<Event>) returns (stats: EventCategoryStats)
    ensures IsBreakdown(stats.categories, Classifier(c), Span, events)
    ensures MapSum(CountsOf(stats.categories)) == |Filter(events, Unflagged)|
    ensures stats.meetingTime == SumBy(events, KindSpan(TimeKind(c), Span, "meeting"))
    ensures stats.focusTime == SumBy(events, KindSpan(TimeKind(c), Span, "focus"))
    ensures stats.learningTime == SumBy(events, KindSpan(TimeKind(c), Span, "learning"))
    ensures stats.adminTime == SumBy(events, KindSpan(TimeKind(c), Span, "admin"))
  {
    stats := TallyCategories(Classifier(c), TimeKind(c), Span, events);
  }

  /** Every unflagged event, including one the heuristic calls all-day, is counted in its category. */
  lemma BreakdownCovers(m: map<string, CategoryInfo>, classify: Event -> string, weight: Event -> int, events: seq<Event>, e: Event)
    requires IsBreakdown(m, classify, weight, events)
    requires e in events && Unflagged(e)
    ensures classify(e) in m && e in m[classify(e)].events
  {
    assert e in Filter(events, InCategory(classify, classify(e)));
  }
}
