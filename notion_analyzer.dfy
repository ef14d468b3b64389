/**
 * The Notion activity analyzer's bookkeeping: which search results are
 * kept and when paging stops, which pages the user created and which they
 * only edited, which user a sample of pages most likely belongs to, and the
 * category, hour and weekday counts over the user's pages. The Notion API
 * responses are inputs.
 */
module NotionAnalyzer {
  import opened Wrappers
  import opened Text
  import opened Collections
  import opened Tallies
  import opened Timestamps
  import CategorizationConfig

  datatype User = User(id: string, name: string)

  /**
   * A page of the search results. `properties` holds, for each property
   * name, the `plain_text` of the first element of its `title` array when
   * there is one (the only part of a property the title lookup reads).
   */
  datatype Page = Page(
    id: string,
    createdTime: Timestamp,
    lastEditedTime: Timestamp,
    createdBy: User,
    lastEditedBy: User,
    title: string,
    properties: map<string, Option<string>>)

  /** One element of a search response: a page, or anything else (another object, or JSON that does not parse). */
  datatype SearchResult = PageResult(page: Page) | OtherResult

  datatype SearchResponse = SearchResponse(results: seq<SearchResult>, hasMore: bool)

  /** The pages among the results, in order. */
  function PagesOf(results: seq<SearchResult>): (r: seq<Page>)
    ensures |r| <= |results|
    decreases |results|
  {
    if results == [] then []
    else
      var last := results[|results| - 1];
      PagesOf(results[..|results| - 1]) + (if last.PageResult? then [last.page] else [])
  }

  /** The pages of one more result. */
  lemma PagesOfSnoc(results: seq<SearchResult>, x: SearchResult)
    ensures x.PageResult? ==> PagesOf(results + [x]) == PagesOf(results) + [x.page]
    ensures !x.PageResult? ==> PagesOf(results + [x]) == PagesOf(results)
  {
    assert (results + [x])[..|results|] == results;
    if !x.PageResult? {
      assert PagesOf(results) + [] == PagesOf(results);
    }
  }

  /** `NOTION_USER_ID` when it is set, otherwise the user found by detection. */
  function SpecifiedUserId(envUserId: string, userId: string): (r: string)
    ensures r == envUserId || (envUserId == "" && r == userId)
  {
    if envUserId != "" then envUserId else userId
  }

  // ---------------------------------------------------------------------
  // Searching
  // ---------------------------------------------------------------------

  const MaxConsecutiveOldPages := 500

  /** `t.After(startDate) && t.Before(endDate.AddDate(0, 0, days))` on UTC times. */
  predicate InWindow(t: Timestamp, startDate: Timestamp, endDate: Timestamp, days: int)
  {
    After(t, startDate) && Instant(t) < Instant(endDate) + days * SecondsPerDay
  }

  /**
   * The search's date range: created in (start, end + 1 day), or last
   * edited in (start, end + 11 days) — the end pushed 10 days further for
   * edits.
   */
  predicate InSearchRange(p: Page, startDate: Timestamp, endDate: Timestamp)
  {
    InWindow(p.createdTime, startDate, endDate, 1) || InWindow(p.lastEditedTime, startDate, endDate, 11)
  }

  function InSearchRangeOf(startDate: Timestamp, endDate: Timestamp): Page -> bool
  {
    (p: Page) => InSearchRange(p, startDate, endDate)
  }

  /** The user created the page or edited it last. */
  predicate Involves(p: Page, user: string)
  {
    p.createdBy.id == user || p.lastEditedBy.id == user
  }

  function WantedBy(user: string, startDate: Timestamp, endDate: Timestamp): Page -> bool
  {
    (p: Page) => InSearchRange(p, startDate, endDate) && Involves(p, user)
  }

  /** Every page the search keeps is in range. */
  lemma WantedIsInRange(user: string, startDate: Timestamp, endDate: Timestamp)
    ensures forall p :: WantedBy(user, startDate, endDate)(p) ==> InSearchRangeOf(startDate, endDate)(p)
  {
  }

  /**
   * The loop over one response's results, for a range test `inRange` and a
   * stricter test `wanted` (in range and involving the user): pages in
   * range are counted, and the wanted ones are kept.
   */
  method FilterResponse(results: seq<SearchResult>, wanted: Page -> bool, inRange: Page -> bool)
    returns (kept: seq<Page>, pagesInRange: nat)
    requires forall p :: wanted(p) ==> inRange(p)
    ensures kept == Filter(PagesOf(results), wanted)
    ensures pagesInRange == |Filter(PagesOf(results), inRange)|
    ensures |kept| <= pagesInRange
  {
    kept, pagesInRange := [], 0;
    ghost var counted: seq<Page> := [];
    for i := 0 to |results|
      invariant kept == Filter(PagesOf(results[..i]), wanted)
      invariant counted == Filter(PagesOf(results[..i]), inRange)
      invariant pagesInRange == |counted|
    {
      assert results[..i + 1] == results[..i] + [results[i]];
      FilterPagesSnoc(results[..i], results[i], wanted);
      FilterPagesSnoc(results[..i], results[i], inRange);
      if results[i].PageResult? {
        var page := results[i].page;
        if inRange(page) {
          pagesInRange := pagesInRange + 1;
          counted := counted + [page];
          if wanted(page) {
            kept := kept + [page];
          }
        }
      }
    }
    assert results[..|results|] == results;
    FilterMonotone(PagesOf(results), wanted, inRange);
  }

  /** The pages of one more result that pass a test. */
  lemma FilterPagesSnoc(results: seq<SearchResult>, x: SearchResult, p: Page -> bool)
    ensures Filter(PagesOf(results + [x]), p) ==
            Filter(PagesOf(results), p) + (if x.PageResult? && p(x.page) then [x.page] else [])
  {
    PagesOfSnoc(results, x);
    if x.PageResult? {
      FilterSnoc(PagesOf(results), x.page, p);
    } else {
      assert Filter(PagesOf(results), p) + [] == Filter(PagesOf(results), p);
    }
  }

  /** The number of pages of a response that are in range. */
  function InRangeCount(response: SearchResponse, inRange: Page -> bool): nat
  {
    |Filter(PagesOf(response.results), inRange)|
  }

  /** `consecutiveOldPages` after a response: grown by its size when nothing was in range, else reset. */
  function NextConsecutive(consecutive: int, response: SearchResponse, pagesInRange: int): int
  {
    if pagesInRange == 0 then consecutive + |response.results| else 0
  }

  /** `consecutiveOldPages` after the first `n` responses. */
  function ConsecutiveAfter(responses: seq<SearchResponse>, n: nat, inRange: Page -> bool): int
    requires n <= |responses|
  {
    if n == 0 then 0
    else NextConsecutive(ConsecutiveAfter(responses, n - 1, inRange), responses[n - 1],
      InRangeCount(responses[n - 1], inRange))
  }

  /** The search stops after the `n`-th response: enough results out of range in a row, or no more pages. */
  predicate StopsAfter(responses: seq<SearchResponse>, n: nat, inRange: Page -> bool)
    requires 1 <= n <= |responses|
  {
    ConsecutiveAfter(responses, n, inRange) >= MaxConsecutiveOldPages || !responses[n - 1].hasMore
  }

  /** The search goes on after each of the first `k` responses. */
  predicate GoesOnAfter(responses: seq<SearchResponse>, k: nat, inRange: Page -> bool)
    requires k <= |responses|
  {
    k == 0 || (GoesOnAfter(responses, k - 1, inRange) && !StopsAfter(responses, k, inRange))
  }

  /** The pages kept from the first `n` responses, in order. */
  function KeptPages(responses: seq<SearchResponse>, n: nat, wanted: Page -> bool): seq<Page>
    requires n <= |responses|
  {
    if n == 0 then []
    else
      KeptPages(responses, n - 1, wanted) + Filter(PagesOf(responses[n - 1].results), wanted)
  }

  /**
   * The paging loop of `searchPages` over the responses the API returns
   * in turn, for the range test `inRange` and the stricter test `wanted`:
   * it stops after the first response at which the stop rule holds (or
   * when no response is left), having kept the wanted pages of every
   * response read.
   */
  method CollectPages(responses: seq<SearchResponse>, wanted: Page -> bool, inRange: Page -> bool)
    returns (allPages: seq<Page>, requests: nat)
    requires forall p :: wanted(p) ==> inRange(p)
    ensures requests <= |responses|
    ensures requests == |responses| || (requests >= 1 && StopsAfter(responses, requests, inRange))
    ensures requests == 0 || GoesOnAfter(responses, requests - 1, inRange)
    ensures allPages == KeptPages(responses, requests, wanted)
  {
    allPages, requests := [], 0;
    var consecutiveOldPages := 0;
    while requests < |responses|
      invariant requests <= |responses|
      invariant consecutiveOldPages == ConsecutiveAfter(responses, requests, inRange)
      invariant GoesOnAfter(responses, requests, inRange)
      invariant allPages == KeptPages(responses, requests, wanted)
    {
      var response := responses[requests];
      var kept, pagesInRange := FilterResponse(response.results, wanted, inRange);
      CollectStep(responses, requests, wanted, inRange);
      allPages := allPages + kept;
      consecutiveOldPages := NextConsecutive(consecutiveOldPages, response, pagesInRange);
      requests := requests + 1;
      if consecutiveOldPages >= MaxConsecutiveOldPages || !response.hasMore {
        return;
      }
    }
  }

  /** What reading response `k` adds to the kept pages, the counter and the stop rule. */
  lemma CollectStep(responses: seq<SearchResponse>, k: nat, wanted: Page -> bool, inRange: Page -> bool)
    requires k < |responses|
    ensures KeptPages(responses, k + 1, wanted) ==
            KeptPages(responses, k, wanted) + Filter(PagesOf(responses[k].results), wanted)
    ensures ConsecutiveAfter(responses, k + 1, inRange) ==
            NextConsecutive(ConsecutiveAfter(responses, k, inRange), responses[k], InRangeCount(responses[k], inRange))
    ensures StopsAfter(responses, k + 1, inRange) <==>
            ConsecutiveAfter(responses, k + 1, inRange) >= MaxConsecutiveOldPages || !responses[k].hasMore
  {
  }

  /**
   * `searchPages`: the pages in the date range that the user (from
   * `NOTION_USER_ID`, else the detected one) created or edited last,
   * paging until the stop rule holds.
   */
  method SearchPages(responses: seq<SearchResponse>, envUserId: string, userId: string,
                     startDate: Timestamp, endDate: Timestamp)
    returns (allPages: seq<Page>, requests: nat)
    ensures requests <= |responses|
    ensures requests == |responses| ||
            (requests >= 1 && StopsAfter(responses, requests, InSearchRangeOf(startDate, endDate)))
    ensures requests == 0 || GoesOnAfter(responses, requests - 1, InSearchRangeOf(startDate, endDate))
    ensures allPages == KeptPages(responses, requests, WantedBy(SpecifiedUserId(envUserId, userId), startDate, endDate))
  {
    var user := SpecifiedUserId(envUserId, userId);
    WantedIsInRange(user, startDate, endDate);
    allPages, requests := CollectPages(responses, WantedBy(user, startDate, endDate), InSearchRangeOf(startDate, endDate));
  }

  /** A response with a page in range resets the counter, so only its `HasMore` can stop the search there. */
  lemma InRangeResponseResets(responses: seq<SearchResponse>, n: nat, inRange: Page -> bool)
    requires 1 <= n <= |responses| && InRangeCount(responses[n - 1], inRange) > 0
    ensures ConsecutiveAfter(responses, n, inRange) == 0
    ensures StopsAfter(responses, n, inRange) <==> !responses[n - 1].hasMore
  {
  }

  function ResultCount(response: SearchResponse): int
  {
    |response.results|
  }

  /** The trailing responses that had no page in range. */
  function OldRun(responses: seq<SearchResponse>, inRange: Page -> bool): (r: seq<SearchResponse>)
    ensures forall x :: x in r ==> InRangeCount(x, inRange) == 0
    decreases |responses|
  {
    if responses == [] then []
    else
      var last := responses[|responses| - 1];
      if InRangeCount(last, inRange) == 0 then OldRun(responses[..|responses| - 1], inRange) + [last]
      else []
  }

  /** The counter is the number of results since the last response with a page in range. */
  lemma {:induction false} ConsecutiveCountsOldResults(responses: seq<SearchResponse>, n: nat, inRange: Page -> bool)
    requires n <= |responses|
    ensures ConsecutiveAfter(responses, n, inRange) == SumBy(OldRun(responses[..n], inRange), ResultCount)
  {
    if n > 0 {
      ConsecutiveCountsOldResults(responses, n - 1, inRange);
      var prefix := responses[..n];
      assert prefix[..n - 1] == responses[..n - 1];
      var last := responses[n - 1];
      assert prefix[n - 1] == last;
      var before := OldRun(responses[..n - 1], inRange);
      if InRangeCount(last, inRange) == 0 {
        assert OldRun(prefix, inRange) == before + [last];
        SumBySnoc(before, last, ResultCount);
      } else {
        assert OldRun(prefix, inRange) == [];
      }
    }
  }

  // ---------------------------------------------------------------------
  // Detecting the user
  // ---------------------------------------------------------------------

  /** The non-empty creator and last-editor ids of a page, in that order. */
  function PageUserIds(p: Page): (r: seq<string>)
    ensures forall id :: id in r ==> id != ""
    ensures |r| <= 2
  {
    (if p.createdBy.id != "" then [p.createdBy.id] else []) +
    (if p.lastEditedBy.id != "" then [p.lastEditedBy.id] else [])
  }

  /** The user ids of the sampled pages, in the order they are counted. */
  function SampleIds(pages: seq<Page>): (r: seq<string>)
    ensures forall id :: id in r ==> id != ""
    decreases |pages|
  {
    if pages == [] then [] else SampleIds(pages[..|pages| - 1]) + PageUserIds(pages[|pages| - 1])
  }

  lemma SampleIdsSnoc(pages: seq<Page>, p: Page)
    ensures SampleIds(pages + [p]) == SampleIds(pages) + PageUserIds(p)
  {
    assert (pages + [p])[..|pages|] == pages;
  }

  /** One iteration of the counting loop: the page's creator, then its last editor, each when known. */
  method CountPageUsers(counts: map<string, int>, ghost ids: seq<string>, page: Page)
    returns (counts': map<string, int>)
    requires IsTally(counts, ids, Itself)
    ensures IsTally(counts', ids + PageUserIds(page), Itself)
  {
    counts' := counts;
    ghost var seen := ids;
    if page.createdBy.id != "" {
      TallyStep(counts', seen, Itself, page.createdBy.id);
      counts' := counts'[page.createdBy.id := Get(counts', page.createdBy.id) + 1];
      seen := seen + [page.createdBy.id];
    }
    if page.lastEditedBy.id != "" {
      TallyStep(counts', seen, Itself, page.lastEditedBy.id);
      counts' := counts'[page.lastEditedBy.id := Get(counts', page.lastEditedBy.id) + 1];
      seen := seen + [page.lastEditedBy.id];
    }
    assert seen == ids + PageUserIds(page);
  }

  /**
   * `detectActualUserID` over the sampled results: the ids are counted and
   * one with the largest count is returned, or "" when no page names a user.
   */
  method DetectActualUserId(results: seq<SearchResult>) returns (userId: string)
    ensures var ids := SampleIds(PagesOf(results));
      (userId == "" <==> ids == []) &&
      (userId != "" ==> userId in ids && forall k :: Occurrences(ids, Itself, k) <= Occurrences(ids, Itself, userId))
  {
    var counts: map<string, int> := map[];
    for i := 0 to |results|
      invariant IsTally(counts, SampleIds(PagesOf(results[..i])), Itself)
    {
      assert results[..i + 1] == results[..i] + [results[i]];
      PagesOfSnoc(results[..i], results[i]);
      if results[i].PageResult? {
        SampleIdsSnoc(PagesOf(results[..i]), results[i].page);
        counts := CountPageUsers(counts, SampleIds(PagesOf(results[..i])), results[i].page);
      }
    }
    assert results[..|results|] == results;
    userId := PeakKey(counts, "");
    PeakOfTally(counts, SampleIds(PagesOf(results)), userId);
  }

  /** What the peak of a tally of non-empty ids says about the ids. */
  lemma PeakOfTally(counts: map<string, int>, ids: seq<string>, peak: string)
    requires IsTally(counts, ids, Itself)
    requires forall id :: id in ids ==> id != ""
    requires (peak == "" && forall k :: k in counts ==> counts[k] <= 0) ||
             (peak in counts && counts[peak] > 0 && forall k :: k in counts ==> counts[k] <= counts[peak])
    ensures peak == "" <==> ids == []
    ensures peak != "" ==> peak in ids && forall k :: Occurrences(ids, Itself, k) <= Occurrences(ids, Itself, peak)
  {
    forall i | 0 <= i < |ids| ensures ids[i] != "" {
      assert ids[i] in ids;
    }
    if ids != [] {
      OccurrencesPositive(ids, Itself, 0);
      assert Occurrences(ids, Itself, ids[0]) > 0;
      assert ids[0] in counts;
    }
    OccurrencesExist(ids, Itself, peak);
    assert Occurrences(ids, Itself, peak) > 0 <==> peak in counts;
    forall k ensures Occurrences(ids, Itself, k) <= Occurrences(ids, Itself, peak) || peak == "" {
      assert Occurrences(ids, Itself, k) > 0 ==> k in counts;
    }
  }

  // ---------------------------------------------------------------------
  // Created versus updated
  // ---------------------------------------------------------------------

  function CreatedByUser(user: string): Page -> bool
  {
    (p: Page) => p.createdBy.id == user
  }

  function NotCreatedByUser(user: string): Page -> bool
  {
    (p: Page) => p.createdBy.id != user
  }

  /** Last edited by the user, but created by someone else. */
  function UpdatedByUser(user: string): Page -> bool
  {
    (p: Page) => p.lastEditedBy.id == user && p.createdBy.id != user
  }

  /**
   * `categorizePages`: the user's own pages, and the pages the user edited
   * last but did not create, each in the original order. No page is in
   * both lists.
   */
  method CategorizePages(pages: seq<Page>, user: string) returns (created: seq<Page>, updated: seq<Page>)
    ensures created == Filter(pages, CreatedByUser(user))
    ensures updated == Filter(pages, UpdatedByUser(user))
    ensures forall p :: p in created ==> p !in updated
    ensures |created| + |updated| <= |pages|
  {
    created, updated := [], [];
    for i := 0 to |pages|
      invariant created == Filter(pages[..i], CreatedByUser(user))
      invariant updated == Filter(pages[..i], UpdatedByUser(user))
    {
      assert pages[..i + 1] == pages[..i] + [pages[i]];
      FilterSnoc(pages[..i], pages[i], CreatedByUser(user));
      FilterSnoc(pages[..i], pages[i], UpdatedByUser(user));
      var page := pages[i];
      if page.createdBy.id == user {
        created := created + [page];
      }
      if page.lastEditedBy.id == user && page.createdBy.id != user {
        updated := updated + [page];
      }
    }
    assert pages[..|pages|] == pages;
    FilterPartition(pages, CreatedByUser(user), NotCreatedByUser(user));
    FilterMonotone(pages, UpdatedByUser(user), NotCreatedByUser(user));
  }

  // ---------------------------------------------------------------------
  // Category counts
  // ---------------------------------------------------------------------

  datatype CategoryStats = CategoryStats(
    categories: map<string, int>,
    dailyWorkLogs: int,
    meetingNotes: int,
    technicalDocs: int,
    projectPlanning: int)

  const DailyWorkLog := "Daily Work Log"
  const MeetingNotes := "Meeting Notes"
  const TechnicalDocumentation := "Technical Documentation"
  const ProjectPlanning := "Project Planning"
  const Other := "Other"

  /** The `Categories` key a configured Notion category is counted under. */
  function BucketName(category: string): (r: string)
    ensures r in {DailyWorkLog, MeetingNotes, TechnicalDocumentation, ProjectPlanning, Other}
  {
    if category == "daily work log" then DailyWorkLog
    else if category == "meeting notes" then MeetingNotes
    else if category == "technical documentation" then TechnicalDocumentation
    else if category == "project planning" then ProjectPlanning
    else Other
  }

  function BucketOf(category: Page -> string): Page -> string
  {
    (p: Page) => BucketName(category(p))
  }

  /** The configured category of a page, from its lower-cased title. */
  function NotionCategory(c: CategorizationConfig.Config): Page -> string
  {
    (p: Page) => CategorizationConfig.CategorizeNotionPage(c, Lower(p.title))
  }

  /**
   * The counting loop of `analyzeCategoryStats`, for any way of
   * categorising a page: every page lands in exactly one bucket, and each
   * of the four named counters equals its bucket.
   */
  method CountCategories(pages: seq<Page>, category: Page -> string) returns (stats: CategoryStats)
    ensures IsTally(stats.categories, pages, BucketOf(category))
    ensures MapSum(stats.categories) == |pages|
    ensures stats.dailyWorkLogs == Occurrences(pages, BucketOf(category), DailyWorkLog)
    ensures stats.meetingNotes == Occurrences(pages, BucketOf(category), MeetingNotes)
    ensures stats.technicalDocs == Occurrences(pages, BucketOf(category), TechnicalDocumentation)
    ensures stats.projectPlanning == Occurrences(pages, BucketOf(category), ProjectPlanning)
  {
    var categories: map<string, int> := map[];
    var daily, meeting, technical, planning := 0, 0, 0, 0;
    var key := BucketOf(category);
    for i := 0 to |pages|
      invariant IsTally(categories, pages[..i], key)
      invariant daily == Occurrences(pages[..i], key, DailyWorkLog)
      invariant meeting == Occurrences(pages[..i], key, MeetingNotes)
      invariant technical == Occurrences(pages[..i], key, TechnicalDocumentation)
      invariant planning == Occurrences(pages[..i], key, ProjectPlanning)
    {
      var page := pages[i];
      assert pages[..i + 1] == pages[..i] + [page];
      TallyStep(categories, pages[..i], key, page);
      OccurrencesSnoc(pages[..i], page, key, DailyWorkLog);
      OccurrencesSnoc(pages[..i], page, key, MeetingNotes);
      OccurrencesSnoc(pages[..i], page, key, TechnicalDocumentation);
      OccurrencesSnoc(pages[..i], page, key, ProjectPlanning);
      var c := category(page);
      if c == "daily work log" {
        daily := daily + 1;
        categories := categories[DailyWorkLog := Get(categories, DailyWorkLog) + 1];
      } else if c == "meeting notes" {
        meeting := meeting + 1;
        categories := categories[MeetingNotes := Get(categories, MeetingNotes) + 1];
      } else if c == "technical documentation" {
        technical := technical + 1;
        categories := categories[TechnicalDocumentation := Get(categories, TechnicalDocumentation) + 1];
      } else if c == "project planning" {
        planning := planning + 1;
        categories := categories[ProjectPlanning := Get(categories, ProjectPlanning) + 1];
      } else {
        categories := categories[Other := Get(categories, Other) + 1];
      }
    }
    assert pages[..|pages|] == pages;
    TallyTotal(categories, pages, key);
    stats := CategoryStats(categories, daily, meeting, technical, planning);
  }

  /** `analyzeCategoryStats` over the created pages followed by the updated ones. */
  method AnalyzeCategoryStats(c: CategorizationConfig.Config, createdPages: seq<Page>, updatedPages: seq<Page>)
    returns (stats: CategoryStats)
    ensures IsTally(stats.categories, createdPages + updatedPages, BucketOf(NotionCategory(c)))
    ensures MapSum(stats.categories) == |createdPages| + |updatedPages|
    ensures stats.dailyWorkLogs == Get(stats.categories, DailyWorkLog)
    ensures stats.meetingNotes == Get(stats.categories, MeetingNotes)
    ensures stats.technicalDocs == Get(stats.categories, TechnicalDocumentation)
    ensures stats.projectPlanning == Get(stats.categories, ProjectPlanning)
  {
    var allPages := createdPages + updatedPages;
    stats := CountCategories(allPages, NotionCategory(c));
  }

  // ---------------------------------------------------------------------
  // Work patterns
  // ---------------------------------------------------------------------

  datatype WorkPatterns = WorkPatterns(
    hourlyActivity: map<int, int>,
    dailyActivity: map<string, int>,
    peakHour: int,
    peakDay: string)

  /** The hour of the last edit. */
  function EditHour(p: Page): int
  {
    Hour(p.lastEditedTime)
  }

  /** The weekday name of the last edit. */
  function EditDay(p: Page): string
  {
    WeekdayName(Weekday(p.lastEditedTime))
  }

  /**
   * `analyzeWorkPatterns`: the pages counted by hour and by weekday of
   * their last edit, and an hour and a day with the most pages (0 and ""
   * when there are no pages).
   */
  method AnalyzeWorkPatterns(createdPages: seq<Page>, updatedPages: seq<Page>) returns (w: WorkPatterns)
    ensures var pages := createdPages + updatedPages;
      IsTally(w.hourlyActivity, pages, EditHour) && IsTally(w.dailyActivity, pages, EditDay)
    ensures MapSum(w.hourlyActivity) == |createdPages| + |updatedPages|
    ensures MapSum(w.dailyActivity) == |createdPages| + |updatedPages|
    ensures createdPages + updatedPages == [] ==> w.peakHour == 0 && w.peakDay == ""
    ensures createdPages + updatedPages != [] ==>
      w.peakHour in w.hourlyActivity && w.peakDay in w.dailyActivity &&
      (forall h :: h in w.hourlyActivity ==> w.hourlyActivity[h] <= w.hourlyActivity[w.peakHour]) &&
      (forall d :: d in w.dailyActivity ==> w.dailyActivity[d] <= w.dailyActivity[w.peakDay])
  {
    var pages := createdPages + updatedPages;
    var hourly: map<int, int> := map[];
    var daily: map<string, int> := map[];
    for i := 0 to |pages|
      invariant IsTally(hourly, pages[..i], EditHour) && IsTally(daily, pages[..i], EditDay)
    {
      var page := pages[i];
      assert pages[..i + 1] == pages[..i] + [page];
      TallyStep(hourly, pages[..i], EditHour, page);
      TallyStep(daily, pages[..i], EditDay, page);
      var hour := EditHour(page);
      var day := EditDay(page);
      hourly := hourly[hour := Get(hourly, hour) + 1];
      daily := daily[day := Get(daily, day) + 1];
    }
    assert pages[..|pages|] == pages;
    TallyTotal(hourly, pages, EditHour);
    TallyTotal(daily, pages, EditDay);
    var peakHour := PeakKey(hourly, 0);
    var peakDay := PeakKey(daily, "");
    PeakOfNonEmptyTally(hourly, pages, EditHour, peakHour, 0);
    PeakOfNonEmptyTally(daily, pages, EditDay, peakDay, "");
    w := WorkPatterns(hourly, daily, peakHour, peakDay);
  }

  /** A tally of a non-empty list has a positive count, so its peak is one of its keys; an empty one has none. */
  lemma PeakOfNonEmptyTally<K(!new)>(m: map<K, int>, pages: seq<Page>, key: Page -> K, peak: K, none: K)
    requires IsTally(m, pages, key)
    requires (peak == none && forall k :: k in m ==> m[k] <= 0) ||
             (peak in m && m[peak] > 0 && forall k :: k in m ==> m[k] <= m[peak])
    ensures pages == [] ==> peak == none
    ensures pages != [] ==> peak in m && forall k :: k in m ==> m[k] <= m[peak]
  {
    if pages == [] {
      TallyOfNothing(m, pages, key);
    } else {
      OccurrencesPositive(pages, key, 0);
      assert Occurrences(pages, key, key(pages[0])) > 0;
    }
  }

  /** Nothing to count leaves the tally empty. */
  lemma TallyOfNothing<K(!new)>(m: map<K, int>, pages: seq<Page>, key: Page -> K)
    requires IsTally(m, pages, key) && pages == []
    ensures m == map[]
  {
    forall k | k in m ensures false {
      assert Occurrences(pages, key, k) == 0;
    }
  }
}
