/**
 * The stand-alone Notion command: the page title lookup, its own search
 * filter (a one-day margin on both dates, no early stop), the choice of
 * the user to report on, the time ordering of the two page lists and the
 * per-day activity counts. Pages, users and the search responses are the
 * analyzer's.
 */
module NotionCli {
  import opened Wrappers
  import opened Text
  import opened Collections
  import opened Tallies
  import opened Timestamps
  import opened NotionAnalyzer

  // ---------------------------------------------------------------------
  // Page titles
  // ---------------------------------------------------------------------

  /** A property whose lower-cased name is "title" or "name". */
  predicate IsTitleKey(key: string)
  {
    Lower(key) == "title" || Lower(key) == "name"
  }

  /** The property `key` is a title property with a readable first `plain_text`. */
  predicate HasTitleAt(properties: map<string, Option<string>>, key: string)
  {
    key in properties && IsTitleKey(key) && properties[key].Some?
  }

  /** The text of the first title property met in `order`, if any. */
  function FirstTitle(properties: map<string, Option<string>>, order: seq<string>): (r: Option<string>)
    ensures r.None? <==> forall i :: 0 <= i < |order| ==> !HasTitleAt(properties, order[i])
    ensures r.Some? ==> exists i :: 0 <= i < |order| && HasTitleAt(properties, order[i]) &&
                                    r.value == properties[order[i]].value &&
                                    forall j :: 0 <= j < i ==> !HasTitleAt(properties, order[j])
  {
    if order == [] then None
    else if HasTitleAt(properties, order[0]) then Some(properties[order[0]].value)
    else
      var rest := FirstTitle(properties, order[1..]);
      assert forall i :: 1 <= i < |order| ==> order[i] == order[1..][i - 1];
      if rest.Some? then
        var i :| 0 <= i < |order[1..]| && HasTitleAt(properties, order[1..][i]) &&
                 rest.value == properties[order[1..][i]].value &&
                 forall j :: 0 <= j < i ==> !HasTitleAt(properties, order[1..][j]);
        assert forall j :: 0 <= j < i + 1 ==> !HasTitleAt(properties, order[j]);
        rest
      else rest
  }

  /**
   * `extractPageTitle` of the command, ranging over the properties in the
   * order `order`: the first `plain_text` of a "title"/"name" property,
   * else "Page " and the first 8 characters of the page id (which panics
   * on a shorter id, so a page without a title needs one of 8 or more).
   */
  function ExtractPageTitle(page: Page, order: seq<string>): (r: string)
    requires ListsKeys(order, page.properties)
    requires (exists k :: HasTitleAt(page.properties, k)) || |page.id| >= 8
    ensures (exists k :: HasTitleAt(page.properties, k)) ==>
      exists k :: HasTitleAt(page.properties, k) && r == page.properties[k].value
    ensures (forall k :: !HasTitleAt(page.properties, k)) ==> r == "Page " + page.id[..8]
  {
    match FirstTitle(page.properties, order)
    case Some(title) => title
    case None =>
      "Page " + page.id[..8]
  }

  /** With at most one title text among the properties, the range order does not matter. */
  lemma TitleIndependentOfOrder(page: Page, order: seq<string>, order': seq<string>)
    requires ListsKeys(order, page.properties) && ListsKeys(order', page.properties)
    requires (exists k :: HasTitleAt(page.properties, k)) || |page.id| >= 8
    requires forall k, k' :: HasTitleAt(page.properties, k) && HasTitleAt(page.properties, k') ==>
      page.properties[k].value == page.properties[k'].value
    ensures ExtractPageTitle(page, order) == ExtractPageTitle(page, order')
  {
  }

  // ---------------------------------------------------------------------
  // Searching
  // ---------------------------------------------------------------------

  /** The command's date range: created or last edited in (start, end + 1 day). */
  predicate InCliRange(p: Page, startDate: Timestamp, endDate: Timestamp)
  {
    InWindow(p.createdTime, startDate, endDate, 1) || InWindow(p.lastEditedTime, startDate, endDate, 1)
  }

  function CliWanted(user: string, startDate: Timestamp, endDate: Timestamp): Page -> bool
  {
    (p: Page) => Involves(p, user) && InCliRange(p, startDate, endDate)
  }

  /** Every page the command keeps from a response, the analyzer keeps too (its edit window is wider). */
  lemma CliWantedIsWanted(user: string, startDate: Timestamp, endDate: Timestamp, p: Page)
    ensures CliWanted(user, startDate, endDate)(p) ==> WantedBy(user, startDate, endDate)(p)
  {
  }

  /** The loop over one response's results: the pages that pass `wanted`, in order. */
  method KeepWanted(results: seq<SearchResult>, wanted: Page -> bool) returns (kept: seq<Page>)
    ensures kept == Filter(PagesOf(results), wanted)
  {
    kept := [];
    for i := 0 to |results|
      invariant kept == Filter(PagesOf(results[..i]), wanted)
    {
      assert results[..i + 1] == results[..i] + [results[i]];
      FilterPagesSnoc(results[..i], results[i], wanted);
      if results[i].PageResult? && wanted(results[i].page) {
        kept := kept + [results[i].page];
      }
    }
    assert results[..|results|] == results;
  }

  /**
   * `searchPages` of the command: it reads responses until one says there
   * are no more, keeping the pages the user is involved in that fall in
   * the range.
   */
  method SearchAllPages(responses: seq<SearchResponse>, user: string, startDate: Timestamp, endDate: Timestamp)
    returns (allPages: seq<Page>, requests: nat)
    ensures requests <= |responses|
    ensures requests == |responses| || (requests >= 1 && !responses[requests - 1].hasMore)
    ensures forall n :: 0 <= n < requests - 1 ==> responses[n].hasMore
    ensures allPages == KeptPages(responses, requests, CliWanted(user, startDate, endDate))
  {
    var wanted := CliWanted(user, startDate, endDate);
    allPages, requests := [], 0;
    while requests < |responses|
      invariant requests <= |responses|
      invariant forall n :: 0 <= n < requests ==> responses[n].hasMore
      invariant allPages == KeptPages(responses, requests, wanted)
    {
      var response := responses[requests];
      var kept := KeepWanted(response.results, wanted);
      allPages := allPages + kept;
      requests := requests + 1;
      if !response.hasMore {
        return;
      }
    }
  }

  // ---------------------------------------------------------------------
  // The user reported on
  // ---------------------------------------------------------------------

  /**
   * The detected workspace user when detection found one that differs
   * from the token's user, else the token's user: so a detected id always
   * wins, and an empty one never does.
   */
  function TargetUserId(detected: string, current: string): (r: string)
    ensures detected != "" ==> r == detected
    ensures detected == "" ==> r == current
  {
    if detected != "" && detected != current then detected else current
  }

  // ---------------------------------------------------------------------
  // Ordering and daily activity
  // ---------------------------------------------------------------------

  function CreatedAt(p: Page): Timestamp
  {
    p.createdTime
  }

  function EditedAt(p: Page): Timestamp
  {
    p.lastEditedTime
  }

  /** `!time(b).Before(time(a))`: `a` may come first. */
  function NotLaterBy(time: Page -> Timestamp): (Page, Page) -> bool
  {
    (a: Page, b: Page) => !Before(time(b), time(a))
  }

  lemma NotLaterByIsTotalPreorder(time: Page -> Timestamp)
    ensures IsTotalPreorder(NotLaterBy(time))
  {
  }

  /**
   * The pages sorted with `sort.Slice` by a time: a permutation whose
   * times never decrease.
   */
  function SortedByTime(pages: seq<Page>, time: Page -> Timestamp): (r: seq<Page>)
    ensures multiset(r) == multiset(pages)
    ensures forall i, j :: 0 <= i < j < |r| ==> Instant(time(r[i])) <= Instant(time(r[j]))
  {
    NotLaterByIsTotalPreorder(time);
    var r := SortBy(pages, NotLaterBy(time));
    assert forall i, j :: 0 <= i < j < |r| ==> NotLaterBy(time)(r[i], r[j]);
    r
  }

  /** The dates (`Format("2006-01-02")`) of the pages' times, in order. */
  function DayKeys(pages: seq<Page>, time: Page -> Timestamp): (r: seq<string>)
    requires forall p :: p in pages ==> Valid(time(p))
    ensures |r| == |pages|
    decreases |pages|
  {
    if pages == [] then []
    else DayKeys(pages[..|pages| - 1], time) + [DateKey(time(pages[|pages| - 1]))]
  }

  /** The loop that counts one list of pages into the daily map. */
  method CountDays(daily: map<string, int>, ghost dates: seq<string>, pages: seq<Page>, time: Page -> Timestamp)
    returns (daily': map<string, int>)
    requires forall p :: p in pages ==> Valid(time(p))
    requires IsTally(daily, dates, Itself)
    ensures IsTally(daily', dates + DayKeys(pages, time), Itself)
  {
    daily' := daily;
    assert dates + DayKeys(pages[..0], time) == dates;
    for i := 0 to |pages|
      invariant IsTally(daily', dates + DayKeys(pages[..i], time), Itself)
    {
      var date := DateKey(time(pages[i]));
      assert pages[..i + 1][..i] == pages[..i];
      assert dates + DayKeys(pages[..i + 1], time) == dates + DayKeys(pages[..i], time) + [date];
      TallyStep(daily', dates + DayKeys(pages[..i], time), Itself, date);
      daily' := daily'[date := Get(daily', date) + 1];
    }
    assert pages[..|pages|] == pages;
  }

  /**
   * The per-day activity: created pages counted on their creation date,
   * updated pages on their last edit date, and the dates listed in
   * ascending order.
   */
  method DailyActivity(created: seq<Page>, updated: seq<Page>)
    returns (daily: map<string, int>, sortedDates: seq<string>)
    requires forall p :: p in created ==> Valid(p.createdTime)
    requires forall p :: p in updated ==> Valid(p.lastEditedTime)
    ensures IsTally(daily, DayKeys(created, CreatedAt) + DayKeys(updated, EditedAt), Itself)
    ensures MapSum(daily) == |created| + |updated|
    ensures StrictlyAscending(sortedDates) && forall d :: d in sortedDates <==> d in daily
  {
    daily := CountDays(map[], [], created, CreatedAt);
    assert [] + DayKeys(created, CreatedAt) == DayKeys(created, CreatedAt);
    daily := CountDays(daily, DayKeys(created, CreatedAt), updated, EditedAt);
    TallyTotal(daily, DayKeys(created, CreatedAt) + DayKeys(updated, EditedAt), Itself);
    sortedDates := [];
    if |daily| > 0 {
      sortedDates := SortedKeyList(daily);
    }
  }
}
