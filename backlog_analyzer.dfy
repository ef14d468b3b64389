/**
 * The Backlog analyzer's bookkeeping over the activities the API returns:
 * the configuration check, the date filter and paging stop rule of the
 * activity download, the per-type activity counts with a few examples of
 * unknown types, and the per-kind lists of commented and updated issues
 * and created and updated wikis (one item per id, newest first).
 */
module BacklogAnalyzer {
  import opened Wrappers
  import opened Text
  import opened Collections
  import opened Tallies
  import opened Timestamps
  import opened Numerals
  import opened BacklogProfiles

  /** A value of an activity's `content` object: the only shapes the analyzer looks at. */
  datatype ContentValue = JString(text: string) | JNumber(number: int) | JOther

  datatype Activity = Activity(id: int, activityType: int, content: map<string, ContentValue>, created: Timestamp)

  datatype ActivityItem = ActivityItem(id: int, title: string, created: Timestamp, itemType: string)

  // ---------------------------------------------------------------------
  // Configuration
  // ---------------------------------------------------------------------

  const ApiKeyRequired := "BACKLOG_API_KEY environment variable is required"
  const HostRequired := "BACKLOG_HOST environment variable is required"
  const UserIdRequired := "BACKLOG_USER_ID environment variable is required"
  const ProjectIdRequired := "BACKLOG_PROJECT_ID environment variable is required"

  /**
   * The field checks of `ValidateConfig`: the error for the first empty
   * field in the order API key, host, user, project, or none when the
   * profile is ready for analysis.
   */
  function ValidateConfig(p: BacklogProfile): (r: Option<string>)
    ensures r.None? <==> IsAnalysisReady(p)
    ensures r == Some(ApiKeyRequired) <==> p.apiKey == ""
    ensures r == Some(HostRequired) <==> p.apiKey != "" && p.host == ""
    ensures r == Some(UserIdRequired) <==> IsComplete(p) && p.userId == ""
    ensures r == Some(ProjectIdRequired) <==> IsComplete(p) && p.userId != "" && p.projectId == ""
  {
    if p.apiKey == "" then Some(ApiKeyRequired)
    else if p.host == "" then Some(HostRequired)
    else if p.userId == "" then Some(UserIdRequired)
    else if p.projectId == "" then Some(ProjectIdRequired)
    else None
  }

  // ---------------------------------------------------------------------
  // Downloading activities
  // ---------------------------------------------------------------------

  /** The `count` of every activities request. */
  const PageSize := 100

  /** Created strictly after the start and before the end plus one day. */
  predicate InActivityRange(a: Activity, startDate: Timestamp, endDate: Timestamp)
  {
    After(a.created, startDate) && Instant(a.created) < Instant(endDate) + SecondsPerDay
  }

  function InActivityRangeOf(startDate: Timestamp, endDate: Timestamp): Activity -> bool
  {
    (a: Activity) => InActivityRange(a, startDate, endDate)
  }

  /** The oldest activity of a page (the last one) is older than the start. */
  predicate OldestBefore(page: seq<Activity>, startDate: Timestamp)
    requires page != []
  {
    Before(page[|page| - 1].created, startDate)
  }

  /** The download stops after this page: it is empty, reaches back before the start, or is short. */
  predicate StopsAfterPage(page: seq<Activity>, startDate: Timestamp)
  {
    page == [] || OldestBefore(page, startDate) || |page| < PageSize
  }

  /** The activities kept from the first `n` pages, in order. */
  function KeptActivities(pages: seq<seq<Activity>>, n: nat, inRange: Activity -> bool): seq<Activity>
    requires n <= |pages|
  {
    if n == 0 then [] else KeptActivities(pages, n - 1, inRange) + Filter(pages[n - 1], inRange)
  }

  /** The date filter over one page. */
  method FilterActivities(page: seq<Activity>, inRange: Activity -> bool) returns (filtered: seq<Activity>)
    ensures filtered == Filter(page, inRange)
  {
    filtered := [];
    for i := 0 to |page|
      invariant filtered == Filter(page[..i], inRange)
    {
      assert page[..i + 1] == page[..i] + [page[i]];
      FilterSnoc(page[..i], page[i], inRange);
      if inRange(page[i]) {
        filtered := filtered + [page[i]];
      }
    }
    assert page[..|page|] == page;
  }

  /**
   * The paging loop of `getUserActivities` over the pages the API returns
   * in turn: every page read adds its activities in the date range, and
   * the loop stops after the first page that ends it (or when no page is
   * left).
   */
  method GetUserActivities(pages: seq<seq<Activity>>, startDate: Timestamp, endDate: Timestamp)
    returns (allActivities: seq<Activity>, requests: nat)
    ensures requests <= |pages|
    ensures requests == |pages| || (requests >= 1 && StopsAfterPage(pages[requests - 1], startDate))
    ensures forall n :: 0 <= n < requests - 1 ==> !StopsAfterPage(pages[n], startDate)
    ensures allActivities == KeptActivities(pages, requests, InActivityRangeOf(startDate, endDate))
  {
    var inRange := InActivityRangeOf(startDate, endDate);
    allActivities, requests := [], 0;
    while requests < |pages|
      invariant requests <= |pages|
      invariant forall n :: 0 <= n < requests ==> !StopsAfterPage(pages[n], startDate)
      invariant allActivities == KeptActivities(pages, requests, inRange)
    {
      var activities := pages[requests];
      requests := requests + 1;
      if |activities| == 0 {
        return;
      }
      var filtered := FilterActivities(activities, inRange);
      allActivities := allActivities + filtered;
      if OldestBefore(activities, startDate) {
        return;
      }
      if |activities| < PageSize {
        return;
      }
    }
  }

  /** Everything downloaded lies in the date range. */
  lemma {:induction false} KeptActivitiesInRange(pages: seq<seq<Activity>>, n: nat, startDate: Timestamp, endDate: Timestamp)
    requires n <= |pages|
    ensures forall a :: a in KeptActivities(pages, n, InActivityRangeOf(startDate, endDate)) ==>
      InActivityRange(a, startDate, endDate)
  {
    if n > 0 {
      KeptActivitiesInRange(pages, n - 1, startDate, endDate);
    }
  }

  // ---------------------------------------------------------------------
  // Activity counts by type
  // ---------------------------------------------------------------------

  /** The names of activity types 1 to 26, in order. */
  const KnownTypeNames: seq<string> := [
    "Issue Created", "Issue Updated", "Issue Commented", "Issue Deleted",
    "Wiki Created", "Wiki Updated", "Wiki Deleted",
    "File Added", "File Updated", "File Deleted",
    "SVN Committed", "Git Pushed", "Git Repository Created",
    "Issue Multi Updated", "Project User Added", "Project User Deleted",
    "Comment Notification Added", "Pull Request Added", "Pull Request Updated",
    "Comment Added on Pull Request", "Pull Request Deleted",
    "Milestone Created", "Milestone Updated", "Milestone Deleted",
    "Project Group Added", "Project Group Deleted"]

  const UnknownTypePrefix := "Activity type "

  predicate IsKnownType(t: int)
  {
    1 <= t <= |KnownTypeNames|
  }

  /** The statistics key of an activity type: its name, or "Activity type N" for a type without one. */
  function ActivityTypeName(t: int): (r: string)
    ensures IsKnownType(t) <==> !HasPrefix(r, UnknownTypePrefix)
    ensures !IsKnownType(t) ==> TrimPrefix(r, UnknownTypePrefix) == IntToDecimal(t)
  {
    if IsKnownType(t) then
      KnownNameHasNoPrefix(t);
      KnownTypeNames[t - 1]
    else
      UnknownTypePrefix + IntToDecimal(t)
  }

  lemma KnownNameHasNoPrefix(t: int)
    requires IsKnownType(t)
    ensures !HasPrefix(KnownTypeNames[t - 1], UnknownTypePrefix)
  {
    assert KnownTypeNames[t - 1][0] != 'A';
  }

  /** Different types are counted under different keys. */
  lemma ActivityTypeNameInjective(a: int, b: int)
    requires ActivityTypeName(a) == ActivityTypeName(b)
    ensures a == b
  {
    if !IsKnownType(a) {
      IntToDecimalInjective(a, b);
    } else {
      KnownNamesDistinct();
    }
  }

  lemma KnownNamesDistinct()
    ensures forall i, j :: 0 <= i < j < |KnownTypeNames| ==> KnownTypeNames[i] != KnownTypeNames[j]
  {
  }

  /** What is shown for an activity of an unknown type. */
  datatype Example = SummaryExample(summary: string) | IdExample(id: Option<ContentValue>)

  /** A non-empty string `summary` when there is one, else the `id` value (possibly missing). */
  function ExampleOf(a: Activity): (r: Example)
    ensures r.SummaryExample? <==>
      "summary" in a.content && a.content["summary"].JString? && a.content["summary"].text != ""
    ensures r.SummaryExample? ==> a.content["summary"].text == r.summary
    ensures r.IdExample? ==> (r.id.Some? <==> "id" in a.content)
  {
    if "summary" in a.content && a.content["summary"].JString? && a.content["summary"].text != "" then
      SummaryExample(a.content["summary"].text)
    else
      IdExample(if "id" in a.content then Some(a.content["id"]) else None)
  }

  function TypeOf(a: Activity): int
  {
    a.activityType
  }

  function TypeNameOf(a: Activity): string
  {
    ActivityTypeName(a.activityType)
  }

  /** The examples of every activity of type `t`, in order. */
  function ExamplesOfType(s: seq<Activity>, t: int): (r: seq<Example>)
    decreases |s|
  {
    if s == [] then []
    else ExamplesOfType(s[..|s| - 1], t) + (if s[|s| - 1].activityType == t then [ExampleOf(s[|s| - 1])] else [])
  }

  /** There is one example per activity of the type. */
  lemma {:induction false} ExamplesOfTypeCount(s: seq<Activity>, t: int)
    ensures |ExamplesOfType(s, t)| == Occurrences(s, TypeOf, t)
    decreases |s|
  {
    if s != [] {
      ExamplesOfTypeCount(s[..|s| - 1], t);
    }
  }

  lemma ExamplesOfTypeSnoc(s: seq<Activity>, a: Activity, t: int)
    ensures ExamplesOfType(s + [a], t) == ExamplesOfType(s, t) + (if a.activityType == t then [ExampleOf(a)] else [])
  {
    assert (s + [a])[..|s|] == s;
  }

  const MaxExamples := 3

  /** The first three of a list of examples. */
  function Capped(e: seq<Example>): (r: seq<Example>)
    ensures r <= e
    ensures |r| == if |e| < MaxExamples then |e| else MaxExamples
  {
    if |e| <= MaxExamples then e else e[..MaxExamples]
  }

  /** Adding an example to a full list changes nothing; to a short one, appends it. */
  lemma CappedSnoc(e: seq<Example>, x: Example)
    ensures Capped(e + [x]) == if |e| < MaxExamples then e + [x] else Capped(e)
  {
    if |e| >= MaxExamples {
      assert (e + [x])[..MaxExamples] == e[..MaxExamples];
    }
  }

  /** `unknown` holds, for each unknown type met in `s`, the first three examples of it. */
  ghost predicate KeepsExamples(unknown: map<int, seq<Example>>, s: seq<Activity>)
  {
    forall t :: (t in unknown <==> !IsKnownType(t) && ExamplesOfType(s, t) != []) &&
                (t in unknown ==> unknown[t] == Capped(ExamplesOfType(s, t)))
  }

  /** One step of the example collection. */
  lemma KeepsExamplesStep(unknown: map<int, seq<Example>>, s: seq<Activity>, a: Activity)
    requires KeepsExamples(unknown, s)
    ensures var examples := if a.activityType in unknown then unknown[a.activityType] else [];
      KeepsExamples(
        if IsKnownType(a.activityType) || |examples| >= MaxExamples then unknown
        else unknown[a.activityType := examples + [ExampleOf(a)]],
        s + [a])
  {
    forall t ensures ExamplesOfType(s + [a], t) == ExamplesOfType(s, t) + (if a.activityType == t then [ExampleOf(a)] else []) {
      ExamplesOfTypeSnoc(s, a, t);
    }
    CappedSnoc(ExamplesOfType(s, a.activityType), ExampleOf(a));
  }

  /**
   * `analyzeActivities`: the activities counted by type name, and the
   * examples kept for unknown types (which the source prints).
   */
  method AnalyzeActivities(activities: seq<Activity>)
    returns (stats: map<string, int>, unknownTypes: map<int, seq<Example>>)
    ensures IsTally(stats, activities, TypeNameOf)
    ensures MapSum(stats) == |activities|
    ensures KeepsExamples(unknownTypes, activities)
    ensures forall t :: t in unknownTypes ==> 1 <= |unknownTypes[t]| <= MaxExamples
  {
    stats, unknownTypes := map[], map[];
    for i := 0 to |activities|
      invariant IsTally(stats, activities[..i], TypeNameOf)
      invariant KeepsExamples(unknownTypes, activities[..i])
    {
      var activity := activities[i];
      assert activities[..i + 1] == activities[..i] + [activity];
      TallyStep(stats, activities[..i], TypeNameOf, activity);
      KeepsExamplesStep(unknownTypes, activities[..i], activity);
      if IsKnownType(activity.activityType) {
        var typeName := KnownTypeNames[activity.activityType - 1];
        stats := stats[typeName := Get(stats, typeName) + 1];
      } else {
        var typeName := UnknownTypePrefix + IntToDecimal(activity.activityType);
        stats := stats[typeName := Get(stats, typeName) + 1];
        var examples := if activity.activityType in unknownTypes then unknownTypes[activity.activityType] else [];
        if |examples| < MaxExamples {
          unknownTypes := unknownTypes[activity.activityType := examples + [ExampleOf(activity)]];
        }
      }
    }
    assert activities[..|activities|] == activities;
    TallyTotal(stats, activities, TypeNameOf);
  }

  // ---------------------------------------------------------------------
  // Item lists
  // ---------------------------------------------------------------------

  /**
   * The item an activity contributes: one of the accepted types, with a
   * string title field and a numeric `id` in its content.
   */
  function Candidate(a: Activity, types: set<int>, field: string, kind: string): (r: Option<ActivityItem>)
    ensures r.Some? ==> r.value.created == a.created && r.value.itemType == kind
  {
    if a.activityType in types && field in a.content && a.content[field].JString? &&
       "id" in a.content && a.content["id"].JNumber?
    then Some(ActivityItem(a.content["id"].number, a.content[field].text, a.created, kind))
    else None
  }

  function IdsOf(items: seq<ActivityItem>): set<int>
  {
    set x | x in items :: x.id
  }

  /** The candidates of `s` in order, skipping any whose id an earlier one had. */
  function Extracted(s: seq<Activity>, types: set<int>, field: string, kind: string): seq<ActivityItem>
    decreases |s|
  {
    if s == [] then []
    else
      var init := Extracted(s[..|s| - 1], types, field, kind);
      match Candidate(s[|s| - 1], types, field, kind)
      case Some(item) => if item.id in IdsOf(init) then init else init + [item]
      case None => init
  }

  lemma ExtractedSnoc(s: seq<Activity>, a: Activity, types: set<int>, field: string, kind: string)
    ensures Extracted(s + [a], types, field, kind) ==
      match Candidate(a, types, field, kind)
      case Some(item) =>
        if item.id in IdsOf(Extracted(s, types, field, kind)) then Extracted(s, types, field, kind)
        else Extracted(s, types, field, kind) + [item]
      case None => Extracted(s, types, field, kind)
  {
    assert (s + [a])[..|s|] == s;
  }

  predicate DistinctIds(items: seq<ActivityItem>)
  {
    forall i, j :: 0 <= i < j < |items| ==> items[i].id != items[j].id
  }

  /** No two items share an id. */
  lemma {:induction false} ExtractedDistinct(s: seq<Activity>, types: set<int>, field: string, kind: string)
    ensures DistinctIds(Extracted(s, types, field, kind))
    decreases |s|
  {
    if s != [] {
      var init := Extracted(s[..|s| - 1], types, field, kind);
      ExtractedDistinct(s[..|s| - 1], types, field, kind);
      var candidate := Candidate(s[|s| - 1], types, field, kind);
      if candidate.Some? && candidate.value.id !in IdsOf(init) {
        var r := init + [candidate.value];
        assert Extracted(s, types, field, kind) == r;
        forall i, j | 0 <= i < j < |r| ensures r[i].id != r[j].id {
          assert r[i] == init[i];
          if j == |init| {
            assert init[i] in init;
            assert init[i].id in IdsOf(init);
            assert r[j] == candidate.value;
          } else {
            assert r[j] == init[j];
          }
        }
      }
    }
  }

  /** Every candidate's id is among the items. */
  lemma {:induction false} ExtractedComplete(s: seq<Activity>, types: set<int>, field: string, kind: string)
    ensures forall i :: 0 <= i < |s| && Candidate(s[i], types, field, kind).Some? ==>
      Candidate(s[i], types, field, kind).value.id in IdsOf(Extracted(s, types, field, kind))
    decreases |s|
  {
    if s != [] {
      var init := s[..|s| - 1];
      ExtractedComplete(init, types, field, kind);
      var before := Extracted(init, types, field, kind);
      var r := Extracted(s, types, field, kind);
      assert IdsOf(before) <= IdsOf(r) by {
        forall id | id in IdsOf(before) ensures id in IdsOf(r) {
          var x :| x in before && x.id == id;
          assert x in r;
        }
      }
      forall i | 0 <= i < |s| && Candidate(s[i], types, field, kind).Some?
        ensures Candidate(s[i], types, field, kind).value.id in IdsOf(r)
      {
        if i < |init| {
          assert s[i] == init[i];
        } else {
          var item := Candidate(s[i], types, field, kind).value;
          if item.id !in IdsOf(before) {
            assert item in r;
          }
        }
      }
    }
  }

  /** `x` is the candidate of `s[i]`, and no earlier activity has a candidate with its id. */
  predicate FirstCandidateAt(s: seq<Activity>, i: int, x: ActivityItem, types: set<int>, field: string, kind: string)
  {
    0 <= i < |s| && Candidate(s[i], types, field, kind) == Some(x) &&
    forall j :: 0 <= j < i ==> Candidate(s[j], types, field, kind).None? || Candidate(s[j], types, field, kind).value.id != x.id
  }

  /** Every item is the candidate of the first activity with its id. */
  lemma {:induction false} ExtractedFirst(s: seq<Activity>, types: set<int>, field: string, kind: string)
    ensures forall x :: x in Extracted(s, types, field, kind) ==>
      exists i :: FirstCandidateAt(s, i, x, types, field, kind)
    decreases |s|
  {
    if s != [] {
      var init := s[..|s| - 1];
      ExtractedFirst(init, types, field, kind);
      ExtractedComplete(init, types, field, kind);
      var before := Extracted(init, types, field, kind);
      forall x | x in Extracted(s, types, field, kind)
        ensures exists i :: FirstCandidateAt(s, i, x, types, field, kind)
      {
        if x in before {
          var i :| FirstCandidateAt(init, i, x, types, field, kind);
          assert forall j :: 0 <= j <= i ==> s[j] == init[j];
          assert FirstCandidateAt(s, i, x, types, field, kind);
        } else {
          var last := |s| - 1;
          assert Candidate(s[last], types, field, kind) == Some(x) && x.id !in IdsOf(before);
          forall j | 0 <= j < last && Candidate(s[j], types, field, kind).Some?
            ensures Candidate(s[j], types, field, kind).value.id != x.id
          {
            assert s[j] == init[j];
          }
          assert FirstCandidateAt(s, last, x, types, field, kind);
        }
      }
    }
  }

  /** `b` is not newer than `a`: `a` may come first in a newest-first list. */
  function NewestFirst(): (ActivityItem, ActivityItem) -> bool
  {
    (a: ActivityItem, b: ActivityItem) => !After(b.created, a.created)
  }

  lemma NewestFirstIsTotalPreorder()
    ensures IsTotalPreorder(NewestFirst())
  {
  }

  function ItemId(x: ActivityItem): int
  {
    x.id
  }

  /**
   * The shared body of the `extract*` functions: the candidates of the
   * accepted types, one per id (the first met), sorted newest first with
   * `sort.Slice`.
   */
  method ExtractItems(activities: seq<Activity>, types: set<int>, field: string, kind: string)
    returns (items: seq<ActivityItem>)
    ensures multiset(items) == multiset(Extracted(activities, types, field, kind))
    ensures DistinctIds(items)
    ensures forall i, j :: 0 <= i < j < |items| ==> Instant(items[j].created) <= Instant(items[i].created)
  {
    var found: seq<ActivityItem> := [];
    var seen: set<int> := {};
    for i := 0 to |activities|
      invariant found == Extracted(activities[..i], types, field, kind)
      invariant seen == IdsOf(found)
    {
      assert activities[..i + 1] == activities[..i] + [activities[i]];
      ExtractedSnoc(activities[..i], activities[i], types, field, kind);
      var candidate := Candidate(activities[i], types, field, kind);
      if candidate.Some? && candidate.value.id !in seen {
        found := found + [candidate.value];
        seen := seen + {candidate.value.id};
      }
    }
    assert activities[..|activities|] == activities;
    NewestFirstIsTotalPreorder();
    items := SortBy(found, NewestFirst());
    ExtractedDistinct(activities, types, field, kind);
    PermutationDistinct(found, items, ItemId);
    assert forall i, j :: 0 <= i < j < |items| ==> NewestFirst()(items[i], items[j]);
  }

  /** `extractCommentedIssues`: type 3, titled by `summary`. */
  method ExtractCommentedIssues(activities: seq<Activity>) returns (items: seq<ActivityItem>)
    ensures multiset(items) == multiset(Extracted(activities, {3}, "summary", "Comment"))
    ensures DistinctIds(items)
    ensures forall i, j :: 0 <= i < j < |items| ==> Instant(items[j].created) <= Instant(items[i].created)
  {
    items := ExtractItems(activities, {3}, "summary", "Comment");
  }

  /** `extractUpdatedIssues`: types 2 and 14, titled by `summary`. */
  method ExtractUpdatedIssues(activities: seq<Activity>) returns (items: seq<ActivityItem>)
    ensures multiset(items) == multiset(Extracted(activities, {2, 14}, "summary", "Update"))
    ensures DistinctIds(items)
    ensures forall i, j :: 0 <= i < j < |items| ==> Instant(items[j].created) <= Instant(items[i].created)
  {
    items := ExtractItems(activities, {2, 14}, "summary", "Update");
  }

  /** `extractUpdatedWikis`: type 6, titled by `name`. */
  method ExtractUpdatedWikis(activities: seq<Activity>) returns (items: seq<ActivityItem>)
    ensures multiset(items) == multiset(Extracted(activities, {6}, "name", "Wiki Update"))
    ensures DistinctIds(items)
    ensures forall i, j :: 0 <= i < j < |items| ==> Instant(items[j].created) <= Instant(items[i].created)
  {
    items := ExtractItems(activities, {6}, "name", "Wiki Update");
  }

  /** `extractCreatedWikis`: type 5, titled by `name`. */
  method ExtractCreatedWikis(activities: seq<Activity>) returns (items: seq<ActivityItem>)
    ensures multiset(items) == multiset(Extracted(activities, {5}, "name", "Wiki Creation"))
    ensures DistinctIds(items)
    ensures forall i, j :: 0 <= i < j < |items| ==> Instant(items[j].created) <= Instant(items[i].created)
  {
    items := ExtractItems(activities, {5}, "name", "Wiki Creation");
  }
}
