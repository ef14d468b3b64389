/**
 * The GitHub analyzer's own logic: the title rule that marks a pull
 * request as low value (a back merge or a merge between two deployment
 * branches), the owner/repository keys read from a repository URL, the
 * per-organisation, per-repository and per-label counts over the authored
 * and involved pull requests, and the counting of the user's reviews.
 * The search and review requests themselves are inputs.
 */
module GithubAnalyzer {
  import opened Wrappers
  import opened Text
  import opened Collections
  import opened Tallies
  import opened Timestamps

  /** A pull request as the search API returns it; each label by its name. */
  datatype PullRequest = PullRequest(
    title: string,
    url: string,
    createdAt: Timestamp,
    author: string,
    repositoryUrl: string,
    number: int,
    labels: seq<string>)

  datatype Review = Review(id: int, state: string, submittedAt: Timestamp, author: string)

  datatype ReviewStats = ReviewStats(
    reviewsGiven: int,
    approvalsGiven: int,
    commentsGiven: int,
    changesRequested: int)

  const TokenRequired := "GITHUB_TOKEN environment variable is required"
  const UsernameRequired := "GITHUB_USERNAME environment variable is required"

  /** `ValidateConfig`: both settings are needed; a missing token is reported first. */
  function ValidateConfig(token: string, username: string): (r: Option<string>)
    ensures r.None? <==> token != "" && username != ""
    ensures r.Some? ==> r.value == (if token == "" then TokenRequired else UsernameRequired)
  {
    if token == "" then Some(TokenRequired)
    else if username == "" then Some(UsernameRequired)
    else None
  }

  // ---------------------------------------------------------------------
  // Repository keys
  // ---------------------------------------------------------------------

  /**
   * `extractRepoFromURL`: the last two '/'-separated pieces joined by '/',
   * that is the suffix of the URL after its second-to-last '/'; a string
   * without '/' is its own key.
   */
  function ExtractRepoFromUrl(repoUrl: string): (r: string)
    ensures '/' !in repoUrl ==> r == repoUrl
    ensures '/' in repoUrl ==>
      HasSuffix(repoUrl, r) &&
      (|r| == |repoUrl| || repoUrl[|repoUrl| - |r| - 1] == '/') &&
      Split(r, '/') == Split(repoUrl, '/')[|Split(repoUrl, '/')| - 2..]
  {
    if '/' in repoUrl then LastTwoKey(repoUrl); LastTwo(Split(repoUrl, '/')) else repoUrl
  }

  /** The last two pieces joined by '/'. */
  function LastTwo(parts: seq<string>): string
    requires |parts| >= 2
  {
    parts[|parts| - 2] + "/" + parts[|parts| - 1]
  }

  /** The last two pieces of a URL with a '/', joined again, end the URL after a '/' and split back into those pieces. */
  lemma LastTwoKey(s: string)
    requires '/' in s
    ensures |Split(s, '/')| >= 2
    ensures var r := LastTwo(Split(s, '/'));
      HasSuffix(s, r) && (|r| == |s| || s[|s| - |r| - 1] == '/') &&
      Split(r, '/') == Split(s, '/')[|Split(s, '/')| - 2..]
  {
    var parts := Split(s, '/');
    LastTwoPieces(s, '/');
    var r := parts[|parts| - 2] + ['/'] + parts[|parts| - 1];
    assert LastTwo(parts) == r;
    assert |r| == |s| || s[|s| - |r| - 1] == '/';
  }

  /** `extractOrgName`: the text before the first '/', or all of it when there is none. */
  function ExtractOrgName(fullName: string): (r: string)
    ensures '/' !in r && HasPrefix(fullName, r)
    ensures r == fullName <==> '/' !in fullName
    ensures r != fullName ==> fullName[|r|] == '/'
  {
    Split(fullName, '/')[0]
  }

  /** `extractRepoName`: the repository key is the whole "owner/repo" name. */
  function ExtractRepoName(fullName: string): (r: string)
    ensures HasPrefix(r, ExtractOrgName(fullName))
    ensures r != ExtractOrgName(fullName) ==> r[|ExtractOrgName(fullName)|] == '/'
  {
    fullName
  }

  /**
   * For an API repository URL ending in `/<owner>/<repo>`, the repository
   * key is "owner/repo" and the organisation key is the owner.
   */
  lemma RepositoryKeysOfApiUrl(prefix: string, owner: string, repo: string)
    requires '/' !in owner && '/' !in repo
    ensures ExtractRepoName(ExtractRepoFromUrl(prefix + "/" + owner + "/" + repo)) == owner + "/" + repo
    ensures ExtractOrgName(ExtractRepoFromUrl(prefix + "/" + owner + "/" + repo)) == owner
  {
    SplitSnoc(prefix, owner, '/');
    SplitSnoc(prefix + "/" + owner, repo, '/');
    var full := owner + "/" + repo;
    assert full[..|owner|] == owner;
    IndexOfFirst(full, '/', |owner|);
  }

  // ---------------------------------------------------------------------
  // Low-value pull requests
  // ---------------------------------------------------------------------

  const Branches: seq<string> := ["develop", "main", "stg", "staging", "production", "master"]

  /** The title names a back merge. */
  predicate IsBackMerge(title: string)
  {
    Contains(title, "back merge") || Contains(title, "backmerge")
  }

  /** The three ways a title can name a merge of `from` into `to`. */
  predicate NamesMove(title: string, from: string, to: string)
  {
    Contains(title, from + " -> " + to) || Contains(title, from + " to " + to) || Contains(title, from + "->" + to)
  }

  /** The title names a merge between two different branches of `Branches`. */
  ghost predicate NamesBranchMove(title: string)
  {
    exists i, j :: 0 <= i < |Branches| && 0 <= j < |Branches| && Branches[i] != Branches[j] &&
      NamesMove(title, Branches[i], Branches[j])
  }

  /**
   * The nested loop over (from, to) branch pairs, resumed at pair (i, j):
   * it finds a named move exactly when one exists at or after that pair in
   * loop order.
   */
  function ScanMoves(title: string, i: nat, j: nat): (r: bool)
    requires i <= |Branches| && j <= |Branches|
    ensures r <==> (exists a, b :: (i < a || (a == i && j <= b)) && a < |Branches| && 0 <= b < |Branches| &&
                                 Branches[a] != Branches[b] && NamesMove(title, Branches[a], Branches[b]))
    decreases |Branches| - i, |Branches| - j
  {
    if i == |Branches| then false
    else if j == |Branches| then ScanMoves(title, i + 1, 0)
    else if Branches[i] != Branches[j] && NamesMove(title, Branches[i], Branches[j]) then true
    else ScanMoves(title, i, j + 1)
  }

  /** The title as the rule reads it: trimmed and lower-cased. */
  function Normalized(title: string): string
  {
    Lower(TrimSpace(title))
  }

  /**
   * `isLowValuePR`: the normalised title names a back merge or a merge
   * between two different deployment branches.
   */
  function IsLowValuePR(pr: PullRequest): (r: bool)
    ensures r <==> IsBackMerge(Normalized(pr.title)) || NamesBranchMove(Normalized(pr.title))
  {
    var title := Lower(TrimSpace(pr.title));
    IsBackMerge(title) || ScanMoves(title, 0, 0)
  }

  predicate IsValuable(pr: PullRequest)
  {
    !IsLowValuePR(pr)
  }

  /** The rule ignores case: lower-casing the title does not change the verdict. */
  lemma LowValueIgnoresCase(pr: PullRequest)
    ensures IsLowValuePR(pr.(title := Lower(pr.title))) == IsLowValuePR(pr)
  {
    TrimSpaceLower(pr.title);
    LowerIdempotent(TrimSpace(pr.title));
  }

  /** Every pattern has at least nine characters. */
  lemma PatternsAreLong(i: nat, j: nat)
    requires i < |Branches| && j < |Branches| && Branches[i] != Branches[j]
    ensures |Branches[i]| + |Branches[j]| >= 7
  {
  }

  lemma ContainsLength(s: string, sub: string)
    requires Contains(s, sub)
    ensures |sub| <= |s|
  {
  }

  /** A title shorter than every pattern (under nine characters once trimmed) is never low value. */
  lemma ShortTitleIsValuable(pr: PullRequest)
    requires |TrimSpace(pr.title)| < 9
    ensures IsValuable(pr)
  {
    var t := Normalized(pr.title);
    if IsBackMerge(t) {
      if Contains(t, "back merge") { ContainsLength(t, "back merge"); }
      else { ContainsLength(t, "backmerge"); }
    }
    forall i, j | 0 <= i < |Branches| && 0 <= j < |Branches| && Branches[i] != Branches[j]
      ensures !NamesMove(t, Branches[i], Branches[j])
    {
      PatternsAreLong(i, j);
      if Contains(t, Branches[i] + " -> " + Branches[j]) { ContainsLength(t, Branches[i] + " -> " + Branches[j]); }
      if Contains(t, Branches[i] + " to " + Branches[j]) { ContainsLength(t, Branches[i] + " to " + Branches[j]); }
      if Contains(t, Branches[i] + "->" + Branches[j]) { ContainsLength(t, Branches[i] + "->" + Branches[j]); }
    }
  }

  /** Splitting the authored pull requests by value, in their original order. */
  method PartitionByValue(authored: seq<PullRequest>) returns (valuable: seq<PullRequest>, lowValue: seq<PullRequest>)
    ensures valuable == Filter(authored, IsValuable)
    ensures lowValue == Filter(authored, IsLowValuePR)
    ensures |valuable| + |lowValue| == |authored|
    ensures multiset(valuable) + multiset(lowValue) == multiset(authored)
  {
    lowValue, valuable := Partition(authored, IsLowValuePR, IsValuable);
  }

  // ---------------------------------------------------------------------
  // Organisation, repository and label counts
  // ---------------------------------------------------------------------

  /** The organisation a pull request is counted under. */
  function OrgKey(pr: PullRequest): string
  {
    ExtractOrgName(ExtractRepoFromUrl(pr.repositoryUrl))
  }

  /** The repository a pull request is counted under. */
  function RepoKey(pr: PullRequest): string
  {
    ExtractRepoName(ExtractRepoFromUrl(pr.repositoryUrl))
  }

  const NoLabels := "No labels"

  /** The label names a pull request is counted under: its labels, or "No labels". */
  function LabelKeys(pr: PullRequest): seq<string>
  {
    if |pr.labels| == 0 then [NoLabels] else pr.labels
  }

  /** Every label occurrence counted, pull request by pull request. */
  function LabelOccurrences(prs: seq<PullRequest>): seq<string>
    decreases |prs|
  {
    if prs == [] then [] else LabelOccurrences(prs[..|prs| - 1]) + LabelKeys(prs[|prs| - 1])
  }

  /** How many label counts a pull request adds: one per label, and one when it has none. */
  function LabelWeight(pr: PullRequest): int
  {
    if |pr.labels| == 0 then 1 else |pr.labels|
  }

  lemma {:induction false} LabelOccurrencesLength(prs: seq<PullRequest>)
    ensures |LabelOccurrences(prs)| == SumBy(prs, LabelWeight)
    decreases |prs|
  {
    if prs != [] {
      LabelOccurrencesLength(prs[..|prs| - 1]);
    }
  }

  /**
   * The loop over the authored pull requests: each adds one to the
   * authored count of its organisation and of its repository, and one to
   * each of its label names.
   */
  method CountAuthored(authored: seq<PullRequest>)
    returns (orgStats: map<string, Counts>, repoStats: map<string, Counts>, labelStats: map<string, int>)
    ensures IsPairTally(orgStats, authored, [], OrgKey)
    ensures IsPairTally(repoStats, authored, [], RepoKey)
    ensures IsTally(labelStats, LabelOccurrences(authored), Itself)
  {
    orgStats, repoStats, labelStats := map[], map[], map[];
    for i := 0 to |authored|
      invariant IsPairTally(orgStats, authored[..i], [], OrgKey)
      invariant IsPairTally(repoStats, authored[..i], [], RepoKey)
      invariant IsTally(labelStats, LabelOccurrences(authored[..i]), Itself)
    {
      var pr := authored[i];
      var fullName := ExtractRepoFromUrl(pr.repositoryUrl);
      var repoName := ExtractRepoName(fullName);
      var orgName := ExtractOrgName(fullName);
      PrefixSnoc(authored, i);
      PairTallyStepFirst(orgStats, authored[..i], [], OrgKey, pr);
      PairTallyStepFirst(repoStats, authored[..i], [], RepoKey, pr);
      LabelOccurrencesStep(authored, i);
      orgStats := CountFirst(orgStats, orgName);
      repoStats := CountFirst(repoStats, repoName);
      labelStats := CountLabels(labelStats, LabelOccurrences(authored[..i]), pr);
    }
    assert authored[..|authored|] == authored;
  }

  /** `stats[name].first++`, creating `{1, 0}` for a name not yet seen. */
  method CountFirst(stats: map<string, Counts>, name: string) returns (stats': map<string, Counts>)
    ensures stats' == BumpFirst(stats, name)
  {
    if name in stats {
      var stat := stats[name];
      stats' := stats[name := stat.(first := stat.first + 1)];
    } else {
      stats' := stats[name := Counts(1, 0)];
    }
  }

  /** `stats[name].second++`, creating `{0, 1}` for a name not yet seen. */
  method CountSecond(stats: map<string, Counts>, name: string) returns (stats': map<string, Counts>)
    ensures stats' == BumpSecond(stats, name)
  {
    if name in stats {
      var stat := stats[name];
      stats' := stats[name := stat.(second := stat.second + 1)];
    } else {
      stats' := stats[name := Counts(0, 1)];
    }
  }

  lemma LabelOccurrencesStep(prs: seq<PullRequest>, i: nat)
    requires i < |prs|
    ensures LabelOccurrences(prs[..i + 1]) == LabelOccurrences(prs[..i]) + LabelKeys(prs[i])
  {
    assert prs[..i + 1][..i] == prs[..i];
  }

  /** `labelStats[name]++` for each label name of one pull request. */
  method CountLabels(labelStats: map<string, int>, ghost counted: seq<string>, pr: PullRequest)
    returns (updated: map<string, int>)
    requires IsTally(labelStats, counted, Itself)
    ensures IsTally(updated, counted + LabelKeys(pr), Itself)
  {
    updated := labelStats;
    if |pr.labels| == 0 {
      TallyStep(updated, counted, Itself, NoLabels);
      updated := updated[NoLabels := Get(updated, NoLabels) + 1];
    } else {
      assert counted + pr.labels[..0] == counted;
      for j := 0 to |pr.labels|
        invariant IsTally(updated, counted + pr.labels[..j], Itself)
      {
        assert counted + pr.labels[..j + 1] == (counted + pr.labels[..j]) + [pr.labels[j]];
        TallyStep(updated, counted + pr.labels[..j], Itself, pr.labels[j]);
        updated := updated[pr.labels[j] := Get(updated, pr.labels[j]) + 1];
      }
      assert pr.labels[..|pr.labels|] == pr.labels;
    }
  }

  /** The loop over the involved pull requests: one more involved count per organisation and repository. */
  method CountInvolved(
    orgStats: map<string, Counts>, repoStats: map<string, Counts>,
    ghost authored: seq<PullRequest>, involved: seq<PullRequest>)
    returns (orgs: map<string, Counts>, repos: map<string, Counts>)
    requires IsPairTally(orgStats, authored, [], OrgKey)
    requires IsPairTally(repoStats, authored, [], RepoKey)
    ensures IsPairTally(orgs, authored, involved, OrgKey)
    ensures IsPairTally(repos, authored, involved, RepoKey)
  {
    orgs, repos := orgStats, repoStats;
    for i := 0 to |involved|
      invariant IsPairTally(orgs, authored, involved[..i], OrgKey)
      invariant IsPairTally(repos, authored, involved[..i], RepoKey)
    {
      var pr := involved[i];
      var fullName := ExtractRepoFromUrl(pr.repositoryUrl);
      var repoName := ExtractRepoName(fullName);
      var orgName := ExtractOrgName(fullName);
      PrefixSnoc(involved, i);
      PairTallyStepSecond(orgs, authored, involved[..i], OrgKey, pr);
      PairTallyStepSecond(repos, authored, involved[..i], RepoKey, pr);
      orgs := CountSecond(orgs, orgName);
      repos := CountSecond(repos, repoName);
    }
    assert involved[..|involved|] == involved;
  }

  /**
   * The counting part of `Analyze`: the value partition and the three
   * counting maps, whose totals are the numbers of pull requests (and of
   * label occurrences) counted.
   */
  method AggregatePullRequests(authored: seq<PullRequest>, involved: seq<PullRequest>)
    returns (valuable: seq<PullRequest>, lowValue: seq<PullRequest>,
             orgStats: map<string, Counts>, repoStats: map<string, Counts>, labelStats: map<string, int>)
    ensures valuable == Filter(authored, IsValuable) && lowValue == Filter(authored, IsLowValuePR)
    ensures |valuable| + |lowValue| == |authored|
    ensures IsPairTally(orgStats, authored, involved, OrgKey)
    ensures IsPairTally(repoStats, authored, involved, RepoKey)
    ensures IsTally(labelStats, LabelOccurrences(authored), Itself)
    ensures MapSum(Firsts(orgStats)) == |authored| && MapSum(Seconds(orgStats)) == |involved|
    ensures MapSum(Firsts(repoStats)) == |authored| && MapSum(Seconds(repoStats)) == |involved|
    ensures MapSum(labelStats) == SumBy(authored, LabelWeight)
  {
    valuable, lowValue := PartitionByValue(authored);
    var orgs, repos;
    orgs, repos, labelStats := CountAuthored(authored);
    orgStats, repoStats := CountInvolved(orgs, repos, authored, involved);
    PairTallyTotals(orgStats, authored, involved, OrgKey);
    PairTallyTotals(repoStats, authored, involved, RepoKey);
    TallyTotal(labelStats, LabelOccurrences(authored), Itself);
    LabelOccurrencesLength(authored);
  }

  // ---------------------------------------------------------------------
  // Review counting
  // ---------------------------------------------------------------------

  /** A review by the user submitted within a day of the reporting window. */
  predicate Counted(r: Review, username: string, startDate: Timestamp, endDate: Timestamp)
  {
    r.author == username &&
    Instant(r.submittedAt) > Instant(startDate) - SecondsPerDay &&
    Instant(r.submittedAt) < Instant(endDate) + SecondsPerDay
  }

  function CountedOf(username: string, startDate: Timestamp, endDate: Timestamp): Review -> bool
  {
    r => Counted(r, username, startDate, endDate)
  }

  function CountedInState(username: string, startDate: Timestamp, endDate: Timestamp, state: string): Review -> bool
  {
    r => Counted(r, username, startDate, endDate) && r.state == state
  }

  /** The statistics of a list of reviews: counted reviews, and counted reviews in each state. */
  ghost function ReviewTotals(reviews: seq<Review>, username: string, startDate: Timestamp, endDate: Timestamp): ReviewStats
  {
    ReviewStats(
      |Filter(reviews, CountedOf(username, startDate, endDate))|,
      |Filter(reviews, CountedInState(username, startDate, endDate, "APPROVED"))|,
      |Filter(reviews, CountedInState(username, startDate, endDate, "COMMENTED"))|,
      |Filter(reviews, CountedInState(username, startDate, endDate, "CHANGES_REQUESTED"))|)
  }

  lemma ReviewTotalsSnoc(reviews: seq<Review>, r: Review, username: string, startDate: Timestamp, endDate: Timestamp)
    ensures var t := ReviewTotals(reviews, username, startDate, endDate);
            ReviewTotals(reviews + [r], username, startDate, endDate) ==
              if !Counted(r, username, startDate, endDate) then t
              else ReviewStats(
                t.reviewsGiven + 1,
                t.approvalsGiven + (if r.state == "APPROVED" then 1 else 0),
                t.commentsGiven + (if r.state == "COMMENTED" then 1 else 0),
                t.changesRequested + (if r.state == "CHANGES_REQUESTED" then 1 else 0))
  {
    FilterSnoc(reviews, r, CountedOf(username, startDate, endDate));
    FilterSnoc(reviews, r, CountedInState(username, startDate, endDate, "APPROVED"));
    FilterSnoc(reviews, r, CountedInState(username, startDate, endDate, "COMMENTED"));
    FilterSnoc(reviews, r, CountedInState(username, startDate, endDate, "CHANGES_REQUESTED"));
  }

  /**
   * The counting loops of `getReviewStatsForRepo` over the review lists
   * of the repository's pull requests (a list that could not be fetched
   * is not among them).
   */
  method CountReviews(reviewLists: seq<seq<Review>>, username: string, startDate: Timestamp, endDate: Timestamp)
    returns (stats: ReviewStats)
    ensures stats == ReviewTotals(Flatten(reviewLists), username, startDate, endDate)
  {
    stats := ReviewStats(0, 0, 0, 0);
    for i := 0 to |reviewLists|
      invariant stats == ReviewTotals(Flatten(reviewLists[..i]), username, startDate, endDate)
    {
      assert reviewLists[..i + 1] == reviewLists[..i] + [reviewLists[i]];
      FlattenSnoc(reviewLists[..i], reviewLists[i]);
      stats := CountReviewList(stats, Flatten(reviewLists[..i]), reviewLists[i], username, startDate, endDate);
    }
    assert reviewLists[..|reviewLists|] == reviewLists;
  }

  /** The inner loop: the reviews of one pull request added to the running statistics. */
  method CountReviewList(
    stats: ReviewStats, ghost before: seq<Review>, reviews: seq<Review>,
    username: string, startDate: Timestamp, endDate: Timestamp)
    returns (updated: ReviewStats)
    requires stats == ReviewTotals(before, username, startDate, endDate)
    ensures updated == ReviewTotals(before + reviews, username, startDate, endDate)
  {
    updated := stats;
    assert before + reviews[..0] == before;
    for j := 0 to |reviews|
      invariant updated == ReviewTotals(before + reviews[..j], username, startDate, endDate)
    {
      var review := reviews[j];
      assert before + reviews[..j + 1] == (before + reviews[..j]) + [review];
      ReviewTotalsSnoc(before + reviews[..j], review, username, startDate, endDate);
      if Counted(review, username, startDate, endDate) {
        updated := updated.(reviewsGiven := updated.reviewsGiven + 1);
        if review.state == "APPROVED" {
          updated := updated.(approvalsGiven := updated.approvalsGiven + 1);
        } else if review.state == "CHANGES_REQUESTED" {
          updated := updated.(changesRequested := updated.changesRequested + 1);
        } else if review.state == "COMMENTED" {
          updated := updated.(commentsGiven := updated.commentsGiven + 1);
        }
      }
    }
    assert reviews[..|reviews|] == reviews;
  }

  /**
   * Every approval, comment and change request counted is also a review
   * given, and no review is in two states: the reviews given are at least
   * the sum of the three.
   */
  lemma {:induction false} ReviewsGivenBound(reviews: seq<Review>, username: string, startDate: Timestamp, endDate: Timestamp)
    ensures var t := ReviewTotals(reviews, username, startDate, endDate);
            t.reviewsGiven >= t.approvalsGiven + t.commentsGiven + t.changesRequested
    decreases |reviews|
  {
    if reviews != [] {
      var init, r := reviews[..|reviews| - 1], reviews[|reviews| - 1];
      assert reviews == init + [r];
      ReviewsGivenBound(init, username, startDate, endDate);
      ReviewTotalsSnoc(init, r, username, startDate, endDate);
    }
  }
}
