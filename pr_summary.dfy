/**
 * The standalone pull-request summary: the four search results are
 * merged into one pull request per URL (a later result replacing an
 * earlier one), listed in URL order, and counted per organisation and per
 * "owner/repo" repository. The searches themselves are inputs.
 */
module PrSummary {
  import opened Text
  import opened Collections
  import opened Tallies
  import GithubAnalyzer

  datatype PR = PR(title: string, url: string, createdAt: string, repoUrl: string)

  // ---------------------------------------------------------------------
  // Keys read from a repository URL
  // ---------------------------------------------------------------------

  /** `extractOrganization`: the second-to-last '/'-separated piece, or "" without a '/'. */
  function ExtractOrganization(repoUrl: string): (r: string)
    ensures '/' !in repoUrl ==> r == ""
    ensures '/' !in r
  {
    var parts := Split(repoUrl, '/');
    if |parts| >= 2 then parts[|parts| - 2] else ""
  }

  /** `extractRepo`: the last two '/'-separated pieces joined by '/', or "" without a '/'. */
  function ExtractRepo(repoUrl: string): (r: string)
    ensures '/' !in repoUrl ==> r == ""
    ensures '/' in repoUrl ==> r == GithubAnalyzer.ExtractRepoFromUrl(repoUrl)
  {
    var parts := Split(repoUrl, '/');
    SplitCount(repoUrl, '/');
    if |parts| >= 2 then parts[|parts| - 2] + "/" + parts[|parts| - 1] else ""
  }

  /**
   * The repository key starts with the organisation key and a '/', and the
   * organisation is the one the analyzer package reads from the same URL.
   */
  lemma OrganizationOfRepo(repoUrl: string)
    requires '/' in repoUrl
    ensures HasPrefix(ExtractRepo(repoUrl), ExtractOrganization(repoUrl) + "/")
    ensures ExtractOrganization(repoUrl) == GithubAnalyzer.ExtractOrgName(GithubAnalyzer.ExtractRepoFromUrl(repoUrl))
  {
    SplitCount(repoUrl, '/');
    var parts := Split(repoUrl, '/');
    var org, name := parts[|parts| - 2], parts[|parts| - 1];
    var full := org + "/" + name;
    assert full[..|org|] == org;
    IndexOfFirst(full, '/', |org|);
  }

  // ---------------------------------------------------------------------
  // Merging by URL
  // ---------------------------------------------------------------------

  /** `m[pr.URL] = pr` for every `pr` of `prs` in order. */
  function ByUrl(prs: seq<PR>): (m: map<string, PR>)
    ensures forall u :: u in m ==> m[u].url == u
    decreases |prs|
  {
    if prs == [] then map[] else ByUrl(prs[..|prs| - 1])[prs[|prs| - 1].url := prs[|prs| - 1]]
  }

  /** Each URL is kept once, with the last pull request that has it. */
  lemma ByUrlLatest(prs: seq<PR>, u: string)
    ensures u in ByUrl(prs) <==> exists i :: 0 <= i < |prs| && prs[i].url == u
    ensures u in ByUrl(prs) ==>
      exists i :: 0 <= i < |prs| && ByUrl(prs)[u] == prs[i] && forall j :: i < j < |prs| ==> prs[j].url != u
  {
    ByUrlHas(prs, u);
    if u in ByUrl(prs) {
      var i := ByUrlLatestIndex(prs, u);
    }
  }

  lemma {:induction false} ByUrlHas(prs: seq<PR>, u: string)
    ensures u in ByUrl(prs) <==> exists i :: 0 <= i < |prs| && prs[i].url == u
    decreases |prs|
  {
    if prs != [] {
      var n := |prs| - 1;
      var init, last := prs[..n], prs[n];
      assert ByUrl(prs) == ByUrl(init)[last.url := last];
      ByUrlHas(init, u);
      if last.url == u {
        assert prs[n].url == u;
      } else {
        if exists i :: 0 <= i < |prs| && prs[i].url == u {
          var i :| 0 <= i < |prs| && prs[i].url == u;
          assert init[i] == prs[i];
        }
        if u in ByUrl(init) {
          var i :| 0 <= i < |init| && init[i].url == u;
          assert prs[i] == init[i];
        }
      }
    }
  }

  /** The index of the pull request a URL keeps: the last one with that URL. */
  lemma {:induction false} ByUrlLatestIndex(prs: seq<PR>, u: string) returns (i: nat)
    requires u in ByUrl(prs)
    ensures i < |prs| && ByUrl(prs)[u] == prs[i]
    ensures forall j :: i < j < |prs| ==> prs[j].url != u
    decreases |prs|
  {
    var n := |prs| - 1;
    var init, last := prs[..n], prs[n];
    assert ByUrl(prs) == ByUrl(init)[last.url := last];
    if last.url == u {
      i := n;
    } else {
      i := ByUrlLatestIndex(init, u);
      assert prs[i] == init[i];
      forall j | i < j < |prs| ensures prs[j].url != u {
        if j < n {
          assert prs[j] == init[j];
        }
      }
    }
  }

  /** Indexing a concatenation: entries of the second part replace those of the first. */
  lemma {:induction false} ByUrlConcat(a: seq<PR>, b: seq<PR>)
    ensures ByUrl(a + b) == ByUrl(a) + ByUrl(b)
    decreases |b|
  {
    if b == [] {
      assert a + b == a;
    } else {
      var init, last := b[..|b| - 1], b[|b| - 1];
      assert a + b == (a + init) + [last];
      assert b == init + [last];
      ByUrlAppend(a + init, last);
      ByUrlAppend(init, last);
      ByUrlConcat(a, init);
      UnionUpdate(ByUrl(a), ByUrl(init), last.url, last);
    }
  }

  /** The loop pair that fills `involvesPRs` (or `authorPRs`) from the created and merged searches. */
  method MergeByUrl(created: seq<PR>, merged: seq<PR>) returns (prs: map<string, PR>)
    ensures prs == ByUrl(created) + ByUrl(merged)
  {
    prs := map[];
    ghost var seen: seq<PR> := [];
    for i := 0 to |created|
      invariant seen == created[..i] && prs == ByUrl(seen)
    {
      ByUrlAppend(seen, created[i]);
      prs := prs[created[i].url := created[i]];
      seen := seen + [created[i]];
    }
    assert seen == created + merged[..0];
    for i := 0 to |merged|
      invariant seen == created + merged[..i] && prs == ByUrl(seen)
    {
      ByUrlAppend(seen, merged[i]);
      prs := prs[merged[i].url := merged[i]];
      seen := seen + [merged[i]];
    }
    assert seen == created + merged;
    ByUrlConcat(created, merged);
  }

  /** Updating a union updates its right-hand map. */
  lemma UnionUpdate(m: map<string, PR>, m': map<string, PR>, k: string, v: PR)
    ensures (m + m')[k := v] == m + m'[k := v]
  {
  }

  lemma ByUrlAppend(prs: seq<PR>, pr: PR)
    ensures ByUrl(prs + [pr]) == ByUrl(prs)[pr.url := pr]
  {
    assert (prs + [pr])[..|prs|] == prs;
  }

  // ---------------------------------------------------------------------
  // Listing in URL order
  // ---------------------------------------------------------------------

  function Urls(prs: seq<PR>): seq<string>
  {
    seq(|prs|, i requires 0 <= i < |prs| => prs[i].url)
  }

  function UrlNotAfter(): (PR, PR) -> bool
  {
    (a: PR, b: PR) => !Less(b.url, a.url)
  }

  lemma UrlNotAfterIsTotalPreorder()
    ensures IsTotalPreorder(UrlNotAfter())
  {
    forall a: PR, b: PR ensures UrlNotAfter()(a, b) || UrlNotAfter()(b, a) {
      LessTotal(a.url, b.url);
      if Less(a.url, b.url) { LessAsymmetric(a.url, b.url); }
    }
    forall a: PR, b: PR, c: PR
      | UrlNotAfter()(a, b) && UrlNotAfter()(b, c) ensures UrlNotAfter()(a, c)
    {
      LessTotal(a.url, b.url);
      LessTotal(b.url, c.url);
      if Less(c.url, a.url) {
        if a.url == b.url {
        } else if Less(c.url, b.url) {
          LessAsymmetric(c.url, b.url);
        } else {
          LessTransitive(c.url, a.url, b.url);
          LessAsymmetric(a.url, b.url);
        }
      }
    }
  }

  function PrUrl(pr: PR): string
  {
    pr.url
  }

  /**
   * `allPRs`: the pull requests of the map, appended in range order and
   * sorted by URL. URLs are the map's keys, so they are distinct and the
   * order is strictly ascending.
   */
  method ListByUrl(prs: map<string, PR>) returns (all: seq<PR>)
    requires forall u :: u in prs ==> prs[u].url == u
    ensures |all| == |prs|
    ensures forall pr :: pr in all <==> pr.url in prs && prs[pr.url] == pr
    ensures StrictlyAscending(Urls(all))
  {
    var listed, order := RangeValues(prs);
    UrlNotAfterIsTotalPreorder();
    all := SortBy(listed, UrlNotAfter());
    SortedByUrl(prs, order, listed, all);
  }

  /** What sorting the values of a URL-keyed map by URL gives. */
  lemma SortedByUrl(prs: map<string, PR>, order: seq<string>, listed: seq<PR>, all: seq<PR>)
    requires forall u :: u in prs ==> prs[u].url == u
    requires ListsKeys(order, prs) && listed == Visit(prs, order)
    requires SortedBy(all, UrlNotAfter()) && multiset(all) == multiset(listed)
    ensures |all| == |prs|
    ensures forall pr :: pr in all <==> pr.url in prs && prs[pr.url] == pr
    ensures StrictlyAscending(Urls(all))
  {
    DistinctCardinality(order, prs.Keys);
    assert |all| == |listed|;
    ListedValues(prs, order, listed, all);
    ListedUrlsDistinct(prs, order, listed);
    PermutationDistinct(listed, all, PrUrl);
    UrlsAscending(all);
  }

  /** Sorted by URL with no URL twice: the URLs strictly ascend. */
  lemma UrlsAscending(all: seq<PR>)
    requires SortedBy(all, UrlNotAfter())
    requires forall i, j :: 0 <= i < j < |all| ==> PrUrl(all[i]) != PrUrl(all[j])
    ensures StrictlyAscending(Urls(all))
  {
    forall i, j | 0 <= i < j < |all| ensures Less(Urls(all)[i], Urls(all)[j]) {
      assert PrUrl(all[i]) != PrUrl(all[j]);
      assert UrlNotAfter()(all[i], all[j]);
      LessTotal(all[i].url, all[j].url);
    }
  }

  lemma ListedValues(prs: map<string, PR>, order: seq<string>, listed: seq<PR>, all: seq<PR>)
    requires forall u :: u in prs ==> prs[u].url == u
    requires ListsKeys(order, prs) && listed == Visit(prs, order)
    requires multiset(all) == multiset(listed)
    ensures forall pr :: pr in all <==> pr.url in prs && prs[pr.url] == pr
  {
    SameMembers(all, listed);
    forall pr ensures pr in listed <==> pr.url in prs && prs[pr.url] == pr {
      if pr.url in prs && prs[pr.url] == pr {
        var i :| 0 <= i < |order| && order[i] == pr.url;
        assert listed[i] == pr;
      }
    }
  }

  lemma SameMembers(a: seq<PR>, b: seq<PR>)
    requires multiset(a) == multiset(b)
    ensures forall pr :: pr in a <==> pr in b
  {
    forall pr ensures pr in a <==> pr in b {
      if pr in a { assert pr in multiset(a); }
      if pr in b { assert pr in multiset(b); }
    }
  }

  /** The values listed in range order carry the distinct keys as URLs. */
  lemma ListedUrlsDistinct(prs: map<string, PR>, order: seq<string>, listed: seq<PR>)
    requires forall u :: u in prs ==> prs[u].url == u
    requires ListsKeys(order, prs) && listed == Visit(prs, order)
    ensures forall i, j :: 0 <= i < j < |listed| ==> PrUrl(listed[i]) != PrUrl(listed[j])
  {
    forall i, j | 0 <= i < j < |listed| ensures PrUrl(listed[i]) != PrUrl(listed[j]) {
      assert listed[i].url == order[i];
    }
  }

  // ---------------------------------------------------------------------
  // Counting per organisation and repository
  // ---------------------------------------------------------------------

  function OrgOf(pr: PR): string
  {
    ExtractOrganization(pr.repoUrl)
  }

  function RepoOf(pr: PR): string
  {
    ExtractRepo(pr.repoUrl)
  }

  /** The URLs of the pull requests of `prs` whose key is `k`. */
  ghost function WithKey(prs: map<string, PR>, key: PR -> string, k: string): set<string>
  {
    set u | u in prs && key(prs[u]) == k
  }

  /** Visiting distinct URLs meets the key `k` once per URL carrying it. */
  lemma {:induction false} VisitOccurrences(prs: map<string, PR>, order: seq<string>, key: PR -> string, k: string)
    requires forall u :: u in order ==> u in prs
    requires Distinct(order)
    ensures Occurrences(Visit(prs, order), key, k) == |set u | u in order && key(prs[u]) == k|
    decreases |order|
  {
    if order != [] {
      var init, last := order[..|order| - 1], order[|order| - 1];
      assert Visit(prs, order) == Visit(prs, init) + [prs[last]];
      assert order == init + [last];
      VisitOccurrences(prs, init, key, k);
      OccurrencesSnoc(Visit(prs, init), prs[last], key, k);
      assert last !in init by {
        assert forall i :: 0 <= i < |init| ==> init[i] == order[i] != order[|order| - 1];
      }
      WithKeySnoc(prs, init, last, key, k);
    }
  }

  lemma WithKeySnoc(prs: map<string, PR>, init: seq<string>, last: string, key: PR -> string, k: string)
    requires forall u :: u in init ==> u in prs
    requires last in prs && last !in init
    ensures |set u | u in init + [last] && key(prs[u]) == k| ==
      |set u | u in init && key(prs[u]) == k| + (if key(prs[last]) == k then 1 else 0)
  {
    var before := set u | u in init && key(prs[u]) == k;
    var after := set u | u in init + [last] && key(prs[u]) == k;
    assert after == before + (if key(prs[last]) == k then {last} else {});
  }

  /** A tally over a visit of every URL counts, for each key, the URLs carrying it, whatever the order. */
  lemma TallyCountsUrls(prs: map<string, PR>, order: seq<string>, counts: map<string, int>, key: PR -> string)
    requires ListsKeys(order, prs)
    requires IsTally(counts, Visit(prs, order), key)
    ensures forall k :: Get(counts, k) == |WithKey(prs, key, k)|
  {
    forall k ensures Get(counts, k) == |WithKey(prs, key, k)| {
      VisitOccurrences(prs, order, key, k);
      assert (set u | u in order && key(prs[u]) == k) == WithKey(prs, key, k);
    }
  }

  /**
   * One counting loop of `main` over a merged map: `repoCount[repo]++`
   * and `orgCount[org]++` for every pull request, in range order.
   */
  method CountByRepository(prs: map<string, PR>)
    returns (repoCount: map<string, int>, orgCount: map<string, int>, ghost order: seq<string>)
    ensures ListsKeys(order, prs)
    ensures IsTally(repoCount, Visit(prs, order), RepoOf)
    ensures IsTally(orgCount, Visit(prs, order), OrgOf)
    ensures MapSum(repoCount) == |prs| && MapSum(orgCount) == |prs|
    ensures forall k :: Get(repoCount, k) == |WithKey(prs, RepoOf, k)|
    ensures forall k :: Get(orgCount, k) == |WithKey(prs, OrgOf, k)|
  {
    var keys := MapKeys(prs);
    order := keys;
    repoCount, orgCount := CountVisited(prs, keys);
    TallyTotal(repoCount, Visit(prs, keys), RepoOf);
    TallyTotal(orgCount, Visit(prs, keys), OrgOf);
    DistinctCardinality(keys, prs.Keys);
    TallyCountsUrls(prs, keys, repoCount, RepoOf);
    TallyCountsUrls(prs, keys, orgCount, OrgOf);
  }

  /** The loop of the counting: the pull requests of `keys`, visited in that order. */
  method CountVisited(prs: map<string, PR>, keys: seq<string>) returns (repoCount: map<string, int>, orgCount: map<string, int>)
    requires forall k :: k in keys ==> k in prs
    ensures IsTally(repoCount, Visit(prs, keys), RepoOf)
    ensures IsTally(orgCount, Visit(prs, keys), OrgOf)
  {
    repoCount, orgCount := map[], map[];
    ghost var visited := [];
    for i := 0 to |keys|
      invariant visited == Visit(prs, keys[..i])
      invariant IsTally(repoCount, visited, RepoOf)
      invariant IsTally(orgCount, visited, OrgOf)
    {
      var pr := prs[keys[i]];
      var org := ExtractOrganization(pr.repoUrl);
      var repo := ExtractRepo(pr.repoUrl);
      VisitSnoc(prs, keys, i);
      repoCount := CountOne(repoCount, visited, RepoOf, repo, pr);
      orgCount := CountOne(orgCount, visited, OrgOf, org, pr);
      visited := visited + [pr];
    }
    assert keys[..|keys|] == keys;
  }

  /** `counts[name]++` for the name `key` gives one more pull request. */
  method CountOne(counts: map<string, int>, ghost seen: seq<PR>, key: PR -> string, name: string, pr: PR)
    returns (counts': map<string, int>)
    requires IsTally(counts, seen, key) && name == key(pr)
    ensures IsTally(counts', seen + [pr], key)
  {
    TallyStep(counts, seen, key, pr);
    counts' := counts[name := Get(counts, name) + 1];
  }

  /** The keys listed from a count map are those of the pull requests of the map. */
  lemma ReportedKeys(prs: map<string, PR>, order: seq<string>, counts: map<string, int>, key: PR -> string, keys: seq<string>)
    requires ListsKeys(order, prs)
    requires IsTally(counts, Visit(prs, order), key)
    requires forall k :: k in keys <==> k in counts
    ensures forall k :: k in keys <==> exists u :: u in prs && key(prs[u]) == k
  {
    forall k ensures k in keys <==> exists u :: u in prs && key(prs[u]) == k {
      CountedKeys(prs, order, counts, key, k);
    }
  }

  /** A counted key is the key of some pull request of the map, whatever the range order. */
  lemma CountedKeys(prs: map<string, PR>, order: seq<string>, counts: map<string, int>, key: PR -> string, k: string)
    requires ListsKeys(order, prs)
    requires IsTally(counts, Visit(prs, order), key)
    ensures k in counts <==> exists u :: u in prs && key(prs[u]) == k
  {
    var visited := Visit(prs, order);
    OccurrencesExist(visited, key, k);
    if exists u :: u in prs && key(prs[u]) == k {
      var u :| u in prs && key(prs[u]) == k;
      var i :| 0 <= i < |order| && order[i] == u;
      assert key(visited[i]) == k;
    }
  }


  // ---------------------------------------------------------------------
  // The whole summary
  // ---------------------------------------------------------------------

  datatype Summary = Summary(
    allPRs: seq<PR>,
    involves: map<string, PR>,
    author: map<string, PR>,
    repoInvolvesCount: map<string, int>,
    repoAuthorCount: map<string, int>,
    orgInvolvesCount: map<string, int>,
    orgAuthorCount: map<string, int>,
    sortedOrganizations: seq<string>,
    sortedRepos: seq<string>)

  /** The bookkeeping of `main`, from the four search results to the reported lists and counts. */
  method Summarize(
    involvesCreated: seq<PR>, involvesMerged: seq<PR>, authorCreated: seq<PR>, authorMerged: seq<PR>)
    returns (s: Summary)
    ensures s.involves == ByUrl(involvesCreated) + ByUrl(involvesMerged)
    ensures s.author == ByUrl(authorCreated) + ByUrl(authorMerged)
    ensures |s.allPRs| == |s.involves| && StrictlyAscending(Urls(s.allPRs))
    ensures forall pr :: pr in s.allPRs <==> pr.url in s.involves && s.involves[pr.url] == pr
    ensures MapSum(s.repoInvolvesCount) == |s.involves| && MapSum(s.orgInvolvesCount) == |s.involves|
    ensures MapSum(s.repoAuthorCount) == |s.author| && MapSum(s.orgAuthorCount) == |s.author|
    ensures forall k :: Get(s.repoInvolvesCount, k) == |WithKey(s.involves, RepoOf, k)|
    ensures forall k :: Get(s.orgInvolvesCount, k) == |WithKey(s.involves, OrgOf, k)|
    ensures forall k :: Get(s.repoAuthorCount, k) == |WithKey(s.author, RepoOf, k)|
    ensures forall k :: Get(s.orgAuthorCount, k) == |WithKey(s.author, OrgOf, k)|
    ensures forall o :: o in s.sortedOrganizations <==> exists u :: u in s.involves && OrgOf(s.involves[u]) == o
    ensures forall r :: r in s.sortedRepos <==> exists u :: u in s.involves && RepoOf(s.involves[u]) == r
    ensures StrictlyAscending(s.sortedOrganizations) && StrictlyAscending(s.sortedRepos)
  {
    var involves := MergeByUrl(involvesCreated, involvesMerged);
    var author := MergeByUrl(authorCreated, authorMerged);
    var allPRs := ListByUrl(involves);
    var repoInvolves, orgInvolves, orgs, repos := InvolvedCounts(involves);
    var repoAuthor, orgAuthor, authorOrder := CountByRepository(author);
    s := Summary(allPRs, involves, author, repoInvolves, repoAuthor, orgInvolves, orgAuthor, orgs, repos);
  }

  /** The counts over the involved pull requests and the sorted lists of their organisations and repositories. */
  method InvolvedCounts(involves: map<string, PR>)
    returns (repoCount: map<string, int>, orgCount: map<string, int>, orgs: seq<string>, repos: seq<string>)
    ensures MapSum(repoCount) == |involves| && MapSum(orgCount) == |involves|
    ensures forall k :: Get(repoCount, k) == |WithKey(involves, RepoOf, k)|
    ensures forall k :: Get(orgCount, k) == |WithKey(involves, OrgOf, k)|
    ensures forall o :: o in orgs <==> exists u :: u in involves && OrgOf(involves[u]) == o
    ensures forall r :: r in repos <==> exists u :: u in involves && RepoOf(involves[u]) == r
    ensures StrictlyAscending(orgs) && StrictlyAscending(repos)
  {
    ghost var order;
    repoCount, orgCount, order := CountByRepository(involves);
    orgs := SortedKeyList(orgCount);
    repos := SortedKeyList(repoCount);
    ReportedKeys(involves, order, orgCount, OrgOf, orgs);
    ReportedKeys(involves, order, repoCount, RepoOf, repos);
  }
}
