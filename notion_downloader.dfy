/**
 * The text processing of the Notion page downloader: reading the list of
 * pages to fetch from a markdown file, writing the fetched titles back into
 * that file, reading a page ID out of a Notion URL, rendering a block as
 * markdown and making a title safe as a file name.
 */
module NotionDownloader {
  import opened Wrappers
  import opened Text
  import opened Collections
  import opened Numerals

  datatype PageDownloadInfo = PageDownloadInfo(title: string, url: string, pageId: string, category: string)

  datatype CategoryInfo = CategoryInfo(name: string, pages: seq<PageDownloadInfo>)

  datatype DownloadConfig = DownloadConfig(
    categories: seq<CategoryInfo>,
    outputDir: string,
    startDate: string,
    endDate: string,
    markdownPath: string)

  // ---------------------------------------------------------------------
  // Page IDs
  // ---------------------------------------------------------------------

  const PageIdLength := 32

  /** The URL without its fragment: everything before the first '#'. */
  function WithoutFragment(url: string): (r: string)
    ensures '#' !in r && HasPrefix(url, r)
    ensures '#' !in url ==> r == url
  {
    match IndexOf(url, '#')
    case None => url
    case Some(k) => url[..k]
  }

  /**
   * `extractPageIDFromURL`: the piece after the last '-' of the URL without
   * its fragment, cut to its first 32 characters, or "" when that piece is
   * shorter.
   */
  function ExtractPageIdFromUrl(url: string): (r: string)
    ensures |r| == 0 || |r| == PageIdLength
    ensures '-' !in r
  {
    var parts := Split(WithoutFragment(url), '-');
    var last := parts[|parts| - 1];
    if |last| >= PageIdLength then last[..PageIdLength] else ""
  }

  /** The last piece of a split is the text after the last separator. */
  lemma LastPieceAfterSeparator(s: string, c: char)
    ensures var parts := Split(s, c);
      parts[|parts| - 1] == match LastIndexOf(s, c) case None => s case Some(k) => s[k + 1..]
  {
    match LastIndexOf(s, c)
    case None =>
    case Some(k) =>
      assert s == s[..k] + [c] + s[k + 1..];
      SplitSnoc(s[..k], s[k + 1..], c);
  }

  /** A non-empty page ID is read from the URL itself, before its fragment. */
  lemma PageIdInUrl(url: string)
    ensures var r := ExtractPageIdFromUrl(url);
      r != "" ==> '#' !in r && Contains(WithoutFragment(url), r)
  {
    var base := WithoutFragment(url);
    var r := ExtractPageIdFromUrl(url);
    var start := LastPieceStart(base, '-');
    if r != "" {
      SliceOccurs(base, start, PageIdLength);
      assert r == base[start..start + PageIdLength];
    }
  }

  /** Where the last piece of a split begins. */
  lemma LastPieceStart(s: string, c: char) returns (start: nat)
    ensures start <= |s| && Split(s, c)[|Split(s, c)| - 1] == s[start..]
  {
    LastPieceAfterSeparator(s, c);
    match LastIndexOf(s, c)
    case None =>
      start := 0;
    case Some(k) =>
      start := k + 1;
  }

  /** A slice occurs where it was taken, and holds no character its string lacks. */
  lemma SliceOccurs(s: string, start: nat, n: nat)
    requires start + n <= |s|
    ensures OccursAt(s, s[start..start + n], start) && Contains(s, s[start..start + n])
    ensures forall c :: c in s[start..start + n] ==> c in s
  {
    assert OccursAt(s, s[start..start + n], start);
    forall c | c in s[start..start + n] ensures c in s {
      var i :| 0 <= i < n && s[start..start + n][i] == c;
      assert s[start + i] == c;
    }
  }

  /**
   * The URL shape the downloader expects, `<slug>-<id>` with an optional
   * `#fragment`, gives back the 32-character ID.
   */
  lemma PageIdRoundTrip(slug: string, id: string, fragment: string)
    requires '#' !in slug && '#' !in id && '-' !in id && |id| == PageIdLength
    ensures ExtractPageIdFromUrl(slug + "-" + id) == id
    ensures ExtractPageIdFromUrl(slug + "-" + id + "#" + fragment) == id
  {
    var url := slug + "-" + id;
    assert '#' !in url;
    SplitSnoc(slug, id, '-');
    var tagged := url + "#" + fragment;
    IndexOfFirst(tagged, '#', |url|);
    assert tagged[..|url|] == url;
  }

  /** Without any '-', the "ID" is the first 32 characters of the whole URL. */
  lemma PageIdWithoutDash(url: string)
    requires '-' !in url && '#' !in url && |url| >= PageIdLength
    ensures ExtractPageIdFromUrl(url) == url[..PageIdLength]
  {
    assert IndexOf(url, '-').None?;
  }

  // ---------------------------------------------------------------------
  // Reading the page list
  // ---------------------------------------------------------------------

  const UrlLinePrefix := "    - https://www.notion.so/"
  const NotionUrlPrefix := "https://www.notion.so/"
  const OutputRoot := "notion-downloads/"

  /** `## Name` after trimming: a category header. */
  predicate IsHeader(line: string)
  {
    HasPrefix(TrimSpace(line), "## ")
  }

  function HeaderName(line: string): string
  {
    TrimPrefix(TrimSpace(line), "## ")
  }

  /** `- Title` after trimming, not indented as a URL item: a page title line. */
  predicate IsTitleLine(line: string)
  {
    HasPrefix(TrimSpace(line), "- ") && !HasPrefix(line, "    -")
  }

  predicate IsUrlLine(line: string)
  {
    HasPrefix(line, UrlLinePrefix)
  }

  /** `\d{4}-\d{2}-\d{2}` */
  predicate IsDate(s: string)
  {
    |s| == 10 && s[4] == '-' && s[7] == '-' &&
    forall i :: 0 <= i < 10 && i != 4 && i != 7 ==> IsDigit(s[i])
  }

  /** `(\d{4}-\d{2}-\d{2}) to (\d{4}-\d{2}-\d{2})` matches at index `i`. */
  predicate DateRangeAt(t: string, i: nat)
  {
    i + 24 <= |t| && IsDate(t[i..i + 10]) && t[i + 10..i + 14] == " to " && IsDate(t[i + 14..i + 24])
  }

  /** The leftmost match of the date-range pattern at or after `from`. */
  function FindDateRange(t: string, from: nat): (r: Option<nat>)
    ensures r.Some? ==> from <= r.value && DateRangeAt(t, r.value)
    ensures r.Some? ==> forall j :: from <= j < r.value ==> !DateRangeAt(t, j)
    ensures r.None? ==> forall j :: from <= j ==> !DateRangeAt(t, j)
    decreases |t| - from
  {
    if from + 24 > |t| then None
    else if DateRangeAt(t, from) then Some(from)
    else FindDateRange(t, from + 1)
  }

  /**
   * The dates a line sets: only a trimmed line containing "to" and "2025"
   * is searched, and the leftmost match gives the two dates.
   */
  function LineDateRange(line: string): Option<(string, string)>
  {
    var t := TrimSpace(line);
    if Contains(t, "to") && Contains(t, "2025") then
      match FindDateRange(t, 0)
      case None => None
      case Some(i) => Some((t[i..i + 10], t[i + 14..i + 24]))
    else None
  }

  function OutputDirFor(startDate: string, endDate: string): string
  {
    OutputRoot + startDate + "_to_" + endDate
  }

  /** Start date, end date and output directory: set by the last line that carries a date range, "" if none does. */
  function DateSettings(lines: seq<string>): (r: (string, string, string))
    ensures r == ("", "", "") || r.2 == OutputDirFor(r.0, r.1)
    decreases |lines|
  {
    if lines == [] then ("", "", "")
    else
      match LineDateRange(lines[|lines| - 1])
      case Some((s, e)) => (s, e, OutputDirFor(s, e))
      case None => DateSettings(lines[..|lines| - 1])
  }

  /** The names of the category headers, in file order. */
  function Headers(lines: seq<string>): seq<string>
    decreases |lines|
  {
    if lines == [] then []
    else Headers(lines[..|lines| - 1]) + (if IsHeader(lines[|lines| - 1]) then [HeaderName(lines[|lines| - 1])] else [])
  }

  function Names(categories: seq<CategoryInfo>): (r: seq<string>)
    ensures |r| == |categories| && forall i :: 0 <= i < |categories| ==> r[i] == categories[i].name
  {
    seq(|categories|, i requires 0 <= i < |categories| => categories[i].name)
  }

  function PageTotal(c: CategoryInfo): int
  {
    |c.pages|
  }

  /** The number of pages over all categories. */
  function PageCount(categories: seq<CategoryInfo>): int
  {
    SumBy(categories, PageTotal)
  }

  /**
   * What every listed page is: it has a title, it belongs to the category
   * holding it, its URL is the text of a URL line and its ID is read from
   * that URL.
   */
  predicate ListedPage(lines: seq<string>, p: PageDownloadInfo, category: string)
  {
    p.title != "" && p.category == category && "    - " + p.url in lines &&
    HasPrefix(p.url, NotionUrlPrefix) && p.pageId == ExtractPageIdFromUrl(p.url)
  }

  /** The loader's state between two lines. */
  datatype Scan = Scan(
    categories: seq<CategoryInfo>,
    currentTitle: string,
    startDate: string,
    endDate: string,
    outputDir: string)

  /** The text of a title line: the trimmed line without its `- ` marker. */
  function TitleText(line: string): string
  {
    TrimPrefix(TrimSpace(line), "- ")
  }

  /** The page a URL line adds under `category` while `title` is pending. */
  function PageOfLine(line: string, title: string, category: string): PageDownloadInfo
  {
    var url := TrimPrefix(line, "    - ");
    PageDownloadInfo(title, url, ExtractPageIdFromUrl(url), category)
  }

  /** Start date, end date and output directory after `line`: its date range if it carries one. */
  function DatesAfter(line: string, startDate: string, endDate: string, outputDir: string): (string, string, string)
  {
    match LineDateRange(line)
    case Some((s, e)) => (s, e, OutputDirFor(s, e))
    case None => (startDate, endDate, outputDir)
  }

  /** The categories after `line`: a header opens a new, empty one. */
  function CategoriesAfter(categories: seq<CategoryInfo>, line: string): seq<CategoryInfo>
  {
    if IsHeader(line) then AddCategory(categories, HeaderName(line)) else categories
  }

  /** The pending title after `line`: a title line sets it once a category exists. */
  function TitleAfter(title: string, categories: seq<CategoryInfo>, line: string): string
  {
    if IsTitleLine(line) && |categories| > 0 then TitleText(line) else title
  }

  /** A URL line adds a page when a category exists and a title is pending. */
  predicate AddsPage(categories: seq<CategoryInfo>, title: string, line: string)
  {
    IsUrlLine(line) && |categories| > 0 && title != ""
  }

  /**
   * The categories and pending title after a URL line: a page with the
   * pending title goes to the last category and the title is cleared.
   */
  function UrlAfter(categories: seq<CategoryInfo>, title: string, line: string): (seq<CategoryInfo>, string)
  {
    if AddsPage(categories, title, line) then
      (AddPage(categories, PageOfLine(line, title, categories[|categories| - 1].name)), "")
    else (categories, title)
  }

  /**
   * One line's effect on the loader's state, in the order the loop applies
   * them: the date range it carries, the category it opens, the title it
   * makes pending once a category exists, and the page it adds to the last
   * category while a title is pending, which clears the title.
   */
  function LineStep(s: Scan, line: string): Scan
  {
    var dates := DatesAfter(line, s.startDate, s.endDate, s.outputDir);
    var categories := CategoriesAfter(s.categories, line);
    var title := TitleAfter(s.currentTitle, categories, line);
    var after := UrlAfter(categories, title, line);
    Scan(after.0, after.1, dates.0, dates.1, dates.2)
  }

  /** The loader's state after `lines`, from an empty configuration. */
  function ScanLines(lines: seq<string>): Scan
    decreases |lines|
  {
    if lines == [] then Scan([], "", "", "", "")
    else LineStep(ScanLines(lines[..|lines| - 1]), lines[|lines| - 1])
  }

  /**
   * The title waiting for its URL after `lines`: the text of the last title
   * line read once a header has appeared, unless a URL line came after it.
   */
  function PendingTitle(lines: seq<string>): string
    decreases |lines|
  {
    if lines == [] then ""
    else
      var line := lines[|lines| - 1];
      if IsUrlLine(line) then ""
      else if IsTitleLine(line) && Headers(lines) != [] then TitleText(line)
      else PendingTitle(lines[..|lines| - 1])
  }

  /**
   * The pages `lines` add, in file order: one per URL line read after a
   * header while a title is pending, tagged with the index of the latest
   * header and carrying the pending title and that header's name.
   */
  function AddedPages(lines: seq<string>): seq<(nat, PageDownloadInfo)>
    decreases |lines|
  {
    if lines == [] then []
    else
      var init := lines[..|lines| - 1];
      AddedPages(init) + NewPage(init, lines[|lines| - 1])
  }

  /** The page `line` adds after the lines `init`, if any. */
  function NewPage(init: seq<string>, line: string): seq<(nat, PageDownloadInfo)>
  {
    var h := Headers(init);
    if IsUrlLine(line) && |h| > 0 && PendingTitle(init) != "" then
      [(|h| - 1, PageOfLine(line, PendingTitle(init), h[|h| - 1]))]
    else []
  }

  /** The pages of `tagged` that carry the tag `k`, in order. */
  function PagesUnder(tagged: seq<(nat, PageDownloadInfo)>, k: nat): seq<PageDownloadInfo>
    decreases |tagged|
  {
    if tagged == [] then []
    else
      var last := tagged[|tagged| - 1];
      PagesUnder(tagged[..|tagged| - 1], k) + (if last.0 == k then [last.1] else [])
  }

  /**
   * `LoadFromMarkdown` over the lines of the file: `## Name` opens a new
   * empty category, `- Title` (once a category exists) sets the pending
   * title, and a `    - https://www.notion.so/…` line adds a page with the
   * pending title to the last category and clears the title. Category `k`
   * ends up holding exactly the pages added while header `k` was the latest.
   */
  method LoadFromMarkdown(lines: seq<string>, markdownPath: string) returns (config: DownloadConfig)
    ensures config.markdownPath == markdownPath
    ensures Names(config.categories) == Headers(lines)
    ensures PagesMatch(config.categories, AddedPages(lines))
    ensures forall c, p :: c in config.categories && p in c.pages ==> ListedPage(lines, p, c.name)
    ensures PageCount(config.categories) == |AddedPages(lines)| <= |Filter(lines, IsUrlLine)|
    ensures (config.startDate, config.endDate, config.outputDir) == DateSettings(lines)
  {
    var s := Scan([], "", "", "", "");
    for i := 0 to |lines|
      invariant s == ScanLines(lines[..i])
    {
      assert lines[..i + 1][..i] == lines[..i];
      s := ScanLine(s, lines[i]);
    }
    assert lines[..|lines|] == lines;
    ScanNames(lines);
    ScanPages(lines);
    ScanListed(lines);
    ScanPageCount(lines);
    AddedPagesBound(lines);
    ScanDates(lines);
    config := DownloadConfig(s.categories, s.outputDir, s.startDate, s.endDate, markdownPath);
  }

  /** One pass of the loader's loop, over one line. */
  method ScanLine(s: Scan, line: string) returns (s': Scan)
    ensures s' == LineStep(s, line)
  {
    var startDate, endDate, outputDir := ReadDateRange(line, s.startDate, s.endDate, s.outputDir);
    var categories := ReadHeader(s.categories, line);
    var currentTitle := ReadTitle(s.currentTitle, categories, line);
    categories, currentTitle := ReadUrl(categories, currentTitle, line);
    s' := Scan(categories, currentTitle, startDate, endDate, outputDir);
  }

  /** The URL step of the loader's loop. */
  method ReadUrl(categories: seq<CategoryInfo>, title: string, line: string)
    returns (categories': seq<CategoryInfo>, title': string)
    ensures (categories', title') == UrlAfter(categories, title, line)
  {
    categories', title' := categories, title;
    if HasPrefix(line, UrlLinePrefix) && |categories| > 0 && title != "" {
      var url := TrimPrefix(line, "    - ");
      var current := categories[|categories| - 1];
      var page := PageDownloadInfo(title, url, ExtractPageIdFromUrl(url), current.name);
      categories' := AddPage(categories, page);
      title' := "";
    }
  }

  /** The header step of the loader's loop. */
  method ReadHeader(categories: seq<CategoryInfo>, line: string) returns (categories': seq<CategoryInfo>)
    ensures categories' == CategoriesAfter(categories, line)
  {
    categories' := categories;
    var trimmed := TrimSpace(line);
    if HasPrefix(trimmed, "## ") {
      categories' := AddCategory(categories, TrimPrefix(trimmed, "## "));
    }
  }

  /** The title step of the loader's loop. */
  method ReadTitle(title: string, categories: seq<CategoryInfo>, line: string) returns (title': string)
    ensures title' == TitleAfter(title, categories, line)
  {
    title' := title;
    var trimmed := TrimSpace(line);
    if HasPrefix(trimmed, "- ") && |categories| > 0 && !HasPrefix(line, "    -") {
      title' := TrimPrefix(trimmed, "- ");
    }
  }

  /** The date-range step of the loader's loop. */
  method ReadDateRange(line: string, startDate: string, endDate: string, outputDir: string)
    returns (startDate': string, endDate': string, outputDir': string)
    ensures (startDate', endDate', outputDir') == DatesAfter(line, startDate, endDate, outputDir)
  {
    startDate', endDate', outputDir' := startDate, endDate, outputDir;
    var trimmed := TrimSpace(line);
    if Contains(trimmed, "to") && Contains(trimmed, "2025") {
      var m := FindDateRange(trimmed, 0);
      if m.Some? {
        var k := m.value;
        startDate', endDate' := trimmed[k..k + 10], trimmed[k + 14..k + 24];
        outputDir' := OutputDirFor(startDate', endDate');
      }
    }
  }

  /** A URL line holds a Notion URL after its list marker. */
  lemma UrlOfUrlLine(line: string)
    requires IsUrlLine(line)
    ensures var url := TrimPrefix(line, "    - ");
      "    - " + url == line && HasPrefix(url, NotionUrlPrefix)
  {
    assert line[..6] == "    - ";
    assert line[6..][..|NotionUrlPrefix|] == line[6..|UrlLinePrefix|] == NotionUrlPrefix;
  }

  /** A URL line is neither a header nor a title line: trimmed, it starts with '-'. */
  lemma UrlLineKind(line: string)
    requires IsUrlLine(line)
    ensures !IsHeader(line) && !IsTitleLine(line)
  {
    assert line[..|UrlLinePrefix|] == UrlLinePrefix;
    assert line[0] == line[1] == line[2] == line[3] == ' ' && line[4] == '-';
    var l := TrimLeft(line);
    assert l[0] == '-';
    assert TrimSpace(line)[0] == '-';
  }

  /** Appending a new empty category. */
  function AddCategory(categories: seq<CategoryInfo>, name: string): (r: seq<CategoryInfo>)
    ensures Names(r) == Names(categories) + [name]
    ensures PageCount(r) == PageCount(categories)
    ensures r[..|categories|] == categories && r[|categories|].pages == []
  {
    SumBySnoc(categories, CategoryInfo(name, []), PageTotal);
    categories + [CategoryInfo(name, [])]
  }

  /** Appending a page to the last category; every other category, and every earlier page, stays as it was. */
  function AddPage(categories: seq<CategoryInfo>, page: PageDownloadInfo): (r: seq<CategoryInfo>)
    requires |categories| > 0
    ensures |r| == |categories| && r[..|r| - 1] == categories[..|categories| - 1]
    ensures r[|r| - 1].name == categories[|r| - 1].name && r[|r| - 1].pages == categories[|r| - 1].pages + [page]
    ensures Names(r) == Names(categories)
    ensures PageCount(r) == PageCount(categories) + 1
  {
    var n := |categories| - 1;
    var last := categories[n];
    var updated := last.(pages := last.pages + [page]);
    assert categories == categories[..n] + [last];
    SumBySnoc(categories[..n], last, PageTotal);
    SumBySnoc(categories[..n], updated, PageTotal);
    categories[..n] + [updated]
  }

  /** The categories the loader builds are the headers, in file order. */
  lemma {:induction false} ScanNames(lines: seq<string>)
    ensures Names(ScanLines(lines).categories) == Headers(lines)
    decreases |lines|
  {
    if lines != [] {
      ScanNames(lines[..|lines| - 1]);
    }
  }

  /** No title is pending before the first header. */
  lemma {:induction false} PendingTitleNeedsHeader(lines: seq<string>)
    requires Headers(lines) == []
    ensures PendingTitle(lines) == ""
    decreases |lines|
  {
    if lines != [] {
      PendingTitleNeedsHeader(lines[..|lines| - 1]);
    }
  }

  /** The loader's pending title is the last unconsumed title line's text. */
  lemma {:induction false} ScanPending(lines: seq<string>)
    ensures ScanLines(lines).currentTitle == PendingTitle(lines)
    decreases |lines|
  {
    if lines != [] {
      var init, line := lines[..|lines| - 1], lines[|lines| - 1];
      ScanPending(init);
      ScanNames(init);
      ScanNames(lines);
      if IsUrlLine(line) {
        UrlLineKind(line);
        if Headers(init) == [] {
          PendingTitleNeedsHeader(init);
        }
      }
    }
  }

  /** Every added page is listed under an existing header, as `ListedPage` describes. */
  lemma {:induction false} AddedPagesListed(lines: seq<string>)
    ensures forall t :: t in AddedPages(lines) ==> t.0 < |Headers(lines)| && ListedPage(lines, t.1, Headers(lines)[t.0])
    decreases |lines|
  {
    if lines != [] {
      var init, line := lines[..|lines| - 1], lines[|lines| - 1];
      AddedPagesListed(init);
      assert Headers(lines)[..|Headers(init)|] == Headers(init);
      forall t | t in AddedPages(init)
        ensures t.0 < |Headers(lines)| && ListedPage(lines, t.1, Headers(lines)[t.0])
      {
        assert "    - " + t.1.url in init;
      }
      if IsUrlLine(line) {
        UrlLineKind(line);
        UrlOfUrlLine(line);
        assert Headers(lines) == Headers(init);
      }
    }
  }

  /** A page carrying tag `k` comes from an added page with that tag. */
  lemma {:induction false} PagesUnderFrom(tagged: seq<(nat, PageDownloadInfo)>, k: nat, p: PageDownloadInfo)
    requires p in PagesUnder(tagged, k)
    ensures (k, p) in tagged
    decreases |tagged|
  {
    var init := tagged[..|tagged| - 1];
    if p in PagesUnder(init, k) {
      PagesUnderFrom(init, k, p);
      assert (k, p) in init;
    }
  }

  /** No added page carries a tag that no page has. */
  lemma {:induction false} PagesUnderAbsent(tagged: seq<(nat, PageDownloadInfo)>, k: nat)
    requires forall t :: t in tagged ==> t.0 < k
    ensures PagesUnder(tagged, k) == []
    decreases |tagged|
  {
    if tagged != [] {
      var init := tagged[..|tagged| - 1];
      assert forall t :: t in init ==> t in tagged;
      PagesUnderAbsent(init, k);
    }
  }

  lemma PagesUnderSnoc(tagged: seq<(nat, PageDownloadInfo)>, t: (nat, PageDownloadInfo), k: nat)
    ensures PagesUnder(tagged + [t], k) == PagesUnder(tagged, k) + (if t.0 == k then [t.1] else [])
  {
    assert (tagged + [t])[..|tagged|] == tagged;
  }

  /** Category `k` holds exactly the pages added while header `k` was the latest, in file order. */
  predicate PagesMatch(cats: seq<CategoryInfo>, tagged: seq<(nat, PageDownloadInfo)>)
  {
    forall k :: 0 <= k < |cats| ==> cats[k].pages == PagesUnder(tagged, k)
  }

  /** A page added to the last category is the one new entry tagged with its index. */
  lemma PagesMatchAddPage(cats: seq<CategoryInfo>, tagged: seq<(nat, PageDownloadInfo)>, page: PageDownloadInfo)
    requires |cats| > 0 && PagesMatch(cats, tagged)
    ensures PagesMatch(AddPage(cats, page), tagged + [(|cats| - 1, page)])
  {
    var n := |cats| - 1;
    var r := AddPage(cats, page);
    forall k | 0 <= k < |r|
      ensures r[k].pages == PagesUnder(tagged + [(n, page)], k)
    {
      PagesUnderSnoc(tagged, (n, page), k);
      if k < n {
        assert r[k] == r[..n][k] == cats[..n][k];
      }
    }
  }

  /** A new category starts empty: no earlier page carries its index. */
  lemma PagesMatchAddCategory(cats: seq<CategoryInfo>, tagged: seq<(nat, PageDownloadInfo)>, name: string)
    requires PagesMatch(cats, tagged)
    requires forall t :: t in tagged ==> t.0 < |cats|
    ensures PagesMatch(AddCategory(cats, name), tagged)
  {
    PagesUnderAbsent(tagged, |cats|);
    var r := AddCategory(cats, name);
    forall k | 0 <= k < |r|
      ensures r[k].pages == PagesUnder(tagged, k)
    {
      if k < |cats| {
        assert r[k] == r[..|cats|][k];
      }
    }
  }

  /** The loader's categories hold exactly the pages added under their headers. */
  lemma {:induction false} ScanPages(lines: seq<string>)
    ensures PagesMatch(ScanLines(lines).categories, AddedPages(lines))
    decreases |lines|
  {
    if lines != [] {
      var init, line := lines[..|lines| - 1], lines[|lines| - 1];
      ScanPages(init);
      ScanNames(init);
      ScanPending(init);
      var s := ScanLines(init);
      LineStepCategories(s, line);
      assert AddedPages(lines) == AddedPages(init) + NewPage(init, line);
      if AddsPage(s.categories, s.currentTitle, line) {
        var n := |s.categories| - 1;
        var page := PageOfLine(line, s.currentTitle, s.categories[n].name);
        assert NewPage(init, line) == [(n, page)];
        PagesMatchAddPage(s.categories, AddedPages(init), page);
      } else {
        assert NewPage(init, line) == [];
        assert AddedPages(lines) == AddedPages(init);
        if IsHeader(line) {
          AddedPagesListed(init);
          PagesMatchAddCategory(s.categories, AddedPages(init), HeaderName(line));
        } else {
          assert ScanLines(lines).categories == s.categories;
        }
      }
    }
  }

  /** The categories after one line, by the kind of line. */
  lemma LineStepCategories(s: Scan, line: string)
    ensures AddsPage(s.categories, s.currentTitle, line) ==>
      LineStep(s, line).categories == AddPage(s.categories, PageOfLine(line, s.currentTitle, s.categories[|s.categories| - 1].name))
    ensures !AddsPage(s.categories, s.currentTitle, line) ==>
      LineStep(s, line).categories == CategoriesAfter(s.categories, line)
  {
    if IsUrlLine(line) {
      UrlLineKind(line);
    }
  }

  /** Every page the loader builds is a listed page of its category. */
  lemma ScanListed(lines: seq<string>)
    ensures var cats := ScanLines(lines).categories;
      forall c, p :: c in cats && p in c.pages ==> ListedPage(lines, p, c.name)
  {
    var cats := ScanLines(lines).categories;
    ScanNames(lines);
    ScanPages(lines);
    AddedPagesListed(lines);
    forall c, p | c in cats && p in c.pages
      ensures ListedPage(lines, p, c.name)
    {
      var k :| 0 <= k < |cats| && cats[k] == c;
      PagesUnderFrom(AddedPages(lines), k, p);
      assert Names(cats)[k] == c.name;
    }
  }

  /** The loader builds one page per added page. */
  lemma {:induction false} ScanPageCount(lines: seq<string>)
    ensures PageCount(ScanLines(lines).categories) == |AddedPages(lines)|
    decreases |lines|
  {
    if lines != [] {
      var init, line := lines[..|lines| - 1], lines[|lines| - 1];
      ScanPageCount(init);
      ScanNames(init);
      ScanPending(init);
      if IsUrlLine(line) {
        UrlLineKind(line);
      }
    }
  }

  /** At most one page per URL line. */
  lemma {:induction false} AddedPagesBound(lines: seq<string>)
    ensures |AddedPages(lines)| <= |Filter(lines, IsUrlLine)|
    decreases |lines|
  {
    if lines != [] {
      var init, line := lines[..|lines| - 1], lines[|lines| - 1];
      AddedPagesBound(init);
      assert lines == init + [line];
      FilterSnoc(init, line, IsUrlLine);
    }
  }

  /** The loader's dates are those of the last line carrying a date range. */
  lemma {:induction false} ScanDates(lines: seq<string>)
    ensures var s := ScanLines(lines);
      (s.startDate, s.endDate, s.outputDir) == DateSettings(lines)
    decreases |lines|
  {
    if lines != [] {
      ScanDates(lines[..|lines| - 1]);
    }
  }

  // ---------------------------------------------------------------------
  // Writing the fetched titles back
  // ---------------------------------------------------------------------

  predicate HasPage(c: CategoryInfo, name: string, k: nat)
  {
    c.name == name && k < |c.pages|
  }

  /** The index of the first category, at or after `from`, named `name` that has a `k`-th page. */
  function FirstWithPage(categories: seq<CategoryInfo>, name: string, k: nat, from: nat): (r: Option<nat>)
    requires from <= |categories|
    ensures r.Some? ==> from <= r.value < |categories| && HasPage(categories[r.value], name, k)
    ensures r.Some? ==> forall j :: from <= j < r.value ==> !HasPage(categories[j], name, k)
    ensures r.None? ==> forall j :: from <= j < |categories| ==> !HasPage(categories[j], name, k)
    decreases |categories| - from
  {
    if from == |categories| then None
    else if HasPage(categories[from], name, k) then Some(from)
    else FirstWithPage(categories, name, k, from + 1)
  }

  /** The title the `k`-th title line under header `name` is given, if any. */
  function PageTitle(categories: seq<CategoryInfo>, name: string, k: nat): Option<string>
  {
    match FirstWithPage(categories, name, k, 0)
    case None => None
    case Some(i) => Some(categories[i].pages[k].title)
  }

  /** If no category named `name` has a `k`-th page, none has a later one either. */
  lemma PageTitleMonotone(categories: seq<CategoryInfo>, name: string, k: nat, k': nat)
    requires k <= k' && PageTitle(categories, name, k).None?
    ensures PageTitle(categories, name, k').None?
  {
  }

  /** The header in effect at line `i`: the name of the last header before it, or "" before any. */
  function CurrentHeader(lines: seq<string>, i: nat): string
    requires i <= |lines|
  {
    if i == 0 then ""
    else if IsHeader(lines[i - 1]) then HeaderName(lines[i - 1])
    else CurrentHeader(lines, i - 1)
  }

  /** How many title lines lie between the last header before line `i` and line `i`. */
  function TitleIndex(lines: seq<string>, i: nat): nat
    requires i <= |lines|
  {
    if i == 0 then 0
    else if IsHeader(lines[i - 1]) then 0
    else if IsTitleLine(lines[i - 1]) && CurrentHeader(lines, i - 1) != "" then TitleIndex(lines, i - 1) + 1
    else TitleIndex(lines, i - 1)
  }

  /**
   * What line `i` becomes: the `k`-th title line under header `C` is
   * replaced by `- ` and the `k`-th page title of the first category named
   * `C` that has a `k`-th page; every other line stays as it is.
   */
  function RewrittenLine(categories: seq<CategoryInfo>, lines: seq<string>, i: nat): string
    requires i < |lines|
  {
    var header := CurrentHeader(lines, i);
    if !IsHeader(lines[i]) && IsTitleLine(lines[i]) && header != "" then
      match PageTitle(categories, header, TitleIndex(lines, i))
      case Some(title) => "- " + title
      case None => lines[i]
    else lines[i]
  }

  /**
   * What the rewrite loop carries from line to line: the current header,
   * and a page index that counts the title lines replaced since it and
   * only falls behind the title lines seen once the pages ran out.
   */
  ghost predicate Tracking(categories: seq<CategoryInfo>, lines: seq<string>, i: nat, currentCategory: string, pageIndex: nat)
    requires i <= |lines|
  {
    currentCategory == CurrentHeader(lines, i) &&
    pageIndex <= TitleIndex(lines, i) &&
    (pageIndex < TitleIndex(lines, i) ==> PageTitle(categories, currentCategory, pageIndex).None?)
  }

  /**
   * The line loop of `updateMarkdownFile`: it tracks the current header and
   * a page index that only advances when a title line was replaced.
   */
  method RewriteTitles(categories: seq<CategoryInfo>, lines: seq<string>) returns (updated: seq<string>)
    ensures |updated| == |lines|
    ensures forall i :: 0 <= i < |lines| ==> updated[i] == RewrittenLine(categories, lines, i)
  {
    updated := [];
    var currentCategory := "";
    var pageIndex := 0;
    for i := 0 to |lines|
      invariant |updated| == i
      invariant forall j :: 0 <= j < i ==> updated[j] == RewrittenLine(categories, lines, j)
      invariant Tracking(categories, lines, i, currentCategory, pageIndex)
    {
      var next;
      next, currentCategory, pageIndex := RewriteLine(categories, lines, i, currentCategory, pageIndex);
      RewrittenSnoc(categories, lines, updated, next);
      updated := updated + [next];
    }
  }

  lemma RewrittenSnoc(categories: seq<CategoryInfo>, lines: seq<string>, updated: seq<string>, next: string)
    requires |updated| < |lines|
    requires forall j :: 0 <= j < |updated| ==> updated[j] == RewrittenLine(categories, lines, j)
    requires next == RewrittenLine(categories, lines, |updated|)
    ensures forall j :: 0 <= j < |updated| + 1 ==> (updated + [next])[j] == RewrittenLine(categories, lines, j)
  {
  }

  /**
   * The rewrite keeps the number of lines, and only title lines under a
   * header are ever changed.
   */
  lemma RewriteKeepsOtherLines(categories: seq<CategoryInfo>, lines: seq<string>, updated: seq<string>)
    requires |updated| == |lines|
    requires forall i :: 0 <= i < |lines| ==> updated[i] == RewrittenLine(categories, lines, i)
    ensures forall i :: 0 <= i < |lines| && !(IsTitleLine(lines[i]) && CurrentHeader(lines, i) != "") ==> updated[i] == lines[i]
  {
    forall i | 0 <= i < |lines| && !(IsTitleLine(lines[i]) && CurrentHeader(lines, i) != "") ensures updated[i] == lines[i] {
      assert updated[i] == RewrittenLine(categories, lines, i);
    }
  }

  /** One pass of the rewrite loop, over `lines[i]`. */
  method RewriteLine(categories: seq<CategoryInfo>, lines: seq<string>, i: nat, currentCategory: string, pageIndex: nat)
    returns (next: string, currentCategory': string, pageIndex': nat)
    requires i < |lines| && Tracking(categories, lines, i, currentCategory, pageIndex)
    ensures next == RewrittenLine(categories, lines, i)
    ensures Tracking(categories, lines, i + 1, currentCategory', pageIndex')
  {
    var line := lines[i];
    var trimmed := TrimSpace(line);
    next, currentCategory', pageIndex' := line, currentCategory, pageIndex;
    if HasPrefix(trimmed, "## ") {
      currentCategory' := TrimPrefix(trimmed, "## ");
      pageIndex' := 0;
      HeaderLineStep(categories, lines, i);
    } else if HasPrefix(trimmed, "- ") && currentCategory != "" && !HasPrefix(line, "    -") {
      var found := FirstWithPage(categories, currentCategory, pageIndex, 0);
      TitleLineStep(categories, lines, i, pageIndex);
      if found.Some? {
        next := "- " + categories[found.value].pages[pageIndex].title;
        pageIndex' := pageIndex + 1;
      }
    } else {
      OtherLineStep(categories, lines, i);
    }
  }

  /** A header line is kept and starts a new section. */
  lemma HeaderLineStep(categories: seq<CategoryInfo>, lines: seq<string>, i: nat)
    requires i < |lines| && IsHeader(lines[i])
    ensures CurrentHeader(lines, i + 1) == HeaderName(lines[i]) && TitleIndex(lines, i + 1) == 0
    ensures RewrittenLine(categories, lines, i) == lines[i]
  {
  }

  /** Any other line is kept and changes nothing. */
  lemma OtherLineStep(categories: seq<CategoryInfo>, lines: seq<string>, i: nat)
    requires i < |lines| && !IsHeader(lines[i]) && !(IsTitleLine(lines[i]) && CurrentHeader(lines, i) != "")
    ensures CurrentHeader(lines, i + 1) == CurrentHeader(lines, i) && TitleIndex(lines, i + 1) == TitleIndex(lines, i)
    ensures RewrittenLine(categories, lines, i) == lines[i]
  {
  }

  /** On a title line under a header, the search at the page index decides the line. */
  lemma TitleLineStep(categories: seq<CategoryInfo>, lines: seq<string>, i: nat, pageIndex: nat)
    requires i < |lines| && !IsHeader(lines[i]) && IsTitleLine(lines[i]) && CurrentHeader(lines, i) != ""
    requires pageIndex <= TitleIndex(lines, i)
    requires pageIndex < TitleIndex(lines, i) ==> PageTitle(categories, CurrentHeader(lines, i), pageIndex).None?
    ensures TitleIndex(lines, i + 1) == TitleIndex(lines, i) + 1
    ensures CurrentHeader(lines, i + 1) == CurrentHeader(lines, i)
    ensures RewrittenLine(categories, lines, i) ==
      match PageTitle(categories, CurrentHeader(lines, i), pageIndex)
      case Some(title) => "- " + title
      case None => lines[i]
  {
    var header, k := CurrentHeader(lines, i), TitleIndex(lines, i);
    TitleLineCounted(lines, i);
    TitleLineRewritten(categories, lines, i);
    if pageIndex < k {
      PageTitleMonotone(categories, header, pageIndex, k);
    }
  }

  /** A title line under a header is counted and keeps the header. */
  lemma TitleLineCounted(lines: seq<string>, i: nat)
    requires i < |lines| && !IsHeader(lines[i]) && IsTitleLine(lines[i]) && CurrentHeader(lines, i) != ""
    ensures TitleIndex(lines, i + 1) == TitleIndex(lines, i) + 1
    ensures CurrentHeader(lines, i + 1) == CurrentHeader(lines, i)
  {
  }

  /** A title line under a header takes the title at its own index, if there is one. */
  lemma TitleLineRewritten(categories: seq<CategoryInfo>, lines: seq<string>, i: nat)
    requires i < |lines| && !IsHeader(lines[i]) && IsTitleLine(lines[i]) && CurrentHeader(lines, i) != ""
    ensures RewrittenLine(categories, lines, i) ==
      match PageTitle(categories, CurrentHeader(lines, i), TitleIndex(lines, i))
      case Some(title) => "- " + title
      case None => lines[i]
  {
  }

  // ---------------------------------------------------------------------
  // Blocks as markdown
  // ---------------------------------------------------------------------

  /**
   * The `plain_text` of one rich-text item: `None` when the item is not an
   * object or its `plain_text` is not a string.
   */
  type RichTextItem = Option<string>

  function PlainLength(item: RichTextItem): int
  {
    match item case Some(t) => |t| case None => 0
  }

  /** The non-empty plain texts, in order. */
  function PlainTexts(items: seq<RichTextItem>): (r: seq<string>)
    ensures forall t :: t in r ==> t != "" && Some(t) in items
    decreases |items|
  {
    if items == [] then []
    else
      var last := items[|items| - 1];
      PlainTexts(items[..|items| - 1]) + (if last.Some? && last.value != "" then [last.value] else [])
  }

  /**
   * `extractTextFromRichTextArray`: the non-empty plain texts joined with
   * no separator.
   */
  function ExtractText(items: seq<RichTextItem>): (r: string)
    ensures r == "" <==> forall i :: 0 <= i < |items| ==> items[i].None? || items[i].value == ""
  {
    PlainTextsEmpty(items);
    Flatten(PlainTexts(items))
  }

  /** No plain text survives exactly when every item is missing or empty. */
  lemma {:induction false} PlainTextsEmpty(items: seq<RichTextItem>)
    ensures Flatten(PlainTexts(items)) == [] <==> forall i :: 0 <= i < |items| ==> items[i].None? || items[i].value == ""
    decreases |items|
  {
    if items != [] {
      var init, last := items[..|items| - 1], items[|items| - 1];
      PlainTextsEmpty(init);
      assert forall i :: 0 <= i < |init| ==> init[i] == items[i];
      var extra := if last.Some? && last.value != "" then [last.value] else [];
      assert PlainTexts(items) == PlainTexts(init) + extra;
      if extra != [] {
        FlattenSnoc(PlainTexts(init), last.value);
        assert Flatten(PlainTexts(items)) == Flatten(PlainTexts(init)) + last.value;
        assert |Flatten(PlainTexts(items))| > 0;
        assert !(items[|items| - 1].None? || items[|items| - 1].value == "");
      } else {
        assert PlainTexts(items) == PlainTexts(init);
      }
    }
  }

  /** The extracted text is as long as all plain texts together. */
  lemma {:induction false} ExtractTextLength(items: seq<RichTextItem>)
    ensures |ExtractText(items)| == SumBy(items, PlainLength)
    decreases |items|
  {
    if items != [] {
      var init, last := items[..|items| - 1], items[|items| - 1];
      ExtractTextLength(init);
      var extra := if last.Some? && last.value != "" then [last.value] else [];
      assert PlainTexts(items) == PlainTexts(init) + extra;
      if extra == [] {
        assert PlainTexts(items) == PlainTexts(init);
      } else {
        FlattenSnoc(PlainTexts(init), last.value);
      }
    }
  }

  lemma PlainTextsSnoc(items: seq<RichTextItem>, x: RichTextItem)
    ensures PlainTexts(items + [x]) == PlainTexts(items) + PlainTexts([x])
  {
    assert (items + [x])[..|items|] == items;
    assert PlainTexts([x]) == PlainTexts([]) + (if x.Some? && x.value != "" then [x.value] else []);
  }

  lemma {:induction false} PlainTextsConcat(a: seq<RichTextItem>, b: seq<RichTextItem>)
    ensures PlainTexts(a + b) == PlainTexts(a) + PlainTexts(b)
    decreases |b|
  {
    if b == [] {
      assert a + b == a;
    } else {
      var init, last := b[..|b| - 1], b[|b| - 1];
      assert a + b == (a + init) + [last];
      assert b == init + [last];
      PlainTextsSnoc(a + init, last);
      PlainTextsSnoc(init, last);
      PlainTextsConcat(a, init);
      AppendAssoc(PlainTexts(a), PlainTexts(init), PlainTexts([last]));
    }
  }

  /** Extracting from two arrays one after the other concatenates their texts. */
  lemma ExtractTextConcat(a: seq<RichTextItem>, b: seq<RichTextItem>)
    ensures ExtractText(a + b) == ExtractText(a) + ExtractText(b)
  {
    PlainTextsConcat(a, b);
    FlattenConcat(PlainTexts(a), PlainTexts(b));
  }

  /**
   * A Notion block as the renderer reads it: its `type` when that is a
   * string, the rich text of its body (empty when missing), the to-do's
   * `checked` flag and the code block's `language` (false and "" when
   * missing).
   */
  datatype Block = Block(blockType: Option<string>, richText: seq<RichTextItem>, checked: bool, language: string)

  const KnownTypes: set<string> := {"paragraph", "heading_1", "heading_2", "heading_3",
    "bulleted_list_item", "numbered_list_item", "to_do", "code", "quote", "divider"}

  /** `convertBlockToMarkdown`. */
  function ConvertBlockToMarkdown(b: Block): (r: string)
    ensures r == "" <==> (b.blockType.None? || b.blockType.value !in KnownTypes ||
      (b.blockType.value != "divider" && ExtractText(b.richText) == ""))
    ensures b.blockType == Some("divider") ==> r == "---"
    ensures r != "" && b.blockType == Some("heading_1") ==> r == "# " + ExtractText(b.richText)
    ensures r != "" && b.blockType == Some("heading_2") ==> r == "## " + ExtractText(b.richText)
    ensures r != "" && b.blockType == Some("heading_3") ==> r == "### " + ExtractText(b.richText)
    ensures b.blockType == Some("paragraph") ==> r == ExtractText(b.richText)
    ensures r != "" && b.blockType == Some("bulleted_list_item") ==> r == "- " + ExtractText(b.richText)
    ensures r != "" && b.blockType == Some("numbered_list_item") ==> r == "1. " + ExtractText(b.richText)
    ensures r != "" && b.blockType == Some("quote") ==> r == "> " + ExtractText(b.richText)
    ensures r != "" && b.blockType == Some("to_do") ==>
      r == (if b.checked then "- [x] " else "- [ ] ") + ExtractText(b.richText)
    ensures r != "" && b.blockType == Some("code") ==>
      r == "```" + b.language + "\n" + ExtractText(b.richText) + "\n```"
  {
    match b.blockType
    case None => ""
    case Some(kind) =>
      var text := ExtractText(b.richText);
      if kind == "divider" then "---"
      else if kind !in KnownTypes || text == "" then ""
      else if kind == "paragraph" then text
      else if kind == "heading_1" then "# " + text
      else if kind == "heading_2" then "## " + text
      else if kind == "heading_3" then "### " + text
      else if kind == "bulleted_list_item" then "- " + text
      else if kind == "numbered_list_item" then "1. " + text
      else if kind == "to_do" then (if b.checked then "- [x] " else "- [ ] ") + text
      else if kind == "code" then "```" + b.language + "\n" + text + "\n```"
      else "> " + text
  }

  /**
   * A rendered level-2 heading is what the page-list reader takes for a
   * category header, and it reads back the heading's text.
   */
  lemma HeadingTwoIsCategoryHeader(b: Block)
    requires b.blockType == Some("heading_2")
    requires var t := ExtractText(b.richText); t != "" && !IsSpace(t[|t| - 1])
    ensures IsHeader(ConvertBlockToMarkdown(b)) && HeaderName(ConvertBlockToMarkdown(b)) == ExtractText(b.richText)
  {
    var r := ConvertBlockToMarkdown(b);
    assert r[0] == '#';
    TrimSpaceOfTrimmed(r);
  }

  // ---------------------------------------------------------------------
  // File names
  // ---------------------------------------------------------------------

  const InvalidChars: seq<char> := ['/', '\\', ':', '*', '?', '"', '<', '>', '|']
  const MaxFileNameLength := 200

  /** A character `strings.Map` drops: below 32, or 127. */
  predicate IsControl(c: char)
  {
    c as int < 32 || c as int == 127
  }

  predicate IsKept(c: char)
  {
    !IsControl(c)
  }

  /** `strings.ReplaceAll` of one character by another. */
  function ReplaceAll(s: string, c: char, with: char): (r: string)
    ensures |r| == |s|
    ensures forall i :: 0 <= i < |s| ==> r[i] == if s[i] == c then with else s[i]
  {
    seq(|s|, i requires 0 <= i < |s| => if s[i] == c then with else s[i])
  }

  /** One character after the replacements: an invalid one becomes '_'. */
  function Safe(c: char): char
  {
    if c in InvalidChars then '_' else c
  }

  /** The name after the nine replacement passes. */
  function SafeName(name: string): (r: string)
    ensures |r| == |name| && forall i :: 0 <= i < |name| ==> r[i] == Safe(name[i])
  {
    seq(|name|, i requires 0 <= i < |name| => Safe(name[i]))
  }

  /** What `sanitizeFileNameMinimal` returns, stated on the whole name at once. */
  function SanitizedName(name: string): (r: string)
    ensures |r| <= MaxFileNameLength
    ensures forall c :: c in r ==> c !in InvalidChars && !IsControl(c)
    ensures HasPrefix(TrimSpace(Filter(SafeName(name), IsKept)), r)
    ensures var t := TrimSpace(Filter(SafeName(name), IsKept));
      |r| == if |t| > MaxFileNameLength then MaxFileNameLength else |t|
  {
    var trimmed := TrimSpace(Filter(SafeName(name), IsKept));
    SanitizedChars(name);
    if |trimmed| > MaxFileNameLength then PrefixChars(trimmed, MaxFileNameLength); trimmed[..MaxFileNameLength] else trimmed
  }

  /** No character of the cleaned and trimmed name is invalid or a control character. */
  lemma SanitizedChars(name: string)
    ensures forall c :: c in TrimSpace(Filter(SafeName(name), IsKept)) ==> c !in InvalidChars && !IsControl(c)
  {
    var safe := SafeName(name);
    var cleaned := Filter(safe, IsKept);
    TrimmedInfix(cleaned);
    forall c | c in cleaned ensures c !in InvalidChars && !IsControl(c) {
      assert c in safe && IsKept(c);
      var i :| 0 <= i < |safe| && safe[i] == c;
      SafeIsValid(name[i]);
    }
  }

  lemma SafeIsValid(c: char)
    ensures Safe(c) !in InvalidChars
  {
    if c in InvalidChars {
      assert '_' !in InvalidChars;
    }
  }

  lemma PrefixChars(s: string, n: nat)
    requires n <= |s|
    ensures forall c :: c in s[..n] ==> c in s
  {
    forall c | c in s[..n] ensures c in s {
      var i :| 0 <= i < n && s[..n][i] == c;
      assert s[i] == c;
    }
  }

  /** A trimmed string is made of characters of the original. */
  lemma TrimmedInfix(s: string)
    ensures forall c :: c in TrimSpace(s) ==> c in s
  {
    var l := TrimLeft(s);
    assert forall c :: c in l ==> c in s;
  }

  /**
   * `sanitizeFileNameMinimal`: nine replacement passes, then control
   * characters dropped, white space trimmed and the result cut to 200.
   */
  method SanitizeFileNameMinimal(name: string) returns (r: string)
    ensures r == SanitizedName(name)
  {
    r := name;
    for i := 0 to |InvalidChars|
      invariant |r| == |name|
      invariant forall j :: 0 <= j < |name| ==> r[j] == if name[j] in InvalidChars[..i] then '_' else name[j]
    {
      r := ReplaceAll(r, InvalidChars[i], '_');
      assert InvalidChars[..i + 1] == InvalidChars[..i] + [InvalidChars[i]];
    }
    assert InvalidChars[..|InvalidChars|] == InvalidChars;
    assert r == SafeName(name);
    r := Filter(r, IsKept);
    r := TrimSpace(r);
    if |r| > MaxFileNameLength {
      r := r[..MaxFileNameLength];
    }
  }

  /** A name that is already safe, trimmed and short enough is kept as it is. */
  lemma SanitizeKeepsSafeNames(name: string)
    requires forall c :: c in name ==> c !in InvalidChars && !IsControl(c)
    requires name == [] || (!IsSpace(name[0]) && !IsSpace(name[|name| - 1]))
    requires |name| <= MaxFileNameLength
    ensures SanitizedName(name) == name
  {
    assert SafeName(name) == name;
    FilterAll(name, IsKept);
    TrimSpaceOfTrimmed(name);
  }

  /** Sanitizing twice changes nothing more unless the cut left white space at the end. */
  lemma SanitizeIdempotent(name: string)
    requires var r := SanitizedName(name); r == [] || !IsSpace(r[|r| - 1])
    ensures SanitizedName(SanitizedName(name)) == SanitizedName(name)
  {
    var r := SanitizedName(name);
    if r != [] {
      assert !IsSpace(r[0]);
    }
    SanitizeKeepsSafeNames(r);
  }

  lemma {:induction false} FilterAll<T(!new)>(s: seq<T>, p: T -> bool)
    requires forall x :: x in s ==> p(x)
    ensures Filter(s, p) == s
    decreases |s|
  {
    if s != [] {
      assert s[0] in s;
      forall x | x in s[1..] ensures p(x) {
        assert x in s;
      }
      FilterAll(s[1..], p);
      assert Filter(s, p) == [s[0]] + s[1..];
      HeadTailEqual(Filter(s, p), s);
    }
  }
}
