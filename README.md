# dev-stats core, in Dafny

dev-stats is a set of Go command-line tools that gather a developer's
activity from Google Calendar exports (ICS files), Notion, Backlog and
GitHub. Each tool reports counts, durations and rankings over a date
range. This project models the deterministic core of those tools and
proves properties of the model. The modelled parts are:

- **Calendar.** ICS scanning, the date-time formats it accepts, the
  date-range filter and the all-day heuristic. Also title grouping, the
  per-title and all-day statistics with their rankings, keyword
  categorisation, the per-category and per-kind time totals, the
  working-hours distribution with its peak hours, and the duration text.
  The stand-alone calendar command (`cmd/calendar`) carries its own copy
  of most of these.
- **Categorisation settings.** The three keyword searches: event rules,
  then category keywords, then Notion keywords. Also the display name of
  a category.
- **Notion.** The downloader's Markdown reader and writer (the header
  fields, the title rewrite, page-id extraction, block and rich-text
  rendering, file-name sanitising). The analyzer's user detection, its
  paged search with its date window and early stop, categorisation and
  the per-category and work-pattern statistics. The stand-alone Notion
  command's own variants of these.
- **Backlog.** Reading Backlog profiles from `BACKLOG_<PROFILE>_<SETTING>`
  environment entries, and their lookups. The configuration check. The
  activity filtering and paging stop. The per-kind counting of activities
  and the extraction of commented or updated issues and wikis. The lister's cache path, role names and
  truncation.
- **GitHub.** The configuration check, URL parsing, the low-value PR
  rule, the partition and aggregation of an analysis, and the review
  counting. The `main.go` summary: the merge, by URL, of the created
  and merged search results for `involves:` and for `author:`, their
  ordering, and the per-organisation and per-repository counts.

The modules follow the source packages: `CalendarIcs`, `CalendarStats`,
`CalendarCategories`, `CalendarHours` and `CalendarCli` for
`pkg/calendar` and `cmd/calendar`; `CategorizationConfig` for
`pkg/config`; `NotionDownloader`, `NotionAnalyzer` and `NotionCli` for
`pkg/notion` and `cmd/notion`; `BacklogProfiles`, `BacklogAnalyzer` and
`BacklogLister` for `pkg/backlog`; `GithubAnalyzer` for `pkg/github`;
and `PrSummary` for the top-level `main.go`. Shared value libraries
support them: `Wrappers` (Option and Result), `Text` (strings, splitting,
case), `Numerals` (decimal text), `Timestamps` (civil time, layouts,
weekdays), `Collections` (filter, sums, sorting, map keys) and `Tallies`
(counting maps).

Go `time.Time` values are modelled as civil timestamps in UTC, and
`time.Duration` as a whole number of seconds. Maps become Dafny maps. Go's
unordered map iteration is modelled by a parameter that lists the keys in
some order, or avoided where the code sorts the keys afterwards. File
systems, HTTP responses and clocks become parameters: a directory walk is
a sequence of entries, a file is its lines, and a paged API is a sequence
of responses.

## Model

| member | source | states |
|---|---|---|
| CalendarIcs.ExtractDateTime | pkg/calendar/analyzer.go:238-244 | The result is the text after the line's last ':'. It contains no ':' and the line ends with ':' followed by it. It is empty when the line has no colon. |
| CalendarIcs.DecodeDateTime | pkg/calendar/analyzer.go:246-264 | The empty string, and only the empty string, gives the empty-value error. Every accepted value is a valid civil time. |
| CalendarIcs.DecodeDateTimeAccepts | pkg/calendar/analyzer.go:246-264 | Any valid time with a four-digit year decodes back to that time when written in the layout `20060102T150405Z` or `20060102T150405`. This holds with or without a fractional second (a `.` or `,` and one or more digits) right after the seconds. Written as `20060102`, it decodes to that day at midnight. |
| CalendarIcs.DecodeDateTimeExact | pkg/calendar/analyzer.go:246-264 | Any text that decodes is one of those forms of the decoded time: one of the two layouts with a time of day, perhaps with a fractional second after the seconds, or the date layout. No other text is accepted. |
| CalendarIcs.PropertyPrefixesExclusive | pkg/calendar/analyzer.go:209-231 | The prefixes UID:, SUMMARY:, DTSTART, DTEND and CREATED: exclude one another, so the order of the else-if chain is immaterial. |
| CalendarIcs.ApplyProperty | pkg/calendar/analyzer.go:209-231 | A property line changes only the field its prefix names. UID and SUMMARY take the text after the prefix. DTSTART, DTEND and CREATED take the decoded time when the value decodes, and keep the field otherwise. The all-day flag is set exactly when the line is a DTSTART holding VALUE=DATE. Valid times stay valid. |
| CalendarIcs.ValueDateMarksAllDay | pkg/calendar/analyzer.go:213-220 | A DTSTART with VALUE=DATE whose value does not decode only sets the all-day flag. |
| CalendarIcs.RunConcat | pkg/calendar/analyzer.go:197-233 | The line scan is a left fold: scanning `a + b` is scanning `b` from the state after `a`. |
| CalendarIcs.ParseIcsFile | pkg/calendar/analyzer.go:185-236 | A file that fails to open yields no events and the open error. Otherwise the result is the events of scanning every trimmed line, with the scanner's read error. |
| CalendarIcs.RunProperties | pkg/calendar/analyzer.go:208-232 | Inside an event, property lines (neither BEGIN nor END) only update the current event. |
| CalendarIcs.BeginResets | pkg/calendar/analyzer.go:200-202 | BEGIN:VEVENT drops the event in progress and starts a blank one. Events already emitted are kept. |
| CalendarIcs.BlockEmitsOneEvent | pkg/calendar/analyzer.go:200-207 | A BEGIN … END block appends exactly one event, built from its property lines. |
| CalendarIcs.OutsideIgnored | pkg/calendar/analyzer.go:203-208 | Outside an event, lines other than BEGIN add nothing, including a stray END:VEVENT. |
| CalendarIcs.TrailingBlockDropped | pkg/calendar/analyzer.go:197-235 | An event left open at the end of the file is not emitted. |
| CalendarIcs.BlocksYieldEvents | pkg/calendar/analyzer.go:197-233 | A file made of blocks separated by other lines yields exactly one event per block, in file order. |
| CalendarIcs.EventsOnlyGrow | pkg/calendar/analyzer.go:203-207 | Scanning only appends: earlier events are a prefix of later ones. |
| CalendarIcs.AtMostOneEventPerEnd | pkg/calendar/analyzer.go:203-207 | A file yields at most one event per END:VEVENT line. |
| CalendarIcs.ScannedEventsWellFormed | pkg/calendar/analyzer.go:185-236 | Every emitted event holds only valid times. |
| CalendarIcs.ReadAllIcsFiles | pkg/calendar/analyzer.go:156-183 | Without a walk error, the result is the events of every `.ics` file (suffix matched case-insensitively), in walk order. Files that fail to open or read are skipped. Otherwise the result is the first walk error. |
| CalendarIcs.ReadEntry | pkg/calendar/analyzer.go:163-173 | One visited entry contributes its parsed events, or none. |
| CalendarIcs.ConcatAppend | pkg/calendar/analyzer.go:159-175 | Reading a directory is reading its files one after another: the result for `a + b` is the result for `a` followed by the result for `b`. |
| CalendarIcs.FailureAt | pkg/calendar/analyzer.go:159-162 | The first walk error ends the walk with that error. |
| CalendarIcs.SkipUnparsable | pkg/calendar/analyzer.go:165-170 | A file that fails to parse leaves the result as if it were absent. |
| CalendarStats.DayAfter | pkg/calendar/analyzer.go:270 | `endDate.AddDate(0, 0, 1)` is exactly one day of seconds after the end date. |
| CalendarStats.FilterEventsByDateRange | pkg/calendar/analyzer.go:266-275 | The kept events are, in order, the events with a set start in [start, end + 1 day). Membership holds both ways. |
| CalendarStats.InRange | pkg/calendar/analyzer.go:270 | An event is in range exactly when its start is set and its instant lies in [start, end + 24 hours). |
| CalendarStats.AllDayHeuristic | pkg/calendar/analyzer.go:290-307 | An unflagged event with both times set counts as all-day exactly when its span is at least a day and its remainder modulo a day is under an hour, i.e. whole hours that are a multiple of 24. |
| CalendarStats.IsAllDayEvent | pkg/calendar/analyzer.go:290-307 | A flagged event is all-day. An event missing its start or end is all-day exactly when flagged. |
| CalendarStats.AllDayExamples | pkg/calendar/analyzer.go:295-303 | A span of 24h30m counts as all-day. A 25h span does not, nor does a negative span. |
| CalendarStats.TimedSpan | pkg/calendar/analyzer.go:280-284 | An event adds a positive duration exactly when it is not all-day, both times are set and the span is positive. Otherwise it adds nothing. |
| CalendarStats.CalculateDuration | pkg/calendar/analyzer.go:277-288 | The total is the sum of the events' timed spans, and it is never negative. |
| CalendarStats.TimedTotalAdditive | pkg/calendar/analyzer.go:277-288 | The total duration is additive over concatenated event lists. |
| CalendarStats.GroupEventsByTitle | pkg/calendar/analyzer.go:309-318 | The keys are exactly the non-empty trimmed titles that occur. Each group is, in order, the events with that title. |
| CalendarStats.GroupingStep | pkg/calendar/analyzer.go:311-315 | Appending an event to its title's group (or skipping an untitled one) keeps the grouping exact. |
| CalendarStats.GroupingCovers | pkg/calendar/analyzer.go:309-318 | Every titled event is in the group of its title. |
| CalendarStats.CalculateTitleStats | pkg/calendar/analyzer.go:320-348 | There is one entry per group, in ascending title order. Each entry's count is the group size, and its duration is the group's timed total, never negative. |
| CalendarStats.AllDayDays | pkg/calendar/analyzer.go:365-379 | An all-day event adds its whole days, or at least one day. Any other event adds none. |
| CalendarStats.AllDayDaysAtLeastCount | pkg/calendar/analyzer.go:365-380 | A group's total days are at least its number of all-day events. |
| CalendarStats.CountAllDay | pkg/calendar/analyzer.go:362-380 | The loop counts a group's all-day events and sums their days. The days are at least the count. |
| CalendarStats.CalculateAllDayStats | pkg/calendar/analyzer.go:350-391 | The result is the all-day entry of each group, in ascending title order. |
| CalendarStats.AllDayGroup | pkg/calendar/analyzer.go:361-388 | A group contributes one entry when it has an all-day event, and none otherwise. |
| CalendarStats.AllDayStatsOfEntries | pkg/calendar/analyzer.go:382-388 | Each entry counts its group's all-day events (at least one) and spans 24 hours per day. |
| CalendarStats.AllDayStatsOfCovers | pkg/calendar/analyzer.go:360-389 | A title has an entry exactly when its group holds an all-day event. |
| CalendarStats.AllDayStatsOfAscending | pkg/calendar/analyzer.go:353-358 | Entries come in strictly ascending title order. |
| CalendarStats.NotBehindIsTotalPreorder | pkg/calendar/analyzer.go:421-426 | The ranking comparator (larger key first, ties by ascending title) is a total preorder, so sorting by it is well defined. |
| CalendarStats.AheadTotal | pkg/calendar/analyzer.go:421-426 | Of two entries with different titles, one is strictly ahead of the other. |
| CalendarStats.Rank | pkg/calendar/analyzer.go:419-426 | The ranking is a permutation of the statistics, ordered by the comparator. |
| CalendarStats.RankDeterministic | pkg/calendar/analyzer.go:442-447 | With distinct titles, every sorted permutation equals the ranking. The report's order therefore does not depend on `sort.Slice`'s instability. The same holds for the count, duration and all-day rankings. |
| CalendarCategories.DisplayName | pkg/calendar/analyzer.go:546-570 | A known category key maps to a display name other than "Other". |
| CalendarCategories.CategorizeEvent | pkg/calendar/analyzer.go:542-574 | The result is the display name of the keyword category when there is one, and "Other" exactly when there is none. |
| CalendarCategories.FallbackIsOther | pkg/calendar/analyzer.go:571-572 | A title that matches no keyword is put under "Other". |
| CalendarCategories.AnalyzeCategoryStats | pkg/calendar/analyzer.go:498-539 | Each category holds, in order, the unflagged events classified into it, with their count and the sum of their spans. The counts add up to the number of unflagged events. Each kind total (meeting, focus, learning, admin) is the sum of the spans of the events of that kind. |
| CalendarCategories.TallyCategories | pkg/calendar/analyzer.go:503-536 | The loop, for any classifier: exact per-category breakdown and per-kind sums. |
| CalendarCategories.AddCategoryTime | pkg/calendar/analyzer.go:526-535 | Only the total for the event's kind grows by the duration. Any other kind changes nothing. |
| CalendarCategories.TotalsAreSums | pkg/calendar/analyzer.go:524-535 | The running kind totals equal the per-kind sums over the events. |
| CalendarCategories.BreakdownStep | pkg/calendar/analyzer.go:514-522 | Adding an unflagged event to its category keeps the breakdown exact. |
| CalendarCategories.BreakdownCovers | pkg/calendar/analyzer.go:503-523 | Every unflagged event is listed in its category. |
| CalendarCategories.CountsStep | pkg/calendar/analyzer.go:520 | Each added event raises the sum of the category counts by one. |
| CalendarHours.Distribute | pkg/calendar/analyzer.go:583-595 | The loop, for any bucket keys: each bucket holds the span sum of its unflagged events, and keys appear only for buckets that were hit. The total is the sum over unflagged events and equals the sum of each map. |
| CalendarHours.DistributeOne | pkg/calendar/analyzer.go:584-594 | One event either is skipped (all-day) or adds its span to its hour, its weekday and the total, keeping the distribution exact. |
| CalendarHours.DistributionAdd | pkg/calendar/analyzer.go:592-593 | `m[k] += d` on a bucket map keeps it exact for the extended event list. |
| CalendarHours.BucketSpanZero | pkg/calendar/analyzer.go:592-593 | A bucket no event falls into sums to zero. |
| CalendarHours.HourlyKeysAreHours | pkg/calendar/analyzer.go:589 | Every hourly key is an hour of the day, 0–23. |
| CalendarHours.DailyKeysAreWeekdays | pkg/calendar/analyzer.go:590 | Every daily key is a weekday name. |
| CalendarHours.HourNotBehindIsTotalPreorder | pkg/calendar/analyzer.go:608-613 | The peak comparator (more time first, ties by earlier hour) is a total preorder. |
| CalendarHours.HourList | pkg/calendar/analyzer.go:603-606 | One (hour, duration) pair per listed hour, holding that hour's total. |
| CalendarHours.HourListOfKeys | pkg/calendar/analyzer.go:603-606 | Built from the map's keys, the list holds each hour exactly once with its total. |
| CalendarHours.FirstHours | pkg/calendar/analyzer.go:616-618 | The result is the hours of the first min(3, n) sorted pairs. |
| CalendarHours.PeakOfSorted | pkg/calendar/analyzer.go:608-618 | The first min(3, n) hours after sorting are the peak: distinct hours of the map, ordered busiest first, with no unlisted hour busier than a listed one. |
| CalendarHours.PeakHours | pkg/calendar/analyzer.go:597-618 | The peak hours of an hourly map, in the sense above. |
| CalendarHours.AnalyzeWorkingHours | pkg/calendar/analyzer.go:577-621 | The hourly and weekday distributions are exact over the unflagged events. The total equals both sums. The peak hours are the top three hours of the distribution. |
| CalendarHours.DurationFields | pkg/calendar/analyzer.go:624-632 | The text is made of the whole hours and the minutes modulo 60 of the duration. |
| CalendarHours.DurationTextMarker | pkg/calendar/analyzer.go:628-631 | The text ends in `m`, and holds an 'h' exactly when the hours are positive. |
| CalendarHours.FormatDuration | pkg/calendar/analyzer.go:624-632 | The text ends in `m`, and holds an 'h' exactly when the duration is at least an hour. |
| CalendarHours.HoursMinutesInjective | pkg/calendar/analyzer.go:628-631 | Distinct (hours, minutes) give distinct texts. |
| CalendarHours.FormatDurationInjective | pkg/calendar/analyzer.go:624-632 | Two non-negative durations with the same text have the same whole minutes. |
| CalendarCli.FilterEventsStrict | cmd/calendar/main.go:130-138 | The command's filter keeps, in order, exactly the events with a set start strictly after the start date and before the day after the end date. |
| CalendarCli.StrictBoundDropsOnlyStartInstant | cmd/calendar/main.go:133 | The strict lower bound differs from the analyzer's inclusive one only for an event starting at exactly the start instant, which the command drops. |
| CalendarCli.StrictFilterNarrower | cmd/calendar/main.go:130-138 | The command never keeps more events than the analyzer's filter. |
| CalendarCli.PositiveSpan | cmd/calendar/main.go:143-147 | An event adds a positive duration exactly when both times are set and the span is positive, whether or not it is all-day. |
| CalendarCli.CalculateDurationAll | cmd/calendar/main.go:140-151 | The command's total is the sum of positive spans of all events. It is at least the analyzer's total, which leaves out all-day events. |
| CalendarCli.DurationSplit | cmd/calendar/main.go:140-187 | The command's total is the total excluding all-day events plus the positive spans of the all-day events. |
| CalendarCli.TitleRows | cmd/calendar/main.go:206-217 | One row per title in the order given, holding the group size and its duration excluding all-day events. |
| CalendarCli.CalculateTitleStatsUnordered | cmd/calendar/main.go:206-217 | The rows follow the map's iteration order, some listing of the keys. |
| CalendarCli.TitleRowsMembers | cmd/calendar/main.go:206-217 | Whatever the iteration order, the rows are distinct and are exactly the rows of the groups. |
| CalendarCli.TitleStatsPermutation | cmd/calendar/main.go:206-217 | The command's title statistics are a permutation of the analyzer's sorted ones. |
| CalendarCli.CalculateAllDayStatsUnordered | cmd/calendar/main.go:219-251 | The all-day rows in the map's iteration order, each as the analyzer computes it. |
| CalendarCli.AllDayStatsOfDistinct | cmd/calendar/main.go:219-251 | A listing of distinct titles gives rows with distinct titles. |
| CalendarCli.AllDayStatsIncluded | cmd/calendar/main.go:219-251 | A row present under one iteration order is present under any other. |
| CalendarCli.AllDayStatsPermutation | cmd/calendar/main.go:219-251 | The command's all-day statistics are a permutation of the analyzer's sorted ones. |
| CategorizationConfig.AnyKeyword | pkg/config/categorization.go:74-78 | True exactly when some keyword, lower-cased, occurs in the lower-cased title. |
| CategorizationConfig.EmptyKeywordMatchesAll | pkg/config/categorization.go:74-78 | A rule holding the empty keyword matches every title. |
| CategorizationConfig.MatchesIgnoresCase | pkg/config/categorization.go:63 | Matching depends only on the lower-cased title. |
| CategorizationConfig.FirstMatch | pkg/config/categorization.go:72-79 | The first key in the listing whose rule matches, with no earlier key matching. None exactly when no listed key matches. |
| CategorizationConfig.Search | pkg/config/categorization.go:66-79 | A found key is a rule key whose keywords hit the title. |
| CategorizationConfig.SearchIsLeastMatch | pkg/config/categorization.go:66-79 | A found key is the least matching key in byte order, because the keys are sorted first. Nothing is found exactly when no rule matches. |
| CategorizationConfig.FirstMatchIsLeast | pkg/config/categorization.go:70-79 | Over strictly ascending keys, no key below the first match matches. |
| CategorizationConfig.SearchIgnoresCase | pkg/config/categorization.go:63 | The search result does not depend on the title's case. |
| CategorizationConfig.CategorizeByKeywords | pkg/config/categorization.go:62-97 | The result is an event-rule key, a category key or "other". If some event rule matches, the result is a matching event-rule key. |
| CategorizationConfig.CategorizeByKeywordsSpec | pkg/config/categorization.go:62-97 | The complete rule: the least matching event-rule key; else the least matching category key; else "other". |
| CategorizationConfig.RuleCategoryIgnored | pkg/config/categorization.go:72-78 | An event rule's `category` field has no influence: the key is returned. |
| CategorizationConfig.CategorizeIgnoresCase | pkg/config/categorization.go:63 | The categorisation of a title and of its lower-cased form agree. |
| CategorizationConfig.GetCategoryTime | pkg/config/categorization.go:100-120 | The result is a category key or "other". |
| CategorizationConfig.GetCategoryTimeSpec | pkg/config/categorization.go:100-120 | The least matching category key, else "other". |
| CategorizationConfig.CategorizeNotionPage | pkg/config/categorization.go:131-151 | The result is a Notion rule key or "other". |
| CategorizationConfig.CategorizeNotionPageSpec | pkg/config/categorization.go:131-151 | The least matching Notion rule key, else "other". |
| CategorizationConfig.Title | pkg/config/categorization.go:127 | `strings.Title` keeps the length and upper-cases exactly the characters that start a word. |
| CategorizationConfig.GetCategoryDisplayName | pkg/config/categorization.go:123-128 | A defined category gives its configured name. Any other key gives `strings.Title` of the key: a text of the same length that agrees with the key up to case. |
| Timestamps.HourOfValid | pkg/calendar/analyzer.go:589 | The hour bucket of a valid time is its clock hour. |
| Timestamps.EpochIsThursday | pkg/calendar/analyzer.go:590 | The day count starts at 1970-01-01, which is named Thursday, matching Go's `Weekday`. |
| Timestamps.DateKeyFields | cmd/notion/main.go:390-398 | The `2006-01-02` key is ten characters, with the year, month and day as zero-padded decimal fields. |
| Timestamps.DateKey | cmd/notion/main.go:391 | For years 0 to 9999 the key is ten characters with dashes at positions 4 and 7. |
| Timestamps.DateKeyInjective | cmd/notion/main.go:390-398 | Two times share a date key exactly when they fall on the same calendar day. |
| Timestamps.ParseDateRoundTrip | pkg/calendar/analyzer.go:260-261 | Formatting a date with the layout `20060102` and parsing it gives the date back. |
| Timestamps.ParseDateExact | pkg/calendar/analyzer.go:260-261 | With the layout `20060102`, only a valid date's own eight-digit rendering parses. |
| Timestamps.ParseDateTimeRoundTrip | pkg/calendar/analyzer.go:256-258 | The `20060102T150405` layout parses its own rendering back. This holds with or without a fractional second after it, which is dropped. |
| Timestamps.ParseDateTimeExact | pkg/calendar/analyzer.go:256-258 | Any text that parses is a valid time's own rendering in that layout, followed by nothing or by a fractional second (a `.` or `,` and one or more digits). |
| Timestamps.ParseDateTimeUtcRoundTrip | pkg/calendar/analyzer.go:252-254 | The `20060102T150405Z` layout parses its own rendering back. This holds with or without a fractional second before the `Z`. |
| Timestamps.ParseDateTimeUtcExact | pkg/calendar/analyzer.go:252-254 | Any text that parses is a valid time's rendering in the `20060102T150405` layout, then nothing or a fractional second, then `Z`. |
| NotionDownloader.WithoutFragment | pkg/notion/downloader.go:147-149 | The URL is cut before its first '#': the result holds no '#', is a prefix of the URL, and is the URL itself when it has no '#'. |
| NotionDownloader.ExtractPageIdFromUrl | pkg/notion/downloader.go:141-162 | The page id is always either empty or 32 characters long, and never holds a '-'. |
| NotionDownloader.LastPieceAfterSeparator | pkg/notion/downloader.go:152-154 | The last piece of `strings.Split` by '-' is the text after the last '-', or the whole text when there is none. |
| NotionDownloader.PageIdInUrl | pkg/notion/downloader.go:141-162 | A non-empty id occurs in the URL before its fragment. |
| NotionDownloader.PageIdRoundTrip | pkg/notion/downloader.go:141-162 | For a URL built as slug, '-', a 32-character id, and an optional '#fragment', the extracted id is that id. |
| NotionDownloader.PageIdWithoutDash | pkg/notion/downloader.go:152-158 | A URL with no '-' and no '#' yields its own first 32 characters. |
| NotionDownloader.FindDateRange | pkg/notion/downloader.go:91-92 | The leftmost match of `YYYY-MM-DD to YYYY-MM-DD` at or after a position, or None exactly when there is no match. |
| NotionDownloader.DateSettings | pkg/notion/downloader.go:90-97 | The dates come from the last line carrying a range, and the output directory is `notion-downloads/S_to_E` of those dates. Otherwise all three are empty. |
| NotionDownloader.LoadFromMarkdown | pkg/notion/downloader.go:69-138 | The categories are the `## ` headers in file order. Category k holds exactly the pages added while header k was the latest, in file order: one per URL line read after a header while a title is pending, carrying that title, the URL after `    - `, the id extracted from it and the header name. Every page is a listed page of its category, and there are no more pages than URL lines. The dates are those of the last date-range line. The path is kept. |
| NotionDownloader.ScanLine | pkg/notion/downloader.go:85-131 | One pass of the loop computes the line step: the date range, then a header appending a category, then a title line setting the pending title once a category exists, then a URL line adding a page to the last category and clearing the title. |
| NotionDownloader.ReadDateRange | pkg/notion/downloader.go:90-97 | A line with a date range sets start, end and output directory; any other line keeps them. |
| NotionDownloader.UrlOfUrlLine | pkg/notion/downloader.go:116-117 | Stripping `    - ` from a URL line gives a `https://www.notion.so/` URL, and prefixing it again gives the line back. |
| NotionDownloader.AddCategory | pkg/notion/downloader.go:100-107 | A header appends one empty category with its name, and the page count is unchanged. |
| NotionDownloader.AddPage | pkg/notion/downloader.go:127-128 | The page is appended to the last category. Every other category is unchanged, the names are kept, and the page count grows by one. |
| NotionDownloader.ReadHeader | pkg/notion/downloader.go:100-108 | A trimmed line starting `## ` appends a category named by the rest; any other line keeps the categories. |
| NotionDownloader.ReadTitle | pkg/notion/downloader.go:111-113 | A trimmed `- ` line that is not indented `    -` sets the pending title once a category exists; otherwise the title is kept. |
| NotionDownloader.ReadUrl | pkg/notion/downloader.go:116-130 | A `    - https://www.notion.so/` line with a category and a pending title adds the page to the last category and clears the title; otherwise nothing changes. |
| NotionDownloader.UrlLineKind | pkg/notion/downloader.go:100-117 | A URL line is never taken for a header or a title line, so it only ever adds a page. |
| NotionDownloader.ScanNames | pkg/notion/downloader.go:100-108 | After any prefix of the file, the category names are the headers read so far. |
| NotionDownloader.PendingTitleNeedsHeader | pkg/notion/downloader.go:111-113 | No title is pending before the first header. |
| NotionDownloader.ScanPending | pkg/notion/downloader.go:111-129 | The loader's pending title is the text of the last title line read after a header, unless a URL line came after it. |
| NotionDownloader.AddedPagesListed | pkg/notion/downloader.go:116-128 | Every added page is tagged with an existing header, has a non-empty title, that header's name, a URL whose line is in the file and the id extracted from that URL. |
| NotionDownloader.PagesUnderFrom | pkg/notion/downloader.go:127-128 | A page under tag k was added with tag k. |
| NotionDownloader.PagesUnderAbsent | pkg/notion/downloader.go:100-107 | A tag no added page carries has no pages, so a new category starts empty. |
| NotionDownloader.PagesMatchAddPage | pkg/notion/downloader.go:127-128 | Appending a page to the last category keeps each category equal to its tagged pages once the page is tagged with the last index. |
| NotionDownloader.PagesMatchAddCategory | pkg/notion/downloader.go:100-107 | Opening a category keeps each category equal to its tagged pages. |
| NotionDownloader.ScanPages | pkg/notion/downloader.go:85-131 | After any prefix of the file, category k holds exactly the pages added under header k, in order. |
| NotionDownloader.LineStepCategories | pkg/notion/downloader.go:100-128 | A line that adds a page only appends it to the last category; any other line only opens a category when it is a header. |
| NotionDownloader.ScanListed | pkg/notion/downloader.go:116-128 | Every page the loader builds is a listed page of the category holding it. |
| NotionDownloader.ScanPageCount | pkg/notion/downloader.go:116-128 | The loader builds exactly one page per added page. |
| NotionDownloader.AddedPagesBound | pkg/notion/downloader.go:116-117 | At most one page per URL line. |
| NotionDownloader.ScanDates | pkg/notion/downloader.go:90-97 | The loader's dates are those of the last line carrying a date range. |
| NotionDownloader.FirstWithPage | pkg/notion/downloader.go:316-317 | The first category, at or after a position, with the header's name that has a k-th page. None when there is none. |
| NotionDownloader.PageTitleMonotone | pkg/notion/downloader.go:316-326 | When no category named C has a k-th page, none has a later one. So a page index that stops advancing loses nothing. |
| NotionDownloader.RewriteTitles | pkg/notion/downloader.go:296-332 | The rewrite keeps the line count. The k-th title line under header C becomes `- ` plus the k-th page title of the first category named C that has a k-th page. Every other line is unchanged. |
| NotionDownloader.RewriteLine | pkg/notion/downloader.go:302-331 | One line of the loop produces the specified line, and the current header and page index stay in step with it. |
| NotionDownloader.RewriteKeepsOtherLines | pkg/notion/downloader.go:306-329 | Headers, lines before the first header and non-title lines are copied unchanged. |
| NotionDownloader.HeaderLineStep | pkg/notion/downloader.go:306-311 | A header line is kept, becomes the current header and resets the page index. |
| NotionDownloader.TitleLineStep | pkg/notion/downloader.go:314-326 | A title line under a header is replaced by the tracked page's title when there is one, and kept otherwise. |
| NotionDownloader.PlainTexts | pkg/notion/downloader.go:543-549 | Only non-empty `plain_text` strings of the items are collected. |
| NotionDownloader.ExtractText | pkg/notion/downloader.go:540-552 | The text is empty exactly when every item is missing or has an empty `plain_text`. |
| NotionDownloader.PlainTextsEmpty | pkg/notion/downloader.go:543-549 | Joining the plain texts gives nothing exactly when none is non-empty. |
| NotionDownloader.ExtractTextLength | pkg/notion/downloader.go:540-552 | The text is exactly as long as all plain texts together. |
| NotionDownloader.ExtractTextConcat | pkg/notion/analyzer.go:525-537 | Extracting from two arrays concatenates their texts. The analyzer's copy of the function is the same text as the downloader's, and one definition serves both. |
| NotionDownloader.ConvertBlockToMarkdown | pkg/notion/downloader.go:457-527 | The result is empty exactly for a missing or unknown type, or a non-divider with empty text. A paragraph gives its text, a divider `---`, headings `#`/`##`/`###` plus the text, bulleted items `- `, numbered items `1. ` and quotes `> ` plus the text, to-dos `- [x] `/`- [ ] ` plus the text, and code a fenced block with its language. |
| NotionDownloader.HeadingTwoIsCategoryHeader | pkg/notion/downloader.go:100-101 | A rendered level-2 heading reads back, as a page-list header, its heading text. |
| NotionDownloader.ReplaceAll | pkg/notion/downloader.go:644-646 | Each occurrence of the character is replaced, and every other character is kept. |
| NotionDownloader.SafeName | pkg/notion/downloader.go:643-646 | Every invalid file-name character becomes '_'. |
| NotionDownloader.SanitizedName | pkg/notion/downloader.go:641-665 | The name holds none of `/ \ : * ? " < >`, no vertical bar and no control character, and is a prefix of the trimmed cleaned name. Its length is that of the trimmed cleaned name, capped at 200 characters. |
| NotionDownloader.SanitizeFileNameMinimal | pkg/notion/downloader.go:641-665 | The method computes that sanitised name. |
| NotionDownloader.SanitizeKeepsSafeNames | pkg/notion/downloader.go:641-665 | A short, trimmed name without invalid characters is kept as it is. |
| NotionDownloader.SanitizeIdempotent | pkg/notion/downloader.go:641-665 | Sanitising twice is sanitising once, unless the 200-character cut leaves trailing white space. |
| NotionAnalyzer.PagesOf | pkg/notion/analyzer.go:318-333 | The pages of a response are its page objects, in order. |
| NotionAnalyzer.SpecifiedUserId | pkg/notion/analyzer.go:335-339 | The `NOTION_USER_ID` setting when it is non-empty, else the user passed in. |
| NotionAnalyzer.WantedIsInRange | pkg/notion/analyzer.go:341-352 | Every kept page is in the date window. |
| NotionAnalyzer.FilterResponse | pkg/notion/analyzer.go:315-385 | One response: the kept pages are, in order, those in the window that involve the user. The in-range count is the number of pages in the window, and it is at least the number kept. |
| NotionAnalyzer.CollectPages | pkg/notion/analyzer.go:283-405 | The loop reads responses until the run of results without an in-window page reaches 500, or a response says there are no more. It reads no response after the stop, and it keeps, in order, the wanted pages of every response read. |
| NotionAnalyzer.CollectStep | pkg/notion/analyzer.go:389-403 | A response extends the kept pages by its wanted pages. It adds its result count to the old-run counter when it has no in-window page, and resets the counter otherwise. |
| NotionAnalyzer.SearchPages | pkg/notion/analyzer.go:270-410 | Paged search with the window "created in (start, end + 1 day) or last edited in (start, end + 11 days)" and the user from `SpecifiedUserId`. It makes the requests above and keeps the pages above. |
| NotionAnalyzer.InRangeResponseResets | pkg/notion/analyzer.go:390-394 | A response with an in-window page resets the counter, so only the has-more flag can stop the search after it. |
| NotionAnalyzer.ConsecutiveCountsOldResults | pkg/notion/analyzer.go:390-394 | The counter equals the number of results in the trailing run of responses without an in-window page. |
| NotionAnalyzer.CountPageUsers | pkg/notion/analyzer.go:248-253 | A page adds one count for its non-empty creator id and one for its non-empty last-editor id. |
| NotionAnalyzer.DetectActualUserId | pkg/notion/analyzer.go:229-267 | The result is "" exactly when no page carries a user id. Otherwise it is an id that occurs as often as any other, whatever order the map is iterated in. |
| NotionAnalyzer.PeakOfTally | pkg/notion/analyzer.go:256-265 | The strict-maximum scan over a count map picks an id with a maximal count, or "" only when nothing was counted. |
| NotionAnalyzer.CategorizePages | pkg/notion/analyzer.go:622-638 | Created pages are those the user created. Updated pages are those the user last edited but did not create. Both keep page order, they are disjoint, and together they are no more than the pages. The command's `categorizePages` (cmd/notion/main.go:286-296) is the same code, given the target user. |
| NotionAnalyzer.BucketName | pkg/notion/analyzer.go:733-748 | A category key maps to one of five buckets: Daily Work Log, Meeting Notes, Technical Documentation, Project Planning or Other. |
| NotionAnalyzer.CountCategories | pkg/notion/analyzer.go:727-749 | Each page is counted in exactly one bucket, and the buckets sum to the page count. Each named counter equals its bucket's occurrences. |
| NotionAnalyzer.AnalyzeCategoryStats | pkg/notion/analyzer.go:720-752 | Over created then updated pages, the buckets sum to the number of pages, and the four counters equal their buckets. |
| NotionAnalyzer.AnalyzeWorkPatterns | pkg/notion/analyzer.go:755-791 | The hourly and weekday counts (by last edit) each sum to the page count. The peaks have maximal counts. With no pages they are 0 and "". |
| NotionAnalyzer.PeakOfNonEmptyTally | pkg/notion/analyzer.go:772-788 | The peak scan yields the empty value only for no pages, and otherwise a key with a maximal count. |
| NotionCli.FirstTitle | cmd/notion/main.go:192-205 | The value of a property, in iteration order, named "title" or "name" (case-insensitively) with a readable first `plain_text`, where no earlier property qualifies. None exactly when there is none. |
| NotionCli.ExtractPageTitle | cmd/notion/main.go:192-210 | A title property's first text when one exists. Otherwise "Page " and the first 8 characters of the id, which the caller must provide. |
| NotionCli.TitleIndependentOfOrder | cmd/notion/main.go:192-210 | When all title properties agree, the map's iteration order does not change the title. |
| NotionCli.CliWantedIsWanted | cmd/notion/main.go:265-274 | The command keeps a subset of what the analyzer's wider window keeps. |
| NotionCli.KeepWanted | cmd/notion/main.go:265-274 | The kept pages of one response are, in order, its pages that involve the user and fall in (start, end + 1 day). |
| NotionCli.SearchAllPages | cmd/notion/main.go:212-284 | The command reads responses until one says there are no more, with no early stop, and keeps the wanted pages of each. The kept pages keep the title field they arrived with. |
| NotionCli.TargetUserId | cmd/notion/main.go:329-337 | A detected id always wins, and an empty one never does. |
| NotionCli.SortedByTime | cmd/notion/main.go:355-360 | `sort.Slice` by a time gives a permutation with non-decreasing times. |
| NotionCli.CountDays | cmd/notion/main.go:390-398 | One list of pages is counted into the daily map by its date keys. |
| NotionCli.DailyActivity | cmd/notion/main.go:390-406 | Created pages are counted on their creation date and updated pages on their last-edit date. The counts sum to the number of pages. The reported dates are exactly the keys, in strictly ascending order. |
| BacklogProfiles.GetBaseUrl | pkg/backlog/profiles.go:20-22 | The base URL is `https://` followed by exactly the host. |
| BacklogProfiles.IsComplete | pkg/backlog/profiles.go:25-27 | A profile is complete exactly when its API key is set and its base URL names a host. |
| BacklogProfiles.IsAnalysisReady | pkg/backlog/profiles.go:30-32 | A profile ready for analysis is complete. |
| BacklogProfiles.ParseEntry | pkg/backlog/profiles.go:41-66 | An accepted entry has an '=' and names a profile without '_'. |
| BacklogProfiles.ParseEntryRoundTrip | pkg/backlog/profiles.go:41-66 | An entry `BACKLOG_<profile>_<setting>=<value>` parses back to that profile, setting and value: the name is the second '_'-part and the setting is the rest rejoined. |
| BacklogProfiles.SplitKey | pkg/backlog/profiles.go:60-66 | Splitting such a key by '_' gives "BACKLOG", the profile, then the setting's own parts. |
| BacklogProfiles.SelectorKeyHasTwoParts | pkg/backlog/profiles.go:55-63 | `BACKLOG_PROFILE` has only two parts, so it would be skipped even without its explicit check. |
| BacklogProfiles.SetField | pkg/backlog/profiles.go:78-87 | Setting a field never changes the profile's name. |
| BacklogProfiles.ProfilesNamed | pkg/backlog/profiles.go:65-73 | Every profile in the map is stored under its own name. |
| BacklogProfiles.ProfilesFromEntries | pkg/backlog/profiles.go:40-88 | A profile exists exactly when some accepted entry names it. |
| BacklogProfiles.ApplyKeys | pkg/backlog/profiles.go:68-75 | After one entry, a profile is in the map exactly when it was there before or the entry names it. |
| BacklogProfiles.LastEntryWins | pkg/backlog/profiles.go:78-87 | The last entry for a profile and setting decides that field, whatever came before. |
| BacklogProfiles.CollectProfiles | pkg/backlog/profiles.go:40-88 | The scan loop builds the profile map of the entries. |
| BacklogProfiles.CompleteProfiles | pkg/backlog/profiles.go:91-96 | Exactly the complete profiles of the map are kept, once each. |
| BacklogProfiles.NameNotAfterIsTotalPreorder | pkg/backlog/profiles.go:98-100 | The name comparator is a total preorder. |
| BacklogProfiles.SortedProfiles | pkg/backlog/profiles.go:98-100 | Sorting keeps the same profiles, and with distinct names leaves them in strictly ascending name order. |
| BacklogProfiles.LoadBacklogProfiles | pkg/backlog/profiles.go:36-103 | The result is exactly the complete profiles built from the entries, each as built, in strictly ascending name order. |
| BacklogProfiles.FindProfile | pkg/backlog/profiles.go:108-113 | The first profile whose name equals the argument ignoring case. Otherwise the error `profile '<name>' not found`, exactly when no name matches. |
| BacklogProfiles.GetProfileByName | pkg/backlog/profiles.go:106-114 | A found profile is complete, matches the name ignoring case, and is the profile built from the entries. No other complete matching profile has a smaller name, so it is the first match in the sorted list. An error comes exactly when no complete profile matches. |
| BacklogLister.Truncate | pkg/backlog/lister.go:380-385 | A string within the limit is returned unchanged. A longer one becomes its first `maxLen - 3` characters and "...", exactly `maxLen` long. The caller must pass `maxLen >= 3` in that case. |
| BacklogLister.TruncateIdempotent | pkg/backlog/lister.go:380-385 | Truncating twice is truncating once. |
| BacklogLister.RoleTypeName | pkg/backlog/lister.go:364-377 | Roles 1 to 4 are Administrator, Member, Reporter and Viewer; any other number n is named `Unknown(n)`. |
| BacklogLister.RoleTypeNameShape | pkg/backlog/lister.go:364-377 | A name starts with `Unknown(` exactly when the role is not one of 1–4. |
| BacklogLister.RoleTypeNameInjective | pkg/backlog/lister.go:364-377 | Distinct role numbers give distinct names. |
| BacklogLister.CachePath | pkg/backlog/lister.go:185-188 | The cache file of a profile is a `.json` file directly inside `.backlog-cache/`. |
| BacklogLister.CachePathRoundTrip | pkg/backlog/lister.go:185-188 | A profile name without '/' is recovered from its cache path `.backlog-cache/<name>.json`. |
| BacklogAnalyzer.ValidateConfig | pkg/backlog/analyzer.go:99-111 | No error exactly when the profile is ready for analysis. Otherwise the error names the first empty field, in the order API key, host, user id, project id. |
| BacklogAnalyzer.FilterActivities | pkg/backlog/analyzer.go:284-289 | The loop keeps, in order, exactly the page's activities that pass the range test: created after the start and before the end plus one day. |
| BacklogAnalyzer.GetUserActivities | pkg/backlog/analyzer.go:251-307 | Pages are read until one is empty, its oldest activity is before the start, or it is short (under 100). No page after the stop is read. The result is the in-range activities of the pages read, in order. |
| BacklogAnalyzer.KeptActivitiesInRange | pkg/backlog/analyzer.go:283-291 | Every collected activity is in the range. |
| BacklogAnalyzer.ActivityTypeName | pkg/backlog/analyzer.go:312-348 | Types 1–26 have their fixed names. Exactly the other types are named `Activity type <n>`. |
| BacklogAnalyzer.ActivityTypeNameInjective | pkg/backlog/analyzer.go:312-348 | Distinct types get distinct names, so no two types share a count. |
| BacklogAnalyzer.KnownNamesDistinct | pkg/backlog/analyzer.go:312-339 | The 26 fixed names are pairwise distinct. |
| BacklogAnalyzer.ExampleOf | pkg/backlog/analyzer.go:353-358 | An example is the non-empty string `summary` when there is one, else the `id` (or its absence). |
| BacklogAnalyzer.ExamplesOfTypeCount | pkg/backlog/analyzer.go:351-360 | There is one candidate example per activity of the type. |
| BacklogAnalyzer.Capped | pkg/backlog/analyzer.go:352 | The kept examples are the first min(3, n). |
| BacklogAnalyzer.AnalyzeActivities | pkg/backlog/analyzer.go:309-373 | The counts are exact per type name, and they sum to the number of activities. Each unknown type keeps its first one to three examples. |
| BacklogAnalyzer.KeepsExamplesStep | pkg/backlog/analyzer.go:344-361 | Recording one activity keeps the examples right. A known type, or an unknown type that already has three examples, leaves the map unchanged. Otherwise the activity's example is appended under its type. |
| BacklogAnalyzer.Candidate | pkg/backlog/analyzer.go:380-391 | An accepted item carries the activity's creation time and the kind's label. |
| BacklogAnalyzer.ExtractedDistinct | pkg/backlog/analyzer.go:377-396 | The `seen` set leaves each id at most once. |
| BacklogAnalyzer.ExtractedComplete | pkg/backlog/analyzer.go:377-396 | Every id of an accepted activity is extracted. |
| BacklogAnalyzer.ExtractedFirst | pkg/backlog/analyzer.go:377-396 | Each extracted item comes from the first accepted activity with its id. |
| BacklogAnalyzer.NewestFirstIsTotalPreorder | pkg/backlog/analyzer.go:398-400 | The newest-first comparator is a total preorder. |
| BacklogAnalyzer.ExtractItems | pkg/backlog/analyzer.go:375-403 | The extraction loop plus sort gives a permutation of the first-occurrence items, with distinct ids, ordered newest first. |
| BacklogAnalyzer.ExtractCommentedIssues | pkg/backlog/analyzer.go:375-403 | A permutation of the first-occurrence items of type 3 activities with a string `summary` and a numeric `id`, labelled "Comment". Ids are distinct, and items are ordered newest first. |
| BacklogAnalyzer.ExtractUpdatedIssues | pkg/backlog/analyzer.go:405-433 | As above for types 2 and 14, reading `summary`, labelled "Update". |
| BacklogAnalyzer.ExtractUpdatedWikis | pkg/backlog/analyzer.go:435-463 | As above for type 6, reading `name`, labelled "Wiki Update". |
| BacklogAnalyzer.ExtractCreatedWikis | pkg/backlog/analyzer.go:465-493 | As above for type 5, reading `name`, labelled "Wiki Creation". |
| GithubAnalyzer.ValidateConfig | pkg/github/analyzer.go:92-100 | No error exactly when both the token and the username are set. Otherwise the token's message comes first. |
| GithubAnalyzer.ExtractRepoFromUrl | pkg/github/analyzer.go:270-278 | A URL without '/' is returned unchanged. Otherwise the result is the URL's last two '/'-separated parts: a suffix of the URL that starts at a part boundary. |
| GithubAnalyzer.ExtractOrgName | pkg/github/analyzer.go:280-286 | The text before the first '/'. It is a '/'-free prefix of the name, and the whole name exactly when there is no '/'. |
| GithubAnalyzer.ExtractRepoName | pkg/github/analyzer.go:288-290 | The repository key starts with the organisation key, followed by '/' when it is longer. |
| GithubAnalyzer.LastTwoKey | pkg/github/analyzer.go:270-278 | The last two pieces joined by '/' end the URL right after a '/' and split back into those two pieces. |
| GithubAnalyzer.RepositoryKeysOfApiUrl | pkg/github/analyzer.go:270-290 | For an API URL ending in `/owner/repo`, the repository key is `owner/repo` and the organisation key is `owner`. |
| GithubAnalyzer.ScanMoves | pkg/github/analyzer.go:304-316 | The nested loop from a given position finds a move exactly when some later pair of distinct branches is named in the title. |
| GithubAnalyzer.IsLowValuePR | pkg/github/analyzer.go:293-319 | Low value exactly when the trimmed, lower-cased title mentions a back merge or names a move between two distinct branches with " -> ", " to " or "->". |
| GithubAnalyzer.LowValueIgnoresCase | pkg/github/analyzer.go:294 | Lower-casing the title beforehand does not change the verdict. |
| GithubAnalyzer.ShortTitleIsValuable | pkg/github/analyzer.go:293-319 | A title shorter than 9 characters after trimming is never low value, since every pattern is longer. |
| GithubAnalyzer.PartitionByValue | pkg/github/analyzer.go:139-147 | Valuable and low-value PRs are the two filters of the authored list, in order, and together they are a partition of it. |
| GithubAnalyzer.LabelOccurrencesLength | pkg/github/analyzer.go:168-175 | Each PR contributes its label count, or one "No labels" when it has none. |
| GithubAnalyzer.CountLabels | pkg/github/analyzer.go:168-175 | Counting one PR's labels keeps the label map an exact tally. |
| GithubAnalyzer.CountAuthored | pkg/github/analyzer.go:149-176 | The organisation and repository maps count the authored PRs per key exactly, with no involved counts yet. The label map tallies the label occurrences. |
| GithubAnalyzer.CountInvolved | pkg/github/analyzer.go:178-196 | The involved loop adds exactly the involved PRs' counts to the second component and leaves the authored counts as they were. |
| GithubAnalyzer.AggregatePullRequests | pkg/github/analyzer.go:139-196 | The partition, and exact authored/involved tallies per organisation and repository. The authored components sum to the number of authored PRs, the involved ones to the number of involved PRs, and the label counts to the total label weight. |
| GithubAnalyzer.ReviewTotalsSnoc | pkg/github/analyzer.go:504-519 | One more review adds one to the total if the user submitted it within a day of the range, and one to its state's count if that is APPROVED, COMMENTED or CHANGES_REQUESTED. |
| GithubAnalyzer.CountReviewList | pkg/github/analyzer.go:504-519 | The loop over one PR's reviews extends the running totals by exactly those reviews. |
| GithubAnalyzer.CountReviews | pkg/github/analyzer.go:436-523 | The accumulated statistics are the totals of all fetched reviews, in order. |
| GithubAnalyzer.ReviewsGivenBound | pkg/github/analyzer.go:504-519 | Reviews given are never fewer than approvals, comments and change requests together. |
| PrSummary.ExtractOrganization | main.go:81-87 | Empty for a URL without '/'. Otherwise the '/'-free second-to-last part. |
| PrSummary.ExtractRepo | main.go:89-95 | Empty for a URL without '/'. Otherwise the analyzer's `owner/repo` key of the URL. |
| PrSummary.OrganizationOfRepo | main.go:81-95 | The organisation is the analyzer's organisation of the repository key, and the repository key starts with it and a '/'. |
| PrSummary.ByUrl | main.go:119-125 | Every pull request of the merged map is stored under its own URL. |
| PrSummary.ByUrlLatest | main.go:119-125 | A URL is in the map exactly when some pull request has it, and then the map holds the last one with that URL. |
| PrSummary.ByUrlConcat | main.go:119-125 | Merging two lists one after the other is the map union with the later list winning. |
| PrSummary.MergeByUrl | main.go:119-133 | The merge loops give the created-list map overridden by the merged-list map. |
| PrSummary.UrlNotAfterIsTotalPreorder | main.go:142-144 | The URL comparator is a total preorder. |
| PrSummary.ListByUrl | main.go:136-144 | Each map value is listed exactly once, with URLs strictly ascending. |
| PrSummary.SortedByUrl | main.go:136-144 | Any sort of the map's values in range order by URL has that outcome. |
| PrSummary.CountByRepository | main.go:152-164 | Exact per-repository and per-organisation tallies over the map, in its range order. Each key's count is the number of PRs with that key, whatever the order, and each tally sums to the map's size. |
| PrSummary.VisitOccurrences | main.go:152-164 | Visiting distinct URLs meets a key once per URL carrying it. |
| PrSummary.WithKeySnoc | main.go:152-164 | One more distinct URL adds one to the count of its own key only. |
| PrSummary.TallyCountsUrls | main.go:152-164 | A tally over a visit of every URL counts, for each key, the URLs carrying it, so the counts do not depend on the range order. |
| PrSummary.CountVisited | main.go:152-164 | The loop over the listed keys tallies exactly the visited pull requests. |
| PrSummary.CountedKeys | main.go:152-164 | A key has a count exactly when some pull request of the map has it. |
| PrSummary.ReportedKeys | main.go:166-178 | The listed keys are exactly the keys of some pull request of the map. |
| PrSummary.InvolvedCounts | main.go:147-178 | Each involves count is the number of involved PRs with that repository or organisation, and both sum to the number of involved PRs. The organisation and repository lists hold exactly the keys that occur, each strictly ascending. |
| PrSummary.Summarize | main.go:119-178 | The two merged maps, the URL-sorted list of involved PRs, the four count maps (each key's count is the number of PRs of that map with that repository or organisation, and each map sums to the map's size), and the two sorted key lists. |

## Left out

- Network calls are not modelled: the HTTP client in `pkg/common/http.go`, every API request, the GitHub and Backlog connectivity probes, user, database and related-page lookups, `DownloadPages`, `getPageBlocks`, `searchPRs`, `fetchPRs` and the Backlog project listing. What those calls return (search responses, activity pages, review lists) is an input.
- File-system and stream I/O are not modelled: directory walks, `os.Open`, `bufio.Scanner`, file writes, cache load and save, directory creation. A file is its lines, a walk is a sequence of per-file results, and a scanner error is one error variant.
- `LoadCategorizationConfig` is not modelled, since it only decodes YAML. The three rule maps are inputs.
- Printing, help text, flag parsing and the `main` functions are not modelled. Only the ranking comparators of the calendar report are kept, as sort orders.
- `cmd/dev-stats/main.go` is not modelled: stdout capture through a pipe and a goroutine, and file output.
- `cmd/backlog/main.go` is not modelled: its counting loop is interleaved with requests, and the Backlog analyzer covers the same classification.
- `pkg/common` is not modelled: environment reading, error wrapping and summary printing.
- Floating-point code is not modelled: `extractPropertyValue`'s number formatting and `getPageProperties`. JSON numbers that the code converts with `int(...)` (Backlog ids and types) are modelled directly as integers.
- Both `extractPageTitle` functions of `pkg/notion/analyzer.go` and `pkg/notion/downloader.go` are not modelled, because their result depends on Go's map iteration order beyond "some matching property". The command's own `extractPageTitle` is modelled, with the order as a parameter.
- Rate limiting (`time.Sleep`) and the Backlog paging cursor `maxId` are not modelled. The pages are given in order.
- Text handling is ASCII only: `strings.ToLower`, `TrimSpace`, `EqualFold` and `strings.Title` use the ASCII letters, digits and white space. Strings are sequences of characters standing for bytes, so byte counts such as the 200-byte cut of `sanitizeFileNameMinimal` are character counts.
- `time.Parse` is modelled only for the three compact layouts the program uses, with field range checks and the fractional second it accepts after the seconds. All times are UTC: a TZID parameter is ignored, as the program does, and local wall-clock times are read as UTC. Folded ICS lines are not unfolded, as in the program.
- Durations are whole seconds on unbounded integers, so Go's `time.Duration` saturation (an end at the zero time subtracted from a start) and overflow are not modelled.
- CalendarCategories.AnalyzeCategoryStats: the raw end-minus-start durations are exact sums, without the saturation Go applies when an end time is missing.
- CalendarHours.AnalyzeWorkingHours: the same holds for the hourly and daily distributions.
- NotionAnalyzer.AnalyzeWorkPatterns: the peak hour and peak day are "some key with a maximal count", because Go's choice among ties depends on map iteration order.
- NotionAnalyzer.DetectActualUserId: the detected id is "some id with a maximal count", for the same reason.
- CalendarCli.CalculateTitleStatsUnordered: the output order is "some order of the title groups", as Go's map range gives. The same holds for CalendarCli.CalculateAllDayStatsUnordered.
- BacklogAnalyzer.ExtractItems: `sort.Slice` is not stable, so items with equal creation times are specified only up to their order among themselves.
- NotionCli.ExtractPageTitle: a page without a title and with an id shorter than 8 characters is excluded, since the program panics on it.
- BacklogLister.Truncate: a bound under 3 on a longer string is excluded, since the program's slice panics on it.
- BacklogLister.CachePath: profile names containing '/' are excluded, since `filepath.Join` would clean such a path into several segments.
- BacklogLister.CachePathRoundTrip: profile names containing '/' are excluded, since `filepath.Join` would then clean a path made of more than one segment.
- Timestamps.DateKey: defined only for valid civil timestamps, which are all the program produces.
- The interface mismatch in `cmd/dev-stats` is not modelled: it calls `Analyze` with one argument while the interface in `pkg/common/analyzer.go` takes two.
- CalendarIcs.DecodeDateTime: a fractional second such as the `.5` of `20240102T150405.5Z` is accepted, as `time.Parse` does, but dropped, because a `Timestamp` holds whole seconds. An event whose start or end carries one therefore differs from the program's by less than a second in its duration.
- NotionCli.SearchAllPages: the program sets each kept page's `Title` from `extractPageTitle` (cmd/notion/main.go:272). The model leaves the title field as it arrived. That title is only printed, and `ExtractPageTitle` models the lookup on its own.
