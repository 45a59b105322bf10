# SkinsCux scraper and data API, modelled in Dafny

This project models the bookkeeping core of the SkinsCux Rainmeter-skin
scraper (`RainmeterScraper` in `scraper/rainmeter_scraper.py`) and the two
read-only endpoints of its web front end that serve what the scraper saved
(`get_data` and `search_data` in `app.py`), and proves what they promise.

The scraper side covers:

- fetching with retries and the failure record it leaves (`get_page`);
- the text cleaner (`clean_text`) and the URL generator
  (`discover_comprehensive_urls`, 2347 URLs from four strategies);
- link extraction from a listing page: the strict selector pass, the
  permissive pass on collection pages, the shared `seen_urls` set and the
  order-preserving de-duplication (`extract_skin_links_worker`);
- the discovery loop: batches of 25, the `max_urls` caps, stagnation,
  early stop and completion (`discovery_worker`);
- detail extraction from a skin page (`extract_skin_details`);
- the scraping worker's queue loop and the monitor's stall, restart and
  timeout rules (`scraping_worker`, `scrape_all_skins_parallel`);
- the end-of-run passes `remove_duplicates`, `clean_data` and `get_stats`.

The API side covers the statistics that `get_data` computes over the saved
records, and the filter, clamping and pagination of `search_data`.

Layout, one module per file:

| file | module | what it holds |
|---|---|---|
| `wrappers.dfy` | `Wrappers` | `Option` |
| `seqs.dfy` | `Seqs` | filter, flatten, first-occurrence selection, distinct keys |
| `text.dfy` | `Text`, `CleanTextProps` | whitespace, ASCII case mapping, `clean_text` and its properties |
| `urls.dfy` | `Urls` | `urljoin` against an origin base |
| `discovery.dfy` | `Discovery` | `discover_comprehensive_urls` |
| `links.dfy` | `Links` | which links a listing page yields |
| `details.dfy` | `Details` | the skin record built from a skin page |
| `records.dfy` | `Records` | de-duplication, cleaning and statistics over records |
| `control.dfy` | `Control` | fetch retries, discovery batching, worker and monitor rules |
| `scraper.dfy` | `Scraper` | the `RainmeterScraper` class and the loops that drive it |
| `app.dfy` | `App` | `get_data` statistics and `search_data` |

The world outside the program is passed in as values:

- a `Listings` gives each listing URL its parsed page and its scripted
  sequence of fetch outcomes (`true` is a response);
- a `Site` does the same for skin pages, and also carries `md5` and the
  time stamp;
- `WorkerEvent`s script what the scraping worker's `queue.get` sees;
- `Snapshot`s script what the monitor reads on each round.

The class keeps the fields that the source updates in place: the queue,
`scraped_data`, `seen_urls`, `failed_urls`, `processing_stats` (with
`failed_count` optional, because the reset drops it) and `start_time`.
Pure parts (page parsing rules, URL generation, the discovery schedule, the
API endpoints) are functions with lemmas.

## Model

Paths are relative to the repository root.

| member | source | states |
|---|---|---|
| `Text.Strip` | scraper/rainmeter_scraper.py:94 | the result has no leading or trailing whitespace (Python's whitespace set), is never longer than the input and draws every character from it |
| `Text.StripIsSlice` | scraper/rainmeter_scraper.py:94 | the result is the input with whitespace, and only whitespace, cut off both ends: a slice `s[i..j]` with only whitespace before `i` and from `j` on |
| `Text.CollapseSpacesSingleSpaced` | scraper/rainmeter_scraper.py:95 | after replacing whitespace runs, no whitespace other than single spaces remains |
| `Text.CleanText` | scraper/rainmeter_scraper.py:91-97 | the cleaned text is ASCII, never longer than the input, empty for empty input, and single-spaced and stripped whenever the input was ASCII |
| `CleanTextProps.CleanTextFixesNormalized` | scraper/rainmeter_scraper.py:91-97 | stripped, single-spaced ASCII text is left unchanged |
| `CleanTextProps.CleanTextIdempotentOnAscii` | scraper/rainmeter_scraper.py:91-97 | cleaning ASCII text twice gives the same result as once |
| `CleanTextProps.CleanTextNotIdempotent` | scraper/rainmeter_scraper.py:95-96 | because non-ASCII removal runs after whitespace collapsing, "a é b" cleans to "a  b", which cleans again to "a b" |
| `CleanTextProps.CleanTextKeepsWords` | scraper/rainmeter_scraper.py:91-97 | apart from whitespace the cleaned text is exactly the input's ASCII characters, in order: with whitespace removed from both, the result equals the input's ASCII non-space characters |
| `Text.StripKeepsWords` | scraper/rainmeter_scraper.py:94 | `strip()` keeps every non-space character, in order |
| `Text.CollapseKeepsWords` | scraper/rainmeter_scraper.py:95 | collapsing whitespace runs keeps every non-space character, in order |
| `Text.NatToString` | scraper/rainmeter_scraper.py:160-175 | the decimal spelling of a page number is digits only, one digit exactly below 10 |
| `Text.NatToStringInjective` | scraper/rainmeter_scraper.py:160-175 | distinct page numbers give distinct spellings, so generated page URLs never coincide |
| `Urls.JoinEmptyFragment` | scraper/rainmeter_scraper.py:267 | an href ending in an empty "#" joins to the same URL as the href without it ("/skin/x/#" and "/skin/x/" are one URL) |
| `Urls.JoinEmptyQuery` | scraper/rainmeter_scraper.py:267 | an href ending in an empty "?" joins to the same URL as the href without it |
| `Urls.JoinEmptyParams` | scraper/rainmeter_scraper.py:296 | a marker-free path ending in an empty ";" joins to the same URL as the path without it |
| `Urls.JoinOwnScheme` | scraper/rainmeter_scraper.py:296 | an href that spells out the base's scheme, in any case, joins like the same href without it |
| `Urls.JoinWithoutScheme` | scraper/rainmeter_scraper.py:267 | an href without a scheme is resolved against the base's host; the empty href gives the base |
| `Urls.JoinAbsolutePath` | scraper/rainmeter_scraper.py:181 | a path that starts with one '/' replaces the base's empty path: it is appended to the origin as `urlparse`/`urlunparse` write it back, and unchanged when that leaves it as it was |
| `Discovery.TagPaths` | scraper/rainmeter_scraper.py:104-155 | one entry per tag name, each starting with "/tag/" |
| `Discovery.NonTagCategories` | scraper/rainmeter_scraper.py:104-155 | of the 39 categories exactly the three collection pages are not tag paths |
| `Discovery.DiscoverComprehensiveUrls` | scraper/rainmeter_scraper.py:178-184 | the i-th URL is the i-th generated path joined to the base |
| `Discovery.DiscoveryCount` | scraper/rainmeter_scraper.py:99-184 | exactly 2347 URLs are generated: 39 categories, 2100 category pages, 108 probes, 100 root pages |
| `Discovery.CategoryPagesMembers` | scraper/rainmeter_scraper.py:157-163 | a category's "page/k/" is listed iff 1 ≤ k ≤ 50; its "/page/k/" variant iff also the category is not a tag path |
| `Discovery.NoCategoryPage51` | scraper/rainmeter_scraper.py:157-163 | for every listed category, neither "page/51/" nor "/page/51/" after it is among all the generated paths |
| `Discovery.OnlyRootPage51` | scraper/rainmeter_scraper.py:157-175 | the only generated path ending in "/51/" is the root's "/page/51/" |
| `Discovery.DiscoveryPathsWrittenBack` | scraper/rainmeter_scraper.py:178-181 | every generated path is written back by `urlparse`/`urlunparse` unchanged |
| `Discovery.RootPageListed` | scraper/rainmeter_scraper.py:175 | "/page/k/" is among the generated paths iff 1 ≤ k ≤ 100 |
| `Discovery.DiscoveredUrlsAreConcatenations` | scraper/rainmeter_scraper.py:178-181 | every generated path joins to plain base + path |
| `Discovery.DiscoveredUrl` | scraper/rainmeter_scraper.py:178-181 | every generated path appears, as base + path, among the URLs |
| `Discovery.CollectionVariantsDiscovered` | scraper/rainmeter_scraper.py:157-163 | each collection page k ≤ 50 is generated in both spellings, and the two URLs differ |
| `Discovery.PageSpellingsDiffer` | scraper/rainmeter_scraper.py:160-163 | "category" + "page/k/" and "category" + "/page/k/" are different URLs for every category |
| `Links.StrictCandidatesMembers` | scraper/rainmeter_scraper.py:261-280 | a URL is a strict candidate iff some non-empty selector href joins to it and it passes the marker, site and exclusion tests |
| `Links.PermissiveCandidatesMembers` | scraper/rainmeter_scraper.py:292-311 | a URL is a permissive candidate iff some anchor joins to it, passes the site and exclusion tests and has skin-like text |
| `Links.LinksFoundSound` | scraper/rainmeter_scraper.py:186-327 | the links returned are distinct, not already seen, on the site, free of the shared exclusions, and strict candidates or (on collection pages) permissive ones |
| `Links.LinksFoundComplete` | scraper/rainmeter_scraper.py:186-327 | every candidate not seen before is returned, and the result is exactly the first occurrences of the unseen candidates, in page order |
| `Links.DedupPassIsIdentity` | scraper/rainmeter_scraper.py:316-322 | the closing de-duplication pass changes nothing, because the shared seen set already kept repeats out |
| `Control.FirstSuccess` | scraper/rainmeter_scraper.py:69-80 | the attempt that returns is the first successful one before `retries`, and every earlier attempt failed |
| `Control.GetPageSuccess` | scraper/rainmeter_scraper.py:69-80 | when attempt i is the first success, the page is returned and nothing is recorded |
| `Control.GetPageFailure` | scraper/rainmeter_scraper.py:81-89 | when every attempt fails, the URL is appended to the failed list once; the count goes up by one, or a KeyError is raised when the count is absent |
| `Control.GetPageNoAttempts` | scraper/rainmeter_scraper.py:69-89 | with no attempts allowed, None is returned and nothing is recorded |
| `Control.GetPageFrame` | scraper/rainmeter_scraper.py:67-89 | a fetch appends at most its own URL to the failed list, leaves the other counters alone, and succeeds only on an attempt below `retries` |
| `Control.BatchEnqueuePrefix` | scraper/rainmeter_scraper.py:357-377 | what one batch enqueues is a prefix of its workers' links in order |
| `Control.TakeCountBound` | scraper/rainmeter_scraper.py:362-371 | the inner loop stops as soon as the running total reaches twice the cap |
| `Control.BatchEnqueueBound` | scraper/rainmeter_scraper.py:357-377 | one batch never takes the total past twice the cap |
| `Control.DiscoveryFromBound` | scraper/rainmeter_scraper.py:351-404 | from any point below the cap, the rest of the run keeps the total within twice the cap |
| `Control.DiscoveryFromStep` | scraper/rainmeter_scraper.py:351-404 | one batch: its links are enqueued, then the run continues 25 targets later unless a stop rule fires; batches are counted the same way |
| `Control.DiscoveryCapBound` | scraper/rainmeter_scraper.py:370-373 | a run with a positive `max_urls` enqueues at most `2 * max_urls` URLs |
| `Control.StagnantDiscovery` | scraper/rainmeter_scraper.py:380-390 | when no target yields anything, nothing is enqueued and the run ends after min(batch count, 8) batches |
| `Control.DiscoveryGivesUpWhenStagnant` | scraper/rainmeter_scraper.py:380-390 | the same for the discovery run over the links workers return |
| `Control.DiscoveryStopsEarly` | scraper/rainmeter_scraper.py:398-404 | past 500 URLs, with more than 50 batches left, an empty batch ends the run |
| `Control.DiscoveryStopsAtCap` | scraper/rainmeter_scraper.py:393-395 | a batch that brings the total to `max_urls` is the last |
| `Control.DiscoveryYields` | scraper/rainmeter_scraper.py:357-365 | every enqueued URL was returned by some target's link worker |
| `Control.DiscoveryDistinct` | scraper/rainmeter_scraper.py:351-377 | when no two targets return the same URL, no URL is enqueued twice |
| `Control.OnEmpty` | scraper/rainmeter_scraper.py:581-596 | an empty poll counts one more; the worker finishes iff discovery is complete and the queue is empty, and times out iff not and this is the 20th empty poll in a row |
| `Control.MonitorRound` | scraper/rainmeter_scraper.py:670-728 | a round is Done iff discovery is complete, the queue is empty and scraped ≥ discovered; otherwise it records the counts it saw and keeps the stall counter below 10 |
| `Control.MonitorStallRule` | scraper/rainmeter_scraper.py:689-719 | the stall counter grows iff nothing moved, discovery is incomplete and the tenth stall is not reached; otherwise it is reset; workers are restarted iff the tenth stall finds none alive |
| `Control.MonitorRunStops` | scraper/rainmeter_scraper.py:684-728 | the monitor ends on the round that completes, or on the first round more than 7200 s after the start |
| `Control.MonitorTimeoutRule` | scraper/rainmeter_scraper.py:721-728 | a run that ends out of time ends on a snapshot more than 7200 s after the start time, which the first round sets when it is absent |
| `Control.MonitorCompletes` | scraper/rainmeter_scraper.py:684-687 | a first snapshot that is complete ends the monitor at once, with no restart |
| `Details.StripThemeSuffix` | scraper/rainmeter_scraper.py:446 | the name with the suffix removed is a prefix of the title |
| `Details.StripThemeSuffixRemoves` | scraper/rainmeter_scraper.py:446 | any casing of "rainmeter" and "theme", with any whitespace before, between and after, is removed together with the whitespace before it |
| `Details.StripThemeSuffixKeeps` | scraper/rainmeter_scraper.py:446 | a title that does not end in "theme" (any case, before trailing whitespace) is kept whole |
| `Details.StripThemeSuffixKeepsTheme` | scraper/rainmeter_scraper.py:446 | a title that ends in "theme" (any case, any trailing whitespace) without "rainmeter" before it is kept whole: "Cool Theme" stays |
| `Details.DescriptionOf` | scraper/rainmeter_scraper.py:449-459 | a description paragraph that strips and cleans to non-empty text is the description; otherwise it is the cleaned meta description, or "" when there is none |
| `Details.FirstParenGroup` | scraper/rainmeter_scraper.py:476-479 | the size is present iff the button text has a '(' followed by one or more characters and a ')'; it is then the text between the leftmost such '(' and the first ')' after it, non-empty and without ')'; no '(' gives none |
| `Details.FirstParenGroupExample` | scraper/rainmeter_scraper.py:476-479 | "() (2 MB)" gives "2 MB": an empty pair of parentheses is skipped |
| `Details.VersionIn` | scraper/rainmeter_scraper.py:542-545 | a version is present iff the file name has digits, '.' or '_', digits; it is then read from the leftmost such match, the separator written as '.', up to the end of the second run of digits; it is digits, '.', digits; a name without '.' or '_' gives none |
| `Details.VersionInExample` | scraper/rainmeter_scraper.py:542-545 | "v2_10" gives "2.10" |
| `Details.UsableTags` | scraper/rainmeter_scraper.py:511-518 | every kept tag is stripped, longer than one character and does not start with '<' |
| `Details.TagsIgnoreBeyondTen` | scraper/rainmeter_scraper.py:520-521 | once ten usable tags are found, later tags do not change the tags field |
| `Details.TagsAllWhenFew` | scraper/rainmeter_scraper.py:520-521 | with at most ten usable tags, the tags field is all of them joined by ", " |
| `Details.DeveloperFromFirstRow` | scraper/rainmeter_scraper.py:481-493 | the developer is the cleaned link text, or else the cleaned text, of the first row labelled DEVELOPER |
| `Details.DeveloperDefault` | scraper/rainmeter_scraper.py:481-493 | with no DEVELOPER row the developer is "" |
| `Details.RatingRule` | scraper/rainmeter_scraper.py:495-500 | the rating is "" when absent or "not rated" (any case), and the cleaned text otherwise |
| `Details.LastUpdatedFromFirstRow` | scraper/rainmeter_scraper.py:502-509 | the date is the cleaned text of the first row whose label contains "date added", or "" |
| `Details.CategoryFromFirstCrumb` | scraper/rainmeter_scraper.py:523-531 | the category is the cleaned text of the first tag crumb that is not "rainmeter skins", or "" |
| `Details.InfoLoopVersion` | scraper/rainmeter_scraper.py:533-545 | the version is the one found in the last FILENAME row that has one |
| `Details.InfoLoopSize` | scraper/rainmeter_scraper.py:547-549 | with no size from the button, the size is the first FILE SIZE row's text |
| `Details.SkinRecordFileSize` | scraper/rainmeter_scraper.py:468-479 | the button's size wins; the info rows supply it only when the button gave none |
| `Details.SkinRecordVersion` | scraper/rainmeter_scraper.py:533-545 | the record's version is the last FILENAME version, or "" |
| `Details.AsRecordFields` | scraper/rainmeter_scraper.py:421-437 | a skin record has exactly the fifteen fields, content hash included |
| `Details.EmptyPageDefaults` | scraper/rainmeter_scraper.py:421-437 | a page with nothing on it gives every field "" except the URL, the time stamp and md5("") |
| `Details.ExtractedSkinCopies` | scraper/rainmeter_scraper.py:421-437 | the record keeps the URL and time stamp, leaves downloads "", and hashes name + developer + download URL |
| `Details.ExtractedSkinAscii` | scraper/rainmeter_scraper.py:441-531 | name, description, developer, rating, category and date are ASCII after extraction |
| `Details.SameIdentitySameHash` | scraper/rainmeter_scraper.py:551-555 | two pages with the same name, developer and download URL get the same content hash |
| `Details.HashInputAmbiguous` | scraper/rainmeter_scraper.py:551-555 | the hash input has no separator: name "ab" with developer "c" hashes like name "a" with developer "bc" |
| `Records.UniqueByHashSpec` | scraper/rainmeter_scraper.py:774-787 | de-duplication keeps the first record of every non-empty hash, in order, drops empty hashes, and loses no hash |
| `Records.UniqueByHashIdempotent` | scraper/rainmeter_scraper.py:774-787 | de-duplicating twice is the same as once |
| `Records.MapValues` | scraper/rainmeter_scraper.py:798-800 | every field is kept and every value is mapped |
| `Records.CleanRecordValues` | scraper/rainmeter_scraper.py:798-800 | a cleaned record has the same fields, each value cleaned and ASCII |
| `Records.CleanAllIsFilterThenClean` | scraper/rainmeter_scraper.py:789-806 | clean_data keeps the records with a name and a URL, in order, and cleans each |
| `Records.CleanAllAscii` | scraper/rainmeter_scraper.py:789-806 | every value left after clean_data is ASCII |
| `Records.CleanAllOfSettled` | scraper/rainmeter_scraper.py:789-806 | records that are complete and already clean come through unchanged |
| `Records.CleanAllIdempotentWhenNamesSurvive` | scraper/rainmeter_scraper.py:789-806 | on ASCII data whose cleaned records keep a name and a URL, a second clean_data changes nothing |
| `Records.CleanAllNotIdempotent` | scraper/rainmeter_scraper.py:789-806 | the filter tests the raw name, so a name of one space survives the first pass and is dropped by the second |
| `Records.CountWithIsFilter` | scraper/rainmeter_scraper.py:833-834 | counting records with a present value is the length of the filtered list |
| `Records.DistinctValuesMember` | scraper/rainmeter_scraper.py:831 | a value is among the distinct developers iff it is present and some record has it |
| `Records.DistinctValuesBound` | scraper/rainmeter_scraper.py:831 | there are never more distinct values than records that have one |
| `Records.StatsOf` | scraper/rainmeter_scraper.py:828-836 | the totals are the record and failure counts; developers are the distinct truthy values; downloads and thumbnails count the records with a truthy value |
| `App.GetData` | app.py:209-246 | the response shows the first 50 records and the total; the developer count is of distinct non-blank developers; the download and thumbnail counts are of records with a non-blank value; the categories are exactly the non-blank categories present |
| `App.DataCountsWithinScraperStats` | app.py:238-239 | the API's non-blank counts never exceed the scraper's truthy counts for the same records |
| `App.ParseInt` | app.py:268-269 | an absent argument gives the default, a number gives itself, and a non-number is an error |
| `App.ClampPage` | app.py:268 | the page is at least 1: a page below 1 becomes exactly 1, and a page of 1 or more is kept |
| `App.ClampPerPage` | app.py:269 | the page size is clamped to 10..50 |
| `App.Paginate` | app.py:300-312 | a page never holds more than the page size |
| `App.SearchData` | app.py:262-322 | the echoed page and page size are clamped, the page fits the page size, and a malformed number gives the all-empty error response |
| `App.SearchParamsClamped` | app.py:266-269 | the echoed page and page size are the clamped arguments |
| `App.SearchFilterRule` | app.py:279-298 | a record is kept iff the lowered, stripped query occurs in its joined name, description, tags and developer (or is empty) and the stripped category matches exactly (or is empty); the total is the number kept |
| `App.SearchIsPaginated` | app.py:262-312 | a search is the pagination of the kept records with the clamped arguments |
| `App.SearchInRange` | app.py:266-312 | in-range arguments are used as given |
| `App.SearchDataMatches` | app.py:279-312 | every record on the page matches the query and category |
| `App.SearchPageItem` | app.py:279-312 | the k-th record on page p is kept record (p−1)·size + k whenever that exists |
| `App.PageItemsFromList` | app.py:300-304 | every record on a page is one of the kept records |
| `App.PageCountIsCeiling` | app.py:301 | the page count is the ceiling of total / size, and zero only for no records |
| `App.PaginateSlice` | app.py:300-304 | the page is the slice from (p−1)·size of length size, cut at the end, and it is empty iff p is past the last page |
| `App.PaginateItem` | app.py:302-304 | the k-th record of a page is the kept record at (p−1)·size + k |
| `App.PageOfPosition` | app.py:302-303 | every kept position i is shown on page i / size + 1 at offset i mod size |
| `App.NoFilterKeepsAll` | app.py:279-298 | an empty query and category keep every record |
| `App.BlankSearchIsUnfiltered` | app.py:279-298 | a blank query and category give the first page of size 20 of all records |
| `App.FirstPageOfTwenty` | app.py:300-312 | page 1 of size 20 shows the first min(n, 20) records and counts all n |
| `App.BlankSearchShowsFirstTwenty` | app.py:262-312 | a blank search with no page arguments shows the first twenty records, page 1, size 20, total n |
| `Scraper.SeedUrls` | scraper/rainmeter_scraper.py:608-621 | seven seed URLs under the base, the home page first |
| `Scraper.AdmitSelectorHits` | scraper/rainmeter_scraper.py:261-286 | the selector loop keeps the first occurrence of each admitted, unseen URL and adds exactly those to the seen set |
| `Scraper.AdmitAnchors` | scraper/rainmeter_scraper.py:288-314 | the anchor loop continues the same selection over the anchors, with the same seen set |
| `Scraper.UniqueInOrder` | scraper/rainmeter_scraper.py:316-322 | the de-duplication loop keeps the first occurrence of each link, in order |
| `Scraper.PageLinks` | scraper/rainmeter_scraper.py:194-327 | the links read off a page are the sound and complete selection, and the seen set grows by exactly them |
| `Scraper.FetchPage` | scraper/rainmeter_scraper.py:67-89 | the retry loop has the effect the fetch rule describes |
| `Scraper.LinkWorker` | scraper/rainmeter_scraper.py:186-331 | a link worker fetches, then reads the page; a failed or raising fetch gives no links and leaves the seen set alone |
| `Scraper.LinkStepFresh` | scraper/rainmeter_scraper.py:186-331 | one worker's links are distinct, new to the seen set and added to it; failures and the seen set only grow; the other counters stay |
| `Scraper.LinkRunFresh` | scraper/rainmeter_scraper.py:283-284 | across the targets in order no URL is returned twice or was seen before the run, and the seen set and failures only grow |
| `Scraper.DiscoveryEnqueuesFreshLinks` | scraper/rainmeter_scraper.py:333-413 | the discovery run never enqueues a URL twice nor one seen before it started |
| `Scraper.LinkBatch` | scraper/rainmeter_scraper.py:351-355 | running the workers of one batch extends the run over those targets |
| `Scraper.PutLinks` | scraper/rainmeter_scraper.py:362-371 | a worker's links are put in order until the cap stops them |
| `Scraper.RunBatch` | scraper/rainmeter_scraper.py:357-377 | one batch puts exactly what the batch rule enqueues, and counts it |
| `Scraper.DiscoveryTargets` | scraper/rainmeter_scraper.py:335-340 | the 2347 generated URLs are appended to the seeds once only |
| `Scraper.DiscoveryRound` | scraper/rainmeter_scraper.py:351-404 | one pass of the batch loop enqueues that batch's share of the run and decides the stop rules as the run does |
| `Scraper.DiscoveryLoop` | scraper/rainmeter_scraper.py:342-408 | the loop enqueues exactly the discovery run, counts it, and leaves the link state as after the batches it visited |
| `Scraper.SkinDetails` | scraper/rainmeter_scraper.py:415-420 | a fetched page gives its skin record, a failed fetch none, a missing count raises |
| `Scraper.ScrapeOne` | scraper/rainmeter_scraper.py:567-578 | one dequeued URL adds its record and one to the scraped count, or else is recorded as failed |
| `Scraper.WorkerFromAccounts` | scraper/rainmeter_scraper.py:559-606 | over a worker's life, taken plus queue is the old queue plus arrivals; records, failures and counters are those of the taken URLs; one acknowledgement per dequeue; the exit reason matches the rule |
| `Scraper.ScrapeLoop` | scraper/rainmeter_scraper.py:564-605 | the worker loop computes the worker run |
| `Scraper.MonitorLoop` | scraper/rainmeter_scraper.py:670-728 | the monitor loop computes the monitor run and sets the start time on its first unfinished round |
| `Scraper.FirstByHash` | scraper/rainmeter_scraper.py:774-787 | the loop keeps the first record of every non-empty hash |
| `Scraper.CleanFields` | scraper/rainmeter_scraper.py:798-800 | every field of one record is cleaned |
| `Scraper.CleanList` | scraper/rainmeter_scraper.py:789-806 | the clean_data loop computes the filter-then-clean of the records |
| `Scraper.FailureAfterResetRaises` | scraper/rainmeter_scraper.py:629-636 | after the run's stats reset, a page that fails every attempt is appended to the failed list and then raises KeyError |
| `Scraper.FailureAfterFreshReset` | scraper/rainmeter_scraper.py:29-36 | with a reset that keeps `failed_count`, the same failure is recorded and counted |
| `Scraper.RainmeterScraper.constructor` | scraper/rainmeter_scraper.py:21-36 | empty data, seen set, failures and queue; zero counts with `failed_count` present |
| `Scraper.RainmeterScraper.GetPage` | scraper/rainmeter_scraper.py:67-89 | the fetch result and the failure record follow the fetch rule |
| `Scraper.RainmeterScraper.ExtractSkinLinks` | scraper/rainmeter_scraper.py:186-331 | a fetched listing yields the sound and complete link selection and adds it to the seen set; otherwise no links and the seen set is unchanged |
| `Scraper.RainmeterScraper.ExtractSkinDetails` | scraper/rainmeter_scraper.py:415-557 | a fetched skin page gives its record; a failure gives none; a missing count raises |
| `Scraper.RainmeterScraper.DiscoveryWorker` | scraper/rainmeter_scraper.py:333-413 | the queue grows by the discovery run's URLs, which are distinct and unseen before; seen set, failures and stats are those after the visited targets; the discovered count grows by what was enqueued and discovery is marked complete |
| `Scraper.RainmeterScraper.ScrapingWorker` | scraper/rainmeter_scraper.py:559-606 | taken plus queue is the old queue plus arrivals; data, failures and counts are those of the taken URLs; it exits on a drained queue only after discovery completed, on timeout after 20 empty polls |
| `Scraper.RainmeterScraper.Monitor` | scraper/rainmeter_scraper.py:663-728 | the monitor's rounds, end and restarts are the monitor run's, and the start time is set as the run sets it |
| `Scraper.RainmeterScraper.ResetForRun` | scraper/rainmeter_scraper.py:629-640 | the run starts with zero counts and no `failed_count`, no data and no seen URLs; the failed list is kept |
| `Scraper.RainmeterScraper.ResetForRunCorrected` | scraper/rainmeter_scraper.py:629-640 | the intended reset: zero counts with `failed_count`, and an empty failed list too |
| `Scraper.RainmeterScraper.RemoveDuplicates` | scraper/rainmeter_scraper.py:774-787 | the data becomes the first record per non-empty hash, and the removed count is the difference |
| `Scraper.RainmeterScraper.CleanData` | scraper/rainmeter_scraper.py:789-806 | the data becomes the filter-then-clean of the old data, and nothing is returned |
| `Scraper.RainmeterScraper.CleanDataCorrected` | scraper/rainmeter_scraper.py:789-806 | the same, returning the cleaned list, whose values are all ASCII |
| `Scraper.RainmeterScraper.RunDiscovery` | scraper/rainmeter_scraper.py:643-651 | the discovery thread appends to the queue exactly the discovery run over the seeds (and the generated URLs unless generated before), with link workers starting from the current seen set, failures and stats; those URLs are distinct and unseen before; the discovered count grows by as many; discovery completes |
| `Scraper.RainmeterScraper.RunWorkers` | scraper/rainmeter_scraper.py:643-728 | after discovery, scraping and monitoring, the URLs taken followed by those left queued are the old queue plus the discovery run's URLs; the data grows by the records of exactly the taken URLs and the scraped count by as many; discovery completes and failures are only appended |
| `Scraper.RainmeterScraper.ScrapeAllSkinsParallel` | scraper/rainmeter_scraper.py:623-762 | as written, the run discovers from an empty seen set but the previous failure list, leaves the cleaned records of exactly the taken URLs as the data, returns None and leaves `failed_count` absent |
| `Scraper.RainmeterScraper.ScrapeAllSkinsParallelCorrected` | scraper/rainmeter_scraper.py:623-762 | with the intended reset and clean_data, the run discovers from an empty seen set and failure list and returns the cleaned records of exactly the taken URLs, all ASCII, with `failed_count` present |

## Left out

- `Text.Lower`, `Text.Upper`: case mapping covers ASCII letters only. Python's `str.lower()` and `upper()` are Unicode: "É" lowers to "é", and "İ" lowers to two characters. The `re.IGNORECASE` at scraper/rainmeter_scraper.py:446 also matches "ı" and the Kelvin sign. The search filter (app.py:266, 290) and the skin-text tests inherit this.
- `Urls.Join`: modelled for a base that is an origin with a lower-case scheme and no path. It does not model dot-segment removal ("/a/../b"), the dropping of empty interior segments in relative references, the stripping of leading whitespace, tabs and newlines, or the ValueError that `urlsplit` raises on an unbalanced "[" or "]" in the network location of an absolute href; `Join` returns a URL for every reference. It keeps "//" inside absolute paths, as `urljoin` does, so "/best-rainmeter-skins//page/1/" is fetched as written, a URL distinct from "/best-rainmeter-skins/page/1/"; the two spellings do not collapse into one.
- `Records.Get`: a record is a map from field names to strings. Typed CSV values (numbers, NaN filled with '') are not modelled. With a numeric column, `.strip()` raises at app.py:236-239 and get_data returns its all-zero response (app.py:248-260); that path is not modelled. The non-string branch of clean_data (scraper/rainmeter_scraper.py:799) is dropped with it, and `str(field)` at app.py:289 is the identity.
- `App.ParseInt`: the query-string argument is given already classified as absent, a number or not a number; Python's `int()` parsing of the text is not modelled.
- `App.GetData`: reading the CSV, then the JSON file when the CSV gives nothing (app.py:213-231), is a parameter: the records are given. Exceptions from reading are not modelled.
- `Scraper.RainmeterScraper.RunWorkers`: one scraping worker runs after discovery has finished, on a scripted event sequence with no arrivals; the source runs min(max_workers, 12) workers concurrently with the discovery thread. Monitor restarts are counted, not performed; thread joins and their timeouts (scraper/rainmeter_scraper.py:730-750) are left out.
- `Scraper.RainmeterScraper.DiscoveryWorker`: the link workers of a batch run one after another in submission order; the source runs them on a pool of min(8, max_workers) threads and consumes results in completion order, so the order of enqueued URLs and which worker claims a URL shared between pages can differ.
- `Scraper.RainmeterScraper.CleanData`: the records are values, so clean_data's in-place update of the dictionaries (which also changes them for anyone else holding them) is not modelled.
- `Scraper.RainmeterScraper.Monitor`: what the monitor observes is a scripted list of snapshots; the two-second sleep and the clock are inputs.
- Time and randomness: `datetime.now()` is a string parameter, `time.time()` is the `now` of each snapshot, sleeps and the random user-agent rotation are left out.
- `md5` is a parameter of the skin site: hashing is not modelled.
- HTML parsing with BeautifulSoup is left out: a listing page is given as its selector hrefs and anchors, a skin page as the parsed elements the extractor reads.
- The network: each URL has a scripted sequence of attempt outcomes; the HTTP session, headers, timeouts and `raise_for_status` are left out.
- Logging, `save_to_csv`, `save_to_json`, `get_progress_stats` and `scrape_all_skins` (file output, a copy under a lock and a one-line wrapper) are not part of this model.
- The catch-all exception handlers at scraper/rainmeter_scraper.py:376-377, 744-745 and 760-762 (the last returning the data gathered so far) are left out: nothing modelled raises there. The KeyError from a missing `failed_count` is modelled where it is caught (329-331, 600-605).
- `Scraper.AdmitSelectorHits`, `Scraper.AdmitAnchors`, `Scraper.RainmeterScraper.ExtractSkinLinks`: the ValueError that `urljoin` raises on an unbalanced "[" or "]" in the host of an href is not modelled (see `Urls.Join`). In the selector loop it is caught at scraper/rainmeter_scraper.py:285-286 and skips the rest of that selector's hits. In the anchor loop it reaches 329-331, and the worker returns [] after `seen_urls` has already grown by the anchors admitted before it. The model admits every href.

## Findings

| source | as written | input that shows it | evidently intended | confidence | as-written member | corrected member |
|---|---|---|---|---|---|---|
| scraper/rainmeter_scraper.py:756-758 | `scrape_all_skins_parallel` returns the result of `clean_data`, which has no return statement, so the run always returns None | any run that reaches line 756 | return the cleaned list | not executed | `Scraper.RainmeterScraper.ScrapeAllSkinsParallel`, `Scraper.RainmeterScraper.CleanData` | `Scraper.RainmeterScraper.ScrapeAllSkinsParallelCorrected`, `Scraper.RainmeterScraper.CleanDataCorrected` |
| scraper/rainmeter_scraper.py:629-636 | the reset builds `processing_stats` without `failed_count`, so the first page that fails all attempts during the run raises KeyError at line 86 after appending to `failed_urls` | a run in which one URL fails three times | keep `failed_count` at 0 in the reset, so failures are counted | not executed | `Scraper.FailureAfterResetRaises`, `Scraper.RainmeterScraper.ResetForRun` | `Scraper.FailureAfterFreshReset`, `Scraper.RainmeterScraper.ResetForRunCorrected` |
| scraper/rainmeter_scraper.py:638-640 | the reset clears `scraped_data` and `seen_urls` but not `failed_urls`, so a second run reports the first run's failures in `get_stats` | two runs on one scraper where the first has a failed URL | clear `failed_urls` with the other per-run state | not executed | `Scraper.RainmeterScraper.ResetForRun` | `Scraper.RainmeterScraper.ResetForRunCorrected` |
