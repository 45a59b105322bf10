/**
 * The read-only endpoints of the web front end (app.py) over the list of
 * records loaded from the scraper's output: `get_data` shows the first 50
 * records with summary counts, and `search_data` filters by a query and a
 * category, clamps the paging parameters and returns one page.
 */
module App {
  import opened Wrappers
  import opened Seqs
  import opened Text
  import opened Details
  import opened Records

  /** The `.strip()` test both endpoints apply: something besides whitespace. */
  predicate Filled(v: string)
  {
    Strip(v) != ""
  }

  /** How many records `get_data` sends: `data[:50]`. */
  const ShownLimit: nat := 50

  /** The summary `get_data` computes; the category list is built from a
      set, so its order carries no meaning and it is kept as a set. */
  datatype DataStats = DataStats(
    totalSkins: nat, uniqueDevelopers: nat, withDownloads: nat, withThumbnails: nat, categories: set<string>)

  datatype DataResponse = DataResponse(data: seq<Record>, totalCount: nat, stats: DataStats)

  /** `get_data` over the records it loaded: the first 50 records, the
      total, and the counts over the records whose value is not blank. */
  function GetData(rs: seq<Record>): (r: DataResponse)
    ensures r.data <= rs
    ensures |r.data| == if |rs| < ShownLimit then |rs| else ShownLimit
    ensures r.totalCount == r.stats.totalSkins == |rs|
    ensures forall v :: (v in DistinctValues(rs, "developer", Filled)
                         <==> Filled(v) && exists i :: 0 <= i < |rs| && Get(rs[i], "developer") == v)
    ensures r.stats.uniqueDevelopers == |DistinctValues(rs, "developer", Filled)|
    ensures r.stats.uniqueDevelopers <= CountWith(rs, "developer", Filled) <= |rs|
    ensures r.stats.withDownloads == |Filter(rs, HasValue("download_url", Filled))|
    ensures r.stats.withThumbnails == |Filter(rs, HasValue("thumbnail_url", Filled))|
    ensures forall c :: (c in r.stats.categories
                         <==> Filled(c) && exists i :: 0 <= i < |rs| && Get(rs[i], "category") == c)
  {
    DistinctValuesBound(rs, "developer", Filled);
    CountWithIsFilter(rs, "download_url", Filled);
    CountWithIsFilter(rs, "thumbnail_url", Filled);
    forall v
      ensures v in DistinctValues(rs, "developer", Filled) <==> Filled(v) && exists i :: 0 <= i < |rs| && Get(rs[i], "developer") == v
      ensures v in DistinctValues(rs, "category", Filled) <==> Filled(v) && exists i :: 0 <= i < |rs| && Get(rs[i], "category") == v
    {
      DistinctValuesMember(rs, "developer", Filled, v);
      DistinctValuesMember(rs, "category", Filled, v);
    }
    var shown := if |rs| < ShownLimit then |rs| else ShownLimit;
    DataResponse(rs[..shown], |rs|,
      DataStats(|rs|, |DistinctValues(rs, "developer", Filled)|,
                CountWith(rs, "download_url", Filled), CountWith(rs, "thumbnail_url", Filled),
                DistinctValues(rs, "category", Filled)))
  }

  /** A weaker presence test counts no fewer records. */
  lemma {:induction false} CountWithMonotone(rs: seq<Record>, key: string, p: string -> bool, q: string -> bool)
    requires forall v :: p(v) ==> q(v)
    ensures CountWith(rs, key, p) <= CountWith(rs, key, q)
  {
    if rs != [] {
      CountWithMonotone(rs[..|rs| - 1], key, p, q);
    }
  }

  /** A blank-only value is never counted by `get_data`, but is by the
      truthiness test of `get_stats` when it is not empty: the front end's
      counts never exceed the scraper's own. */
  lemma DataCountsWithinScraperStats(rs: seq<Record>, failedUrls: seq<string>)
    ensures var d, s := GetData(rs).stats, StatsOf(rs, failedUrls);
      d.withDownloads <= s.withDownloads && d.withThumbnails <= s.withThumbnails
  {
    forall v | Filled(v)
      ensures Truthy(v)
    {
      assert |Strip(v)| <= |v|;
    }
    CountWithMonotone(rs, "download_url", Filled, Truthy);
    CountWithMonotone(rs, "thumbnail_url", Filled, Truthy);
  }

  /** `int(request.args.get(name, default))`: the argument is absent, an
      integer, or text `int` rejects (which raises). */
  datatype IntArg = Absent | Number(n: int) | NotANumber

  function ParseInt(arg: IntArg, default: int): (r: Option<int>)
    ensures arg.Absent? ==> r == Some(default)
    ensures arg.Number? ==> r == Some(arg.n)
    ensures arg.NotANumber? <==> r.None?
  {
    match arg
    case Absent => Some(default)
    case Number(n) => Some(n)
    case NotANumber => None
  }

  /** `max(1, page)`. */
  function ClampPage(p: int): (r: int)
    ensures r >= 1 && (p >= 1 ==> r == p)
    ensures p < 1 ==> r == 1
  {
    if p < 1 then 1 else p
  }

  /** `min(50, max(10, per_page))`. */
  function ClampPerPage(p: int): (r: int)
    ensures 10 <= r <= 50
    ensures 10 <= p <= 50 ==> r == p
    ensures p < 10 ==> r == 10
    ensures p > 50 ==> r == 50
  {
    if p < 10 then 10 else if p > 50 then 50 else p
  }

  /** `' '.join([name, description, tags, developer]).lower()`. */
  function SearchableText(x: Record): string
  {
    Lower(JoinWith([Get(x, "name"), Get(x, "description"), Get(x, "tags"), Get(x, "developer")], " "))
  }

  /** The two tests of the filter loop; an empty query or category skips its test. */
  predicate Matches(x: Record, query: string, category: string)
  {
    (query == "" || Contains(SearchableText(x), query))
    && (category == "" || Get(x, "category") == category)
  }

  /** `Matches` as the test handed to `Filter`. */
  function Matcher(query: string, category: string): Record -> bool
  {
    (x: Record) => Matches(x, query, category)
  }

  /** The records the filter loop appends, in order. */
  function Kept(rs: seq<Record>, query: string, category: string): seq<Record>
  {
    Filter(rs, Matcher(query, category))
  }

  /** `(n + per_page - 1) // per_page` on non-negative operands. */
  function PageCount(n: nat, perPage: nat): nat
    requires perPage > 0
  {
    (n + perPage - 1) / perPage
  }

  /** Python's `xs[lo:hi]` for 0 <= lo <= hi: both ends clamp to the length. */
  function Slice<T>(xs: seq<T>, lo: nat, hi: nat): (r: seq<T>)
    requires lo <= hi
  {
    var a := if lo < |xs| then lo else |xs|;
    var b := if hi < |xs| then hi else |xs|;
    xs[a..b]
  }

  datatype SearchResponse = SearchResponse(data: seq<Record>, totalCount: nat, page: int, perPage: int, totalPages: nat)

  /** What the `except` branch sends. */
  const SearchError: SearchResponse := SearchResponse([], 0, 1, 20, 0)

  /** `start_idx`: the position of the first record of a page. */
  function PageStart(page: int, perPage: int): (s: nat)
    requires page >= 1 && perPage >= 1
  {
    (page - 1) * perPage
  }

  /** The pagination step: page `page` of the kept records, `perPage` to a
      page, with their count and the number of pages. */
  function Paginate(kept: seq<Record>, page: int, perPage: int): (r: SearchResponse)
    requires page >= 1 && perPage >= 1
    ensures |r.data| <= perPage
  {
    var start := PageStart(page, perPage);
    SearchResponse(Slice(kept, start, start + perPage), |kept|, page, perPage, PageCount(|kept|, perPage))
  }

  /** `search_data` over the records it loaded: `q` and `category` are the
      raw request arguments ("" when absent). */
  function SearchData(q: string, category: string, pageArg: IntArg, perPageArg: IntArg, rs: seq<Record>): (r: SearchResponse)
    ensures r.page >= 1 && 10 <= r.perPage <= 50
    ensures |r.data| <= r.perPage
    ensures r == SearchError <== pageArg.NotANumber? || perPageArg.NotANumber?
  {
    var page, perPage := ParseInt(pageArg, 1), ParseInt(perPageArg, 20);
    if page.None? || perPage.None? then SearchError
    else Paginate(Kept(rs, Strip(Lower(q)), Strip(category)), ClampPage(page.value), ClampPerPage(perPage.value))
  }

  /** The request paging parameters once clamped. */
  lemma SearchParamsClamped(q: string, category: string, page: int, perPage: int, rs: seq<Record>)
    ensures var r := SearchData(q, category, Number(page), Number(perPage), rs);
      r.page == (if page < 1 then 1 else page)
      && r.perPage == (if perPage < 10 then 10 else if perPage > 50 then 50 else perPage)
  {
  }

  /** A record of the list is kept exactly when it passes both tests, with
      `query` the request's `q` lower-cased then stripped and `cat` its
      category stripped; the count is the number kept. */
  lemma SearchFilterRule(q: string, category: string, query: string, cat: string,
                         page: int, perPage: int, rs: seq<Record>, x: Record)
    requires query == Strip(Lower(q)) && cat == Strip(category)
    requires x in rs
    ensures x in Kept(rs, query, cat)
      <==> (query == "" || Contains(SearchableText(x), query)) && (cat == "" || Get(x, "category") == cat)
    ensures SearchData(q, category, Number(page), Number(perPage), rs).totalCount == |Kept(rs, query, cat)|
  {
    FilterMember(rs, Matcher(query, cat), x);
    assert Matcher(query, cat)(x) == Matches(x, query, cat);
    SearchIsPaginated(q, category, Number(page), Number(perPage), rs);
  }

  /** A search whose paging arguments parse is a page of the kept records. */
  lemma SearchIsPaginated(q: string, category: string, pageArg: IntArg, perPageArg: IntArg, rs: seq<Record>)
    requires !pageArg.NotANumber? && !perPageArg.NotANumber?
    ensures SearchData(q, category, pageArg, perPageArg, rs)
      == Paginate(Kept(rs, Strip(Lower(q)), Strip(category)),
                  ClampPage(ParseInt(pageArg, 1).value), ClampPerPage(ParseInt(perPageArg, 20).value))
  {
  }

  /** Every record on a page passes the filter. */
  lemma SearchDataMatches(q: string, category: string, query: string, cat: string,
                          page: int, perPage: int, rs: seq<Record>)
    requires query == Strip(Lower(q)) && cat == Strip(category)
    ensures var r := SearchData(q, category, Number(page), Number(perPage), rs);
      forall i :: 0 <= i < |r.data| ==> Matches(r.data[i], query, cat)
  {
    var kept := Kept(rs, query, cat);
    SearchIsPaginated(q, category, Number(page), Number(perPage), rs);
    var r := Paginate(kept, ClampPage(page), ClampPerPage(perPage));
    PageItemsFromList(kept, ClampPage(page), ClampPerPage(perPage));
    KeptMatch(rs, query, cat, r.data);
  }

  /** Records drawn from the kept list pass the filter. */
  lemma KeptMatch(rs: seq<Record>, query: string, cat: string, d: seq<Record>)
    requires forall i :: 0 <= i < |d| ==> d[i] in Kept(rs, query, cat)
    ensures forall i :: 0 <= i < |d| ==> Matches(d[i], query, cat)
  {
    var kept := Kept(rs, query, cat);
    forall i | 0 <= i < |d|
      ensures Matches(d[i], query, cat)
    {
      var j :| 0 <= j < |kept| && kept[j] == d[i];
      assert Matcher(query, cat)(kept[j]);
    }
  }

  /** Every record of a page is one of the listed records. */
  lemma PageItemsFromList(kept: seq<Record>, page: int, perPage: int)
    requires page >= 1 && perPage >= 1
    ensures var d := Paginate(kept, page, perPage).data;
      forall i :: 0 <= i < |d| ==> d[i] in kept
  {
    var start := PageStart(page, perPage);
    var d := Slice(kept, start, start + perPage);
    var a := if start < |kept| then start else |kept|;
    forall i | 0 <= i < |d|
      ensures d[i] in kept
    {
      assert kept[a + i] == d[i];
    }
  }

  /** The page count is the ceiling of count over page size: enough pages
      for every record and no page left empty; none when nothing matched. */
  lemma PageCountIsCeiling(n: nat, perPage: nat)
    requires perPage > 0
    ensures var t := PageCount(n, perPage);
      n <= t * perPage && (t > 0 ==> (t - 1) * perPage < n)
    ensures PageCount(n, perPage) == 0 <==> n == 0
  {
    var t := PageCount(n, perPage);
    var m := n + perPage - 1;
    assert m == t * perPage + m % perPage;
    if t > 0 {
      assert (t - 1) * perPage == t * perPage - perPage;
    }
  }

  /** `a <= b` gives `a * k <= b * k` for a non-negative `k`. */
  lemma MulMonotone(a: int, b: int, k: nat)
    requires a <= b
    ensures a * k <= b * k
  {
    assert b * k - a * k == (b - a) * k;
  }

  /** Page `p` holds records `(p-1)*per_page` up to `p*per_page`, and it is
      empty exactly when `p` is past the last page. */
  lemma PaginateSlice(kept: seq<Record>, page: int, perPage: int)
    requires page >= 1 && perPage >= 1
    ensures var r := Paginate(kept, page, perPage);
      var start := PageStart(page, perPage);
      (start <= |kept| ==> r.data == kept[start..if start + perPage < |kept| then start + perPage else |kept|])
      && (r.data == [] <==> page > r.totalPages)
  {
    var n, t := |kept|, PageCount(|kept|, perPage);
    PageCountIsCeiling(n, perPage);
    if page > t {
      MulMonotone(t, page - 1, perPage);
    } else {
      MulMonotone(page, t, perPage);
      assert (page - 1) * perPage <= (t - 1) * perPage;
    }
  }

  /** Item `k` of page `page` is record `(page - 1) * per_page + k`. */
  lemma PaginateItem(kept: seq<Record>, page: int, perPage: int, k: nat)
    requires page >= 1 && perPage >= 1 && k < perPage
    requires PageStart(page, perPage) + k < |kept|
    ensures var d := Paginate(kept, page, perPage).data;
      k < |d| && d[k] == kept[PageStart(page, perPage) + k]
  {
    PaginateSlice(kept, page, perPage);
  }

  /** Every position lies on a page: position `i` is item `i % per_page` of
      page `i / per_page + 1`. */
  lemma PageOfPosition(i: nat, perPage: int)
    requires perPage >= 1
    ensures i / perPage + 1 >= 1 && i % perPage < perPage
    ensures PageStart(i / perPage + 1, perPage) + i % perPage == i
  {
    assert i / perPage >= 0;
  }

  /** The search shows kept record `(page - 1) * per_page + k` as item `k`
      of page `page`. */
  lemma SearchPageItem(q: string, category: string, query: string, cat: string,
                       page: int, perPage: int, rs: seq<Record>, k: nat)
    requires query == Strip(Lower(q)) && cat == Strip(category)
    requires page >= 1 && 10 <= perPage <= 50 && k < perPage
    requires PageStart(page, perPage) + k < |Kept(rs, query, cat)|
    ensures var r := SearchData(q, category, Number(page), Number(perPage), rs);
      k < |r.data| && r.data[k] == Kept(rs, query, cat)[PageStart(page, perPage) + k]
  {
    SearchInRange(q, category, query, cat, page, perPage, rs);
    PaginateItem(Kept(rs, query, cat), page, perPage, k);
  }

  /** Paging arguments already in range are used as given. */
  lemma SearchInRange(q: string, category: string, query: string, cat: string,
                      page: int, perPage: int, rs: seq<Record>)
    requires query == Strip(Lower(q)) && cat == Strip(category)
    requires page >= 1 && 10 <= perPage <= 50
    ensures SearchData(q, category, Number(page), Number(perPage), rs) == Paginate(Kept(rs, query, cat), page, perPage)
  {
    SearchIsPaginated(q, category, Number(page), Number(perPage), rs);
  }

  /** With no query and no category every record is kept. */
  lemma NoFilterKeepsAll(rs: seq<Record>)
    ensures Kept(rs, "", "") == rs
  {
    FilterKeepsAll(rs, Matcher("", ""));
  }

  /** A search whose query and category are blank (absent, or whitespace
      only) and whose paging arguments are absent shows the first 20
      records. */
  lemma BlankSearchShowsFirstTwenty(q: string, category: string, rs: seq<Record>)
    requires Strip(Lower(q)) == "" && Strip(category) == ""
    ensures var r := SearchData(q, category, Absent, Absent, rs);
      r.page == 1 && r.perPage == 20 && r.totalCount == |rs|
      && r.data == rs[..if |rs| < 20 then |rs| else 20]
  {
    BlankSearchIsUnfiltered(q, category, rs);
    FirstPageOfTwenty(rs);
  }

  /** A blank query and category with absent paging arguments asks for the
      first page of 20 of the whole list. */
  lemma BlankSearchIsUnfiltered(q: string, category: string, rs: seq<Record>)
    requires Strip(Lower(q)) == "" && Strip(category) == ""
    ensures SearchData(q, category, Absent, Absent, rs) == Paginate(rs, 1, 20)
  {
    SearchIsPaginated(q, category, Absent, Absent, rs);
    NoFilterKeepsAll(rs);
  }

  /** The first page of 20 holds the first 20 records. */
  lemma FirstPageOfTwenty(rs: seq<Record>)
    ensures var r := Paginate(rs, 1, 20);
      r.page == 1 && r.perPage == 20 && r.totalCount == |rs|
      && r.data == rs[..if |rs| < 20 then |rs| else 20]
  {
    PaginateSlice(rs, 1, 20);
  }
}
