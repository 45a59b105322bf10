/**
 * `discover_comprehensive_urls` (scraper/rainmeter_scraper.py:99-184): a
 * fixed, deterministic list of listing pages built from four strategies.
 */
module Discovery {
  import opened Text
  import opened Urls

  /** Strategy 1: the category and collection paths, in source order. */
  const TagNamesBefore: seq<string> := [
    "themes", "weather", "clock", "visualizer", "launcher",
    "system-monitor", "cpu", "battery", "network", "hdd",
    "ram", "wifi",
    "time-and-date", "music", "calendar", "notes", "effects",
    "wallpaper", "volume", "recycle-bin", "search", "countdown",
    "currency", "e-mail",
    "minimalism", "anime", "steampunk", "fallout"
  ]

  const CollectionPaths: seq<string> := ["/best-rainmeter-skins/", "/rainmeter-equalizer/", "/rainmeter-docks/"]

  const TagNamesAfter: seq<string> := [
    "time", "date", "system", "monitoring", "desktop",
    "widgets", "skins", "windows"
  ]

  /** "/tag/{name}/" for each name. */
  function TagPaths(names: seq<string>): (r: seq<string>)
    ensures |r| == |names|
    ensures forall i :: 0 <= i < |r| ==> "/tag/" <= r[i]
  {
    seq(|names|, i requires 0 <= i < |names| => "/tag/" + names[i] + "/")
  }

  /** The 39 category paths, in the order the scraper lists them. */
  const Categories: seq<string> := TagPaths(TagNamesBefore) + CollectionPaths + TagPaths(TagNamesAfter)

  /** Pages per category and pages of the site root. */
  const CategoryPageLimit: nat := 50
  const RootPageLimit: nat := 100

  /** Characters probed by strategy 3. */
  const ProbeChars: string := "abcdefghijklmnopqrstuvwxyz0123456789"

  /** A path without "tag" in it also gets the "{category}/page/{n}/" spelling. */
  predicate IsTagPath(category: string)
  {
    Contains(category, "tag")
  }

  /** The entries strategy 2 adds for page `n` of `category`. */
  function PageEntries(category: string, n: nat): (r: seq<string>)
  {
    [category + "page/" + NatToString(n) + "/"]
    + (if IsTagPath(category) then [] else [category + "/page/" + NatToString(n) + "/"])
  }

  /** Pages 1..n of one category. */
  function CategoryPages(category: string, n: nat): (r: seq<string>)
  {
    if n == 0 then [] else CategoryPages(category, n - 1) + PageEntries(category, n)
  }

  /** Strategy 2 over a list of categories. */
  function Paginated(categories: seq<string>): (r: seq<string>)
  {
    if categories == [] then []
    else Paginated(categories[..|categories| - 1]) + CategoryPages(categories[|categories| - 1], CategoryPageLimit)
  }

  /** Strategy 3: three probes per character. */
  function Probes(chars: string): (r: seq<string>)
  {
    if chars == [] then []
    else
      var c := chars[|chars| - 1];
      Probes(chars[..|chars| - 1]) + ["/search/?q=" + [c], "/tag/" + [c] + "/", "/?s=" + [c]]
  }

  /** Strategy 4: pages 1..n of the site root. */
  function RootPages(n: nat): (r: seq<string>)
  {
    if n == 0 then [] else RootPages(n - 1) + ["/page/" + NatToString(n) + "/"]
  }

  /** All relative paths, in the order the four strategies are concatenated. */
  function DiscoveryPaths(): seq<string>
  {
    Categories + Paginated(Categories) + Probes(ProbeChars) + RootPages(RootPageLimit)
  }

  /** The full list returned by `discover_comprehensive_urls`: every path joined to the base. */
  function DiscoverComprehensiveUrls(base: string): (r: seq<string>)
    ensures |r| == |DiscoveryPaths()|
    ensures forall i :: 0 <= i < |r| ==> r[i] == Join(base, DiscoveryPaths()[i])
  {
    var paths := DiscoveryPaths();
    seq(|paths|, i requires 0 <= i < |paths| => Join(base, paths[i]))
  }

  /** Every "/tag/..." path contains "tag". */
  lemma TagPrefixIsTagPath(c: string)
    requires "/tag/" <= c
    ensures IsTagPath(c)
  {
    assert "tag" <= c[1..];
  }

  /** The three collection pages are the categories without "tag". */
  lemma BestSkinsIsNotTagPath()
    ensures !IsTagPath(CollectionPaths[0])
  {
    NotContainsMissingChar(CollectionPaths[0], "tag", 2);
  }

  lemma EqualizerIsNotTagPath()
    ensures !IsTagPath(CollectionPaths[1])
  {
    NotContainsMissingChar(CollectionPaths[1], "tag", 2);
  }

  lemma DocksIsNotTagPath()
    ensures !IsTagPath(CollectionPaths[2])
  {
    NotContainsMissingChar(CollectionPaths[2], "tag", 2);
  }

  lemma CollectionsNonTagCount()
    ensures NonTagCount(CollectionPaths) == 3
  {
    BestSkinsIsNotTagPath();
    EqualizerIsNotTagPath();
    DocksIsNotTagPath();
    var c := CollectionPaths;
    assert c[..2][..1] == [c[0]];
    assert [c[0]][..0] == [];
  }

  /** Number of categories without "tag". */
  function NonTagCount(categories: seq<string>): (k: nat)
    ensures k <= |categories|
  {
    if categories == [] then 0
    else NonTagCount(categories[..|categories| - 1]) + (if IsTagPath(categories[|categories| - 1]) then 0 else 1)
  }

  lemma {:induction false} NonTagCountAppend(a: seq<string>, b: seq<string>)
    ensures NonTagCount(a + b) == NonTagCount(a) + NonTagCount(b)
    decreases |b|
  {
    if b != [] {
      assert (a + b)[..|a + b| - 1] == a + b[..|b| - 1];
      assert (a + b)[|a + b| - 1] == b[|b| - 1];
      NonTagCountAppend(a, b[..|b| - 1]);
    } else {
      assert a + b == a;
    }
  }

  lemma {:induction false} NonTagCountOfTags(cs: seq<string>)
    requires forall i :: 0 <= i < |cs| ==> "/tag/" <= cs[i]
    ensures NonTagCount(cs) == 0
  {
    if cs != [] {
      NonTagCountOfTags(cs[..|cs| - 1]);
      TagPrefixIsTagPath(cs[|cs| - 1]);
    }
  }

  /** Exactly three categories lack "tag". */
  lemma NonTagCategories()
    ensures NonTagCount(Categories) == 3
  {
    var a, c := TagPaths(TagNamesBefore), TagPaths(TagNamesAfter);
    NonTagCountOfTags(a);
    NonTagCountOfTags(c);
    CollectionsNonTagCount();
    NonTagCountAppend(a, CollectionPaths);
    NonTagCountAppend(a + CollectionPaths, c);
  }

  /** A tag category gets one entry per page, any other two. */
  lemma {:induction false} CategoryPagesLength(category: string, n: nat)
    ensures |CategoryPages(category, n)| == if IsTagPath(category) then n else 2 * n
  {
    if n > 0 {
      CategoryPagesLength(category, n - 1);
    }
  }

  lemma {:induction false} PaginatedLength(categories: seq<string>)
    ensures |Paginated(categories)| == CategoryPageLimit * |categories| + CategoryPageLimit * NonTagCount(categories)
  {
    if categories != [] {
      PaginatedLength(categories[..|categories| - 1]);
      CategoryPagesLength(categories[|categories| - 1], CategoryPageLimit);
    }
  }

  lemma {:induction false} ProbesLength(chars: string)
    ensures |Probes(chars)| == 3 * |chars|
  {
    if chars != [] {
      ProbesLength(chars[..|chars| - 1]);
    }
  }

  lemma {:induction false} RootPagesLength(n: nat)
    ensures |RootPages(n)| == n
  {
    if n > 0 {
      RootPagesLength(n - 1);
    }
  }

  /** 39 categories + 39·50 + 3·50 pages + 36·3 probes + 100 root pages = 2347 URLs. */
  lemma DiscoveryCount(base: string)
    ensures |DiscoverComprehensiveUrls(base)| == 2347
  {
    NonTagCategories();
    PaginatedLength(Categories);
    ProbesLength(ProbeChars);
    RootPagesLength(RootPageLimit);
  }

  /** Cancelling a common prefix and suffix. */
  lemma FramedEqual(p: string, x: string, y: string, q: string)
    requires p + x + q == p + y + q
    ensures x == y
  {
    assert |x| == |y|;
    assert x == (p + x + q)[|p|..|p| + |x|];
    assert y == (p + y + q)[|p|..|p| + |y|];
  }

  /** Root page `k` is listed iff 1 <= k <= n. */
  lemma {:induction false} RootPagesMembers(n: nat, k: nat)
    ensures "/page/" + NatToString(k) + "/" in RootPages(n) <==> 1 <= k <= n
  {
    if n > 0 {
      RootPagesMembers(n - 1, k);
      var e := "/page/" + NatToString(n) + "/";
      if "/page/" + NatToString(k) + "/" == e {
        FramedEqual("/page/", NatToString(k), NatToString(n), "/");
        NatToStringInjective(k, n);
      }
    }
  }

  /** Page `k` of one category, in the spelling every category gets. */
  function PagePath(category: string, k: nat): string
  {
    category + "page/" + NatToString(k) + "/"
  }

  /** Page `k` in the spelling only categories without "tag" get. */
  function VariantPagePath(category: string, k: nat): string
  {
    category + "/page/" + NatToString(k) + "/"
  }

  /** Strategy 2 lists pages 1..n of a category and no other page of it. */
  lemma {:induction false} CategoryPagesMembers(category: string, n: nat, k: nat)
    ensures PagePath(category, k) in CategoryPages(category, n) <==> 1 <= k <= n
    ensures VariantPagePath(category, k) in CategoryPages(category, n) <==> 1 <= k <= n && !IsTagPath(category)
  {
    if n > 0 {
      CategoryPagesMembers(category, n - 1, k);
      var p, v := PagePath(category, k), VariantPagePath(category, k);
      assert PageEntries(category, n) == [PagePath(category, n)] + (if IsTagPath(category) then [] else [VariantPagePath(category, n)]);
      if p == PagePath(category, n) {
        FramedEqual(category + "page/", NatToString(k), NatToString(n), "/");
        NatToStringInjective(k, n);
      }
      if v == VariantPagePath(category, n) {
        FramedEqual(category + "/page/", NatToString(k), NatToString(n), "/");
        NatToStringInjective(k, n);
      }
      assert p != VariantPagePath(category, n) by {
        assert p[|category|] == 'p';
        assert VariantPagePath(category, n)[|category|] == '/';
      }
      assert v != PagePath(category, n) by {
        assert v[|category|] == '/';
        assert PagePath(category, n)[|category|] == 'p';
      }
    }
  }

  /** A path that ends in "/51/": page 51, in any spelling. */
  predicate EndsInPage51(e: string)
  {
    |e| >= 4 && e[|e| - 4..] == "/51/"
  }

  /** A page number written after a '/' ends in "/51/" only when it is 51. */
  lemma DigitsPage51(x: string, d: string)
    requires x != [] && x[|x| - 1] == '/'
    requires d != [] && forall i :: 0 <= i < |d| ==> IsDigit(d[i])
    requires EndsInPage51(x + d + "/")
    ensures d == "51"
  {
    var e := x + d + "/";
    assert e[|e| - 4..][0] == '/' && e[|e| - 4..][1] == '5' && e[|e| - 4..][2] == '1';
    if |d| == 2 {
      assert d[0] == e[|e| - 3] && d[1] == e[|e| - 2];
    }
  }

  /** `str(51)`. */
  lemma NatToString51()
    ensures NatToString(51) == "51"
  {
    assert NatToString(5) == "5";
  }

  /** A name that ends in a lower-case letter. */
  predicate EndsInLetter(name: string)
  {
    name != [] && 'a' <= name[|name| - 1] <= 'z'
  }

  /** Every tag name ends in a letter. */
  lemma TagNamesEndInLetters()
    ensures forall i :: 0 <= i < |TagNamesBefore| ==> EndsInLetter(TagNamesBefore[i])
    ensures forall i :: 0 <= i < |TagNamesAfter| ==> EndsInLetter(TagNamesAfter[i])
  {
  }

  /** A tag path for a name that ends in a letter is no page. */
  lemma {:induction false} TagPathsNotPage51(names: seq<string>)
    requires forall i :: 0 <= i < |names| ==> EndsInLetter(names[i])
    ensures forall i :: 0 <= i < |TagPaths(names)| ==> !EndsInPage51(TagPaths(names)[i])
  {
    forall i | 0 <= i < |names|
      ensures !EndsInPage51(TagPaths(names)[i])
    {
      var e := TagPaths(names)[i];
      assert e == "/tag/" + names[i] + "/";
      assert e[|e| - 2] == names[i][|names[i]| - 1];
    }
  }

  /** Strategy 1 lists no page. */
  lemma CategoriesNotPage51()
    ensures forall i :: 0 <= i < |Categories| ==> !EndsInPage51(Categories[i])
  {
    TagNamesEndInLetters();
    TagPathsNotPage51(TagNamesBefore);
    TagPathsNotPage51(TagNamesAfter);
    var a, c := TagPaths(TagNamesBefore), TagPaths(TagNamesAfter);
    assert Categories == a + CollectionPaths + c;
    assert forall i :: 0 <= i < |CollectionPaths| ==> !EndsInPage51(CollectionPaths[i]);
  }

  /** Pages 1..n of a category, n at most 50, hold no page 51 in either spelling. */
  lemma {:induction false} CategoryPagesNotPage51(category: string, n: nat)
    requires n <= CategoryPageLimit
    ensures forall e :: e in CategoryPages(category, n) ==> !EndsInPage51(e)
  {
    if n > 0 {
      CategoryPagesNotPage51(category, n - 1);
      var d := NatToString(n);
      NatToString51();
      forall e | e in PageEntries(category, n)
        ensures !EndsInPage51(e)
      {
        if EndsInPage51(e) {
          if e == PagePath(category, n) {
            DigitsPage51(category + "page/", d);
          } else {
            assert e == VariantPagePath(category, n);
            DigitsPage51(category + "/page/", d);
          }
          NatToStringInjective(n, 51);
        }
      }
    }
  }

  /** Strategy 2 lists no page 51. */
  lemma {:induction false} PaginatedNotPage51(categories: seq<string>)
    ensures forall e :: e in Paginated(categories) ==> !EndsInPage51(e)
  {
    if categories != [] {
      PaginatedNotPage51(categories[..|categories| - 1]);
      CategoryPagesNotPage51(categories[|categories| - 1], CategoryPageLimit);
    }
  }

  /** Strategy 3 lists no page when no probed character is '/'. */
  lemma {:induction false} ProbesNotPage51(chars: string)
    requires forall i :: 0 <= i < |chars| ==> chars[i] != '/'
    ensures forall e :: e in Probes(chars) ==> !EndsInPage51(e)
  {
    if chars != [] {
      ProbesNotPage51(chars[..|chars| - 1]);
      var c := chars[|chars| - 1];
      var q, t, r := "/search/?q=" + [c], "/tag/" + [c] + "/", "/?s=" + [c];
      assert q[|q| - 1] == c && r[|r| - 1] == c && t[|t| - 4] == 'g';
      assert Probes(chars) == Probes(chars[..|chars| - 1]) + [q, t, r];
    }
  }

  /** Of the root pages, only "/page/51/" ends in "/51/". */
  lemma {:induction false} RootPagesPage51(n: nat)
    ensures forall e :: e in RootPages(n) && EndsInPage51(e) ==> e == "/page/51/"
  {
    if n > 0 {
      RootPagesPage51(n - 1);
      var e := "/page/" + NatToString(n) + "/";
      if EndsInPage51(e) {
        DigitsPage51("/page/", NatToString(n));
      }
    }
  }

  /** The only discovered path that is a page 51 is the site root's: the
      category pages stop at 50. */
  lemma OnlyRootPage51(e: string)
    requires e in DiscoveryPaths() && EndsInPage51(e)
    ensures e == "/page/51/"
  {
    CategoriesNotPage51();
    PaginatedNotPage51(Categories);
    ProbeCharsHaveNoSlash();
    ProbesNotPage51(ProbeChars);
    RootPagesPage51(RootPageLimit);
  }

  lemma ProbeCharsHaveNoSlash()
    ensures forall i :: 0 <= i < |ProbeChars| ==> ProbeChars[i] != '/'
  {
    assert forall i :: 0 <= i < |ProbeChars| ==> ProbeChars[i] != '/';
  }

  /** No listed category has a page 51 among the discovered paths, in either spelling. */
  lemma NoCategoryPage51(category: string)
    requires category in Categories
    ensures PagePath(category, 51) !in DiscoveryPaths()
    ensures VariantPagePath(category, 51) !in DiscoveryPaths()
  {
    CategoriesRooted();
    NatToString51();
    var p, v := PagePath(category, 51), VariantPagePath(category, 51);
    assert p[|p| - 4..] == "/51/" && v[|v| - 4..] == "/51/";
    if p in DiscoveryPaths() {
      OnlyRootPage51(p);
    }
    if v in DiscoveryPaths() {
      OnlyRootPage51(v);
    }
  }

  /** Every page of every listed category ends up in strategy 2's output. */
  lemma {:induction false} PaginatedContains(categories: seq<string>, j: nat, e: string)
    requires j < |categories|
    requires e in CategoryPages(categories[j], CategoryPageLimit)
    ensures e in Paginated(categories)
  {
    if j < |categories| - 1 {
      PaginatedContains(categories[..|categories| - 1], j, e);
    }
  }

  /** An absolute path that does not start with "//" and whose second character is not 'p'. */
  predicate RootedNotPage(e: string)
  {
    |e| >= 2 && e[0] == '/' && e[1] != '/' && e[1] != 'p'
  }

  lemma CategoriesRooted()
    ensures forall i :: 0 <= i < |Categories| ==> RootedNotPage(Categories[i])
  {
    var a, c := TagPaths(TagNamesBefore), TagPaths(TagNamesAfter);
    assert Categories == a + CollectionPaths + c;
    assert forall i :: 0 <= i < |CollectionPaths| ==> RootedNotPage(CollectionPaths[i]);
    assert forall i :: 0 <= i < |a| ==> a[i][..5] == "/tag/";
    assert forall i :: 0 <= i < |c| ==> c[i][..5] == "/tag/";
  }

  lemma {:induction false} CategoryPagesRooted(category: string, n: nat)
    requires RootedNotPage(category)
    ensures forall i :: 0 <= i < |CategoryPages(category, n)| ==> RootedNotPage(CategoryPages(category, n)[i])
  {
    if n > 0 {
      CategoryPagesRooted(category, n - 1);
    }
  }

  lemma {:induction false} PaginatedRooted(categories: seq<string>)
    requires forall i :: 0 <= i < |categories| ==> RootedNotPage(categories[i])
    ensures forall i :: 0 <= i < |Paginated(categories)| ==> RootedNotPage(Paginated(categories)[i])
  {
    if categories != [] {
      PaginatedRooted(categories[..|categories| - 1]);
      CategoryPagesRooted(categories[|categories| - 1], CategoryPageLimit);
    }
  }

  lemma {:induction false} ProbesRooted(chars: string)
    ensures forall i :: 0 <= i < |Probes(chars)| ==> RootedNotPage(Probes(chars)[i])
  {
    if chars != [] {
      ProbesRooted(chars[..|chars| - 1]);
    }
  }

  lemma {:induction false} RootPagesStartWithPage(n: nat)
    ensures forall i :: 0 <= i < |RootPages(n)| ==> |RootPages(n)[i]| >= 2 && RootPages(n)[i][..2] == "/p"
  {
    if n > 0 {
      RootPagesStartWithPage(n - 1);
    }
  }

  /** Strategies 1-3 never produce a root page, so root page 101 is absent and root page k is present for 1 <= k <= 100. */
  lemma RootPageListed(k: nat)
    ensures "/page/" + NatToString(k) + "/" in DiscoveryPaths() <==> 1 <= k <= RootPageLimit
  {
    var e := "/page/" + NatToString(k) + "/";
    CategoriesRooted();
    PaginatedRooted(Categories);
    ProbesRooted(ProbeChars);
    RootPagesMembers(RootPageLimit, k);
    assert e[1] == 'p';
    OnlyLastHasPages(Categories, Paginated(Categories), Probes(ProbeChars), RootPages(RootPageLimit), e);
  }

  /** A path whose second character is 'p' can only come from the last of four lists when the others hold no such path. */
  lemma OnlyLastHasPages(a: seq<string>, b: seq<string>, c: seq<string>, d: seq<string>, e: string)
    requires forall i :: 0 <= i < |a| ==> RootedNotPage(a[i])
    requires forall i :: 0 <= i < |b| ==> RootedNotPage(b[i])
    requires forall i :: 0 <= i < |c| ==> RootedNotPage(c[i])
    requires |e| >= 2 && e[1] == 'p'
    ensures e in a + b + c + d <==> e in d
  {
    var head := a + b + c;
    forall j | 0 <= j < |head|
      ensures RootedNotPage(head[j])
    {
      if j < |a| {
        assert head[j] == a[j];
      } else if j < |a + b| {
        assert head[j] == b[j - |a|];
      } else {
        assert head[j] == c[j - |a + b|];
      }
    }
    assert e !in head;
  }

  /** Three lists of rooted non-page paths followed by a list of "/p..." paths all start with one '/'. */
  lemma SingleSlashAll(a: seq<string>, b: seq<string>, c: seq<string>, d: seq<string>)
    requires forall i :: 0 <= i < |a| ==> RootedNotPage(a[i])
    requires forall i :: 0 <= i < |b| ==> RootedNotPage(b[i])
    requires forall i :: 0 <= i < |c| ==> RootedNotPage(c[i])
    requires forall i :: 0 <= i < |d| ==> |d[i]| >= 2 && d[i][..2] == "/p"
    ensures forall i :: 0 <= i < |a + b + c + d| ==> SingleSlash((a + b + c + d)[i])
  {
    forall i | 0 <= i < |a + b + c + d|
      ensures SingleSlash((a + b + c + d)[i])
    {
      if i >= |a + b + c| {
        var e := d[i - |a + b + c|];
        assert e[..2][0] == '/' && e[..2][1] == 'p';
      }
    }
  }

  /** No tag name holds a ';', '?' or '#'. */
  lemma TagNamesPlain()
    ensures forall i :: 0 <= i < |TagNamesBefore| ==> Plain(TagNamesBefore[i])
    ensures forall i :: 0 <= i < |TagNamesAfter| ==> Plain(TagNamesAfter[i])
  {
    TagNamesBeforePlainLow();
    TagNamesBeforePlainHigh();
  }

  lemma TagNamesBeforePlainLow()
    ensures forall i :: 0 <= i < 14 ==> Plain(TagNamesBefore[i])
  {
    assert forall i :: 0 <= i < 7 ==> Plain(TagNamesBefore[i]);
  }

  lemma TagNamesBeforePlainHigh()
    ensures forall i :: 14 <= i < 28 ==> Plain(TagNamesBefore[i])
  {
    assert forall i :: 14 <= i < 21 ==> Plain(TagNamesBefore[i]);
  }

  /** Tag paths of plain names are plain. */
  lemma TagPathsPlain(names: seq<string>)
    requires forall i :: 0 <= i < |names| ==> Plain(names[i])
    ensures forall i :: 0 <= i < |TagPaths(names)| ==> Plain(TagPaths(names)[i])
  {
    forall i | 0 <= i < |names|
      ensures Plain(TagPaths(names)[i])
    {
      var e := TagPaths(names)[i];
      assert e == "/tag/" + names[i] + "/";
      forall k | 0 <= k < |e|
        ensures !IsMarker(e[k])
      {
        if 5 <= k < 5 + |names[i]| {
          assert e[k] == names[i][k - 5];
        }
      }
    }
  }

  /** Strategy 1 lists plain paths. */
  lemma CategoriesPlain()
    ensures forall i :: 0 <= i < |Categories| ==> Plain(Categories[i])
  {
    TagNamesPlain();
    TagPathsPlain(TagNamesBefore);
    TagPathsPlain(TagNamesAfter);
    var a, c := TagPaths(TagNamesBefore), TagPaths(TagNamesAfter);
    assert Categories == a + CollectionPaths + c;
    assert Plain(CollectionPaths[0]) && Plain(CollectionPaths[1]) && Plain(CollectionPaths[2]);
  }

  /** A plain text followed by a page number and a '/' is plain. */
  lemma PagedPlain(x: string, n: nat)
    requires Plain(x)
    ensures Plain(x + NatToString(n) + "/")
  {
    var d := NatToString(n);
    var e := x + d + "/";
    forall k | 0 <= k < |e|
      ensures !IsMarker(e[k])
    {
      if k < |x| {
        assert e[k] == x[k];
      } else if k < |x| + |d| {
        assert e[k] == d[k - |x|];
      }
    }
  }

  /** Both spellings of every page of a plain category are plain. */
  lemma {:induction false} CategoryPagesPlain(category: string, n: nat)
    requires Plain(category)
    ensures forall e :: e in CategoryPages(category, n) ==> Plain(e)
  {
    if n > 0 {
      CategoryPagesPlain(category, n - 1);
      assert Plain(category + "page/") && Plain(category + "/page/");
      PagedPlain(category + "page/", n);
      PagedPlain(category + "/page/", n);
      assert PagePath(category, n) == category + "page/" + NatToString(n) + "/";
    }
  }

  /** Strategy 2 over plain categories lists plain paths. */
  lemma {:induction false} PaginatedPlain(categories: seq<string>)
    requires forall i :: 0 <= i < |categories| ==> Plain(categories[i])
    ensures forall e :: e in Paginated(categories) ==> Plain(e)
  {
    if categories != [] {
      PaginatedPlain(categories[..|categories| - 1]);
      CategoryPagesPlain(categories[|categories| - 1], CategoryPageLimit);
    }
  }

  /** The root pages are plain. */
  lemma {:induction false} RootPagesPlain(n: nat)
    ensures forall e :: e in RootPages(n) ==> Plain(e)
  {
    if n > 0 {
      RootPagesPlain(n - 1);
      PagedPlain("/page/", n);
    }
  }

  /** The search probe of a character that is no marker is written back unchanged. */
  lemma SearchProbeWrittenBack(c: char)
    requires !IsMarker(c)
    ensures Normalize("/search/?q=" + [c]) == "/search/?q=" + [c]
  {
    var e, y := "/search/?q=" + [c], "q=" + [c];
    assert Plain("/search/") && Plain(y);
    NormalizeQuery("/search/", y);
    assert e == "/search/" + "?" + y by {
      assert |e| == 12 && e[8] == '?' && e[11] == c;
      assert e[..8] == "/search/" && e[9..] == y;
    }
  }

  /** So is its tag probe. */
  lemma TagProbeWrittenBack(c: char)
    requires !IsMarker(c)
    ensures Normalize("/tag/" + [c] + "/") == "/tag/" + [c] + "/"
  {
    assert Plain("/tag/" + [c] + "/");
    NormalizePlain("/tag/" + [c] + "/");
  }

  /** And its "?s=" probe. */
  lemma SiteSearchProbeWrittenBack(c: char)
    requires !IsMarker(c)
    ensures Normalize("/?s=" + [c]) == "/?s=" + [c]
  {
    var e, y := "/?s=" + [c], "s=" + [c];
    assert Plain("/") && Plain(y);
    NormalizeQuery("/", y);
    assert e == "/" + "?" + y by {
      assert |e| == 5 && e[0] == '/' && e[1] == '?' && e[2] == 's' && e[3] == '=' && e[4] == c;
    }
  }

  /** The probes are written back unchanged: their queries are not empty. */
  lemma {:induction false} ProbesWrittenBack(chars: string)
    requires Plain(chars)
    ensures forall e :: e in Probes(chars) ==> Normalize(e) == e
  {
    if chars != [] {
      ProbesWrittenBack(chars[..|chars| - 1]);
      var c := chars[|chars| - 1];
      assert !IsMarker(c);
      var triple := ["/search/?q=" + [c], "/tag/" + [c] + "/", "/?s=" + [c]];
      assert Probes(chars) == Probes(chars[..|chars| - 1]) + triple;
      forall e | e in triple
        ensures Normalize(e) == e
      {
        if e == triple[0] {
          SearchProbeWrittenBack(c);
        } else if e == triple[1] {
          TagProbeWrittenBack(c);
        } else {
          SiteSearchProbeWrittenBack(c);
        }
      }
    }
  }

  /** Every generated path is written back by `urljoin` exactly as it was generated. */
  lemma DiscoveryPathsWrittenBack()
    ensures forall e :: e in DiscoveryPaths() ==> Normalize(e) == e
  {
    CategoriesPlain();
    PaginatedPlain(Categories);
    assert Plain(ProbeChars);
    ProbesWrittenBack(ProbeChars);
    RootPagesPlain(RootPageLimit);
    forall e | e in DiscoveryPaths() && Plain(e)
      ensures Normalize(e) == e
    {
      NormalizePlain(e);
    }
  }

  /** Paths that start with one '/' and are written back unchanged are joined to the base by concatenation. */
  lemma JoinedByConcatenation(base: string, paths: seq<string>)
    requires forall i :: 0 <= i < |paths| ==> SingleSlash(paths[i]) && Normalize(paths[i]) == paths[i]
    ensures forall i :: 0 <= i < |paths| ==> Join(base, paths[i]) == base + paths[i]
  {
    forall i | 0 <= i < |paths|
      ensures Join(base, paths[i]) == base + paths[i]
    {
      JoinAbsolutePath(base, paths[i]);
    }
  }

  /** Every discovered path is joined by plain concatenation, so the two spellings of a collection page stay two URLs. */
  lemma DiscoveredUrlsAreConcatenations(base: string)
    ensures forall i :: 0 <= i < |DiscoverComprehensiveUrls(base)| ==> DiscoverComprehensiveUrls(base)[i] == base + DiscoveryPaths()[i]
  {
    CategoriesRooted();
    PaginatedRooted(Categories);
    ProbesRooted(ProbeChars);
    RootPagesStartWithPage(RootPageLimit);
    SingleSlashAll(Categories, Paginated(Categories), Probes(ProbeChars), RootPages(RootPageLimit));
    DiscoveryPathsWrittenBack();
    JoinedByConcatenation(base, DiscoveryPaths());
  }

  /** Every discovered path, joined to the base, is a discovered URL. */
  lemma DiscoveredUrl(base: string, e: string)
    requires e in DiscoveryPaths()
    ensures base + e in DiscoverComprehensiveUrls(base)
  {
    DiscoveredUrlsAreConcatenations(base);
    var paths := DiscoveryPaths();
    var i :| 0 <= i < |paths| && paths[i] == e;
    assert DiscoverComprehensiveUrls(base)[i] == base + e;
  }

  lemma CollectionIsNotTagPath(j: nat)
    requires j < |CollectionPaths|
    ensures !IsTagPath(CollectionPaths[j])
  {
    if j == 0 {
      BestSkinsIsNotTagPath();
    } else if j == 1 {
      EqualizerIsNotTagPath();
    } else {
      DocksIsNotTagPath();
    }
  }

  lemma CollectionIsCategory(j: nat)
    requires j < |CollectionPaths|
    ensures |TagNamesBefore| + j < |Categories|
    ensures Categories[|TagNamesBefore| + j] == CollectionPaths[j]
  {
  }

  lemma InSecondOfFour(a: seq<string>, b: seq<string>, c: seq<string>, d: seq<string>, e: string)
    requires e in b
    ensures e in a + b + c + d
  {
    var i :| 0 <= i < |b| && b[i] == e;
    assert (a + b + c + d)[|a| + i] == e;
  }

  lemma PaginatedIsDiscovered(e: string)
    requires e in Paginated(Categories)
    ensures e in DiscoveryPaths()
  {
    InSecondOfFour(Categories, Paginated(Categories), Probes(ProbeChars), RootPages(RootPageLimit), e);
  }

  /** Both spellings of page k of a collection page are produced by strategy 2. */
  lemma CollectionVariantsPaginated(j: nat, k: nat)
    requires j < |CollectionPaths|
    requires 1 <= k <= CategoryPageLimit
    ensures PagePath(CollectionPaths[j], k) in DiscoveryPaths()
    ensures VariantPagePath(CollectionPaths[j], k) in DiscoveryPaths()
  {
    var c := CollectionPaths[j];
    CollectionIsNotTagPath(j);
    CategoryPagesMembers(c, CategoryPageLimit, k);
    CollectionIsCategory(j);
    PaginatedContains(Categories, |TagNamesBefore| + j, PagePath(c, k));
    PaginatedContains(Categories, |TagNamesBefore| + j, VariantPagePath(c, k));
    PaginatedIsDiscovered(PagePath(c, k));
    PaginatedIsDiscovered(VariantPagePath(c, k));
  }

  /** Both spellings of page k of a collection page are discovered, as two distinct URLs. */
  lemma CollectionVariantsDiscovered(base: string, j: nat, k: nat)
    requires j < |CollectionPaths|
    requires 1 <= k <= CategoryPageLimit
    ensures base + PagePath(CollectionPaths[j], k) in DiscoverComprehensiveUrls(base)
    ensures base + VariantPagePath(CollectionPaths[j], k) in DiscoverComprehensiveUrls(base)
    ensures base + PagePath(CollectionPaths[j], k) != base + VariantPagePath(CollectionPaths[j], k)
  {
    var c := CollectionPaths[j];
    CollectionVariantsPaginated(j, k);
    DiscoveredUrl(base, PagePath(c, k));
    DiscoveredUrl(base, VariantPagePath(c, k));
    PageSpellingsDiffer(base, c, k);
  }

  /** The two spellings of a page differ right after the category: "p" against "/". */
  lemma PageSpellingsDiffer(base: string, c: string, k: nat)
    ensures base + PagePath(c, k) != base + VariantPagePath(c, k)
  {
    assert (base + PagePath(c, k))[|base| + |c|] == 'p';
    assert (base + VariantPagePath(c, k))[|base| + |c|] == '/';
  }
}
