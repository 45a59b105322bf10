/**
 * The field rules of `extract_skin_details` over an already parsed skin
 * page: which text each field takes, the defaults, the two hand-written
 * regular expressions and the content-hash input.
 */
module Details {
  import opened Wrappers
  import opened Seqs
  import opened Text
  import opened Urls

  /** A scraped record: field name to text. */
  type Record = map<string, string>

  /** The `dd` that follows a `dt`: its whole text and the text of its first link, if any. */
  datatype Dd = Dd(text: string, linkText: Option<string>)

  /** One `dt` of the info box, with the `dd` sibling that follows it, if any. */
  datatype InfoRow = InfoRow(dt: string, dd: Option<Dd>)

  /** The primary download button: its href ("" when absent) and its text. */
  datatype Button = Button(href: string, text: string)

  /** One breadcrumb link: its href ("" when absent) and its text. */
  datatype Crumb = Crumb(href: string, text: string)

  /**
   * What the selectors of a skin page yield: the `h1.title` text, the
   * `div.desc p` text, the description meta tag's content ("" when the
   * attribute is missing), the slider image's src ("" when absent), the
   * download button, every `dt` in document order, the `div.ratetxt` text,
   * the sidebar tag texts and the breadcrumb links.
   */
  datatype SkinPage = SkinPage(
    title: Option<string>,
    descPara: Option<string>,
    metaDescription: Option<string>,
    thumbnailSrc: Option<string>,
    download: Option<Button>,
    rows: seq<InfoRow>,
    rateText: Option<string>,
    tagTexts: seq<string>,
    crumbs: seq<Crumb>)

  /** A page on which no selector finds anything. */
  const EmptyPage: SkinPage := SkinPage(None, None, None, None, None, [], None, [], [])

  /** The fields every record carries, in the order they are created. */
  const Fields: seq<string> := [
    "url", "name", "description", "thumbnail_url", "download_url", "tags", "rating",
    "developer", "category", "downloads", "file_size", "last_updated", "version",
    "scraped_at", "content_hash"
  ]

  /** `s` ends with `w`, ignoring ASCII case (`w` is lower-case). */
  predicate EndsWithIgnoringCase(s: string, w: string)
  {
    |w| <= |s| && Lower(s[|s| - |w|..]) == w
  }

  /**
   * `re.sub(r'\s*rainmeter\s*theme\s*$', '', s, flags=re.IGNORECASE)`:
   * a trailing "rainmeter" + "theme", with any whitespace around and
   * between them, is cut off together with the whitespace before it.
   */
  function StripThemeSuffix(s: string): (r: string)
    ensures |r| <= |s| && r == s[..|r|]
  {
    var a := TrimRight(s);
    if EndsWithIgnoringCase(a, "theme") then
      var b := TrimRight(a[..|a| - 5]);
      PrefixOfCut(s, a, |a| - 5, b);
      if EndsWithIgnoringCase(b, "rainmeter") then
        var c := TrimRight(b[..|b| - 9]);
        PrefixOfCut(s, b, |b| - 9, c);
        c
      else s
    else s
  }

  /** A prefix of a cut prefix of `s` is a prefix of `s`. */
  lemma PrefixOfCut(s: string, a: string, n: nat, b: string)
    requires |a| <= |s| && a == s[..|a|] && n <= |a|
    requires |b| <= n && b == a[..n][..|b|]
    ensures |b| <= |s| && b == s[..|b|]
  {
    forall k | 0 <= k < |b|
      ensures b[k] == s[k]
    {
      assert b[k] == a[k];
    }
  }

  /** Every character of `ws` is whitespace. */
  predicate AllSpace(ws: string)
  {
    forall i :: 0 <= i < |ws| ==> IsSpace(ws[i])
  }

  /** Trailing whitespace makes no difference to `rstrip`. */
  lemma {:induction false} TrimRightSpaces(y: string, ws: string)
    requires AllSpace(ws)
    ensures TrimRight(y + ws) == TrimRight(y)
    decreases |ws|
  {
    if ws == [] {
      assert y + ws == y;
    } else {
      var init := ws[..|ws| - 1];
      assert (y + ws)[..|y + ws| - 1] == y + init;
      assert IsSpace((y + ws)[|y + ws| - 1]);
      TrimRightSpaces(y, init);
    }
  }

  /** `rstrip` of a text ending in a non-space followed by whitespace. */
  lemma TrimRightToWord(y: string, ws: string)
    requires y != [] && !IsSpace(y[|y| - 1]) && AllSpace(ws)
    ensures TrimRight(y + ws) == y
  {
    TrimRightSpaces(y, ws);
  }

  /** A word equal to a lower-case word up to ASCII case ends in a letter. */
  lemma CaseVariantEndsInLetter(w: string, lw: string)
    requires Lower(w) == lw && lw != [] && 'a' <= lw[|lw| - 1] <= 'z'
    ensures |w| == |lw| && !IsSpace(w[|w| - 1])
  {
    assert LowerChar(w[|w| - 1]) == lw[|lw| - 1];
  }

  /** The first step: the whitespace after "theme" goes and "theme" is found. */
  lemma ThemeFound(y: string, v: string, ws3: string)
    requires Lower(v) == "theme" && AllSpace(ws3)
    ensures var a := TrimRight(y + v + ws3);
      a == y + v && EndsWithIgnoringCase(a, "theme") && a[..|a| - 5] == y
  {
    CaseVariantEndsInLetter(v, "theme");
    TrimRightToWord(y + v, ws3);
    assert (y + v)[|y + v| - 5..] == v;
  }

  /** The second step: the whitespace between the words goes and "rainmeter" is found. */
  lemma RainmeterFound(y: string, w: string, ws2: string)
    requires Lower(w) == "rainmeter" && AllSpace(ws2)
    ensures var b := TrimRight(y + w + ws2);
      b == y + w && EndsWithIgnoringCase(b, "rainmeter") && b[..|b| - 9] == y
  {
    CaseVariantEndsInLetter(w, "rainmeter");
    TrimRightToWord(y + w, ws2);
    assert (y + w)[|y + w| - 9..] == w;
  }

  /** A title ending in "rainmeter" then "theme", in any ASCII case and
      with any whitespace before, between and after them, loses that
      suffix and the whitespace before it. */
  lemma StripThemeSuffixRemoves(x: string, ws1: string, w: string, ws2: string, v: string, ws3: string)
    requires AllSpace(ws1) && AllSpace(ws2) && AllSpace(ws3)
    requires Lower(w) == "rainmeter" && Lower(v) == "theme"
    ensures StripThemeSuffix(x + ws1 + w + ws2 + v + ws3) == TrimRight(x)
  {
    var y := x + ws1 + w + ws2;
    ThemeFound(y, v, ws3);
    RainmeterFound(x + ws1, w, ws2);
    TrimRightSpaces(x, ws1);
  }

  /** Without a trailing "theme" the title is left alone. */
  lemma StripThemeSuffixKeeps(s: string)
    requires !EndsWithIgnoringCase(TrimRight(s), "theme")
    ensures StripThemeSuffix(s) == s
  {
  }

  /** A title ending in "theme", in any ASCII case and with any whitespace
      after it, but without "rainmeter" before it, is left whole:
      "Cool Theme" stays "Cool Theme". */
  lemma StripThemeSuffixKeepsTheme(y: string, v: string, ws3: string)
    requires Lower(v) == "theme" && AllSpace(ws3)
    requires !EndsWithIgnoringCase(TrimRight(y), "rainmeter")
    ensures StripThemeSuffix(y + v + ws3) == y + v + ws3
  {
    ThemeFound(y, v, ws3);
  }

  /** The name: the stripped title without its suffix, cleaned; "" without a title. */
  function NameOf(title: Option<string>): string
  {
    match title
    case None => ""
    case Some(t) => CleanText(StripThemeSuffix(Strip(t)))
  }

  /** The description: the cleaned paragraph, or, when that is empty, the cleaned meta description. */
  function DescriptionOf(descPara: Option<string>, meta: Option<string>): (r: string)
    ensures descPara.Some? && CleanText(Strip(descPara.value)) != "" ==> r == CleanText(Strip(descPara.value))
    ensures (descPara.None? || CleanText(Strip(descPara.value)) == "") ==> r == (if meta.Some? then CleanText(meta.value) else "")
  {
    var d := if descPara.Some? then CleanText(Strip(descPara.value)) else "";
    if d != "" then d
    else if meta.Some? then CleanText(meta.value)
    else ""
  }

  /** The thumbnail: the slider image's src joined to the base, when there is one. */
  function ThumbnailOf(base: string, src: Option<string>): string
  {
    if src.Some? && src.value != "" then Join(base, src.value) else ""
  }

  /** The download URL: the button's href joined to the base, when there is one. */
  function DownloadUrlOf(base: string, button: Option<Button>): string
  {
    if button.Some? && button.value.href != "" then Join(base, button.value.href) else ""
  }

  /** Index of the first ')' at or after `i`, or |s|. */
  function NextClose(s: string, i: nat): (j: nat)
    requires i <= |s|
    ensures i <= j <= |s|
    ensures j < |s| ==> s[j] == ')'
    ensures forall k :: i <= k < j ==> s[k] != ')'
    decreases |s| - i
  {
    if i == |s| || s[i] == ')' then i else NextClose(s, i + 1)
  }

  /** `\(([^)]+)\)` matches at `i`. */
  predicate ParenMatchAt(s: string, i: nat)
    requires i < |s|
  {
    s[i] == '(' && i + 2 <= NextClose(s, i + 1) < |s|
  }

  /** The leftmost match at or after `i`, as the index of its '('. */
  function FirstParenFrom(s: string, i: nat): (r: Option<nat>)
    requires i <= |s|
    ensures r.Some? ==> i <= r.value < |s| && ParenMatchAt(s, r.value)
    ensures forall k :: i <= k < |s| && (r.None? || k < r.value) ==> !ParenMatchAt(s, k)
    decreases |s| - i
  {
    if i == |s| then None
    else if ParenMatchAt(s, i) then Some(i)
    else FirstParenFrom(s, i + 1)
  }

  /** `re.search(r'\(([^)]+)\)', s).group(1)`, if there is a match. */
  function FirstParenGroup(s: string): (r: Option<string>)
    ensures r.Some? ==> |r.value| >= 1 && forall k :: 0 <= k < |r.value| ==> r.value[k] != ')'
    ensures r.Some? ==> Contains(s, "(" + r.value + ")")
    ensures (forall k :: 0 <= k < |s| ==> s[k] != '(') ==> r.None?
    ensures r.None? <==> forall i :: 0 <= i < |s| ==> !ParenMatchAt(s, i)
    ensures r.Some? ==>
      exists i :: 0 <= i < |s| && ParenMatchAt(s, i) && r.value == s[i + 1..NextClose(s, i + 1)]
        && forall k :: 0 <= k < i ==> !ParenMatchAt(s, k)
  {
    match FirstParenFrom(s, 0)
    case None => None
    case Some(i) =>
      var j := NextClose(s, i + 1);
      var g := s[i + 1..j];
      assert s[i..i + |g| + 2] == "(" + g + ")";
      ContainsAt(s, "(" + g + ")", i);
      Some(g)
  }

  /** End of the run of digits that starts at `i`. */
  function DigitRunEnd(s: string, i: nat): (j: nat)
    requires i <= |s|
    ensures i <= j <= |s|
    ensures forall k :: i <= k < j ==> IsDigit(s[k])
    ensures j < |s| ==> !IsDigit(s[j])
    decreases |s| - i
  {
    if i < |s| && IsDigit(s[i]) then DigitRunEnd(s, i + 1) else i
  }

  predicate IsVersionSeparator(c: char)
  {
    c == '.' || c == '_'
  }

  /** `\d+[._]\d+` matches at `i`. */
  predicate VersionMatchAt(s: string, i: nat)
    requires i < |s|
  {
    var j := DigitRunEnd(s, i);
    IsDigit(s[i]) && j + 1 < |s| && IsVersionSeparator(s[j]) && IsDigit(s[j + 1])
  }

  /** The leftmost match at or after `i`, as its start. */
  function FirstVersionFrom(s: string, i: nat): (r: Option<nat>)
    requires i <= |s|
    ensures r.Some? ==> i <= r.value < |s| && VersionMatchAt(s, r.value)
    ensures forall k :: i <= k < |s| && (r.None? || k < r.value) ==> !VersionMatchAt(s, k)
    decreases |s| - i
  {
    if i == |s| then None
    else if VersionMatchAt(s, i) then Some(i)
    else FirstVersionFrom(s, i + 1)
  }

  /** Two non-empty runs of digits joined by a dot. */
  predicate IsDottedVersion(v: string)
  {
    exists k :: 0 < k < |v| - 1 && v[k] == '.' && forall m :: 0 <= m < |v| && m != k ==> IsDigit(v[m])
  }

  /** `re.search(r'(\d+[\._]\d+)', s).group(1).replace('_', '.')`, if there is a match. */
  function VersionIn(s: string): (r: Option<string>)
    ensures r.Some? ==> IsDottedVersion(r.value)
    ensures (forall k :: 0 <= k < |s| ==> !IsVersionSeparator(s[k])) ==> r.None?
    ensures r.None? <==> forall i :: 0 <= i < |s| ==> !VersionMatchAt(s, i)
    ensures r.Some? ==> exists i :: LeftmostVersionAt(s, i, r.value)
  {
    match FirstVersionFrom(s, 0)
    case None => None
    case Some(i) =>
      var v := VersionAt(s, i);
      VersionFoundAt(s, i, v);
      SeparatorOfMatch(s, i);
      Some(v)
  }

  /** `v` is what the leftmost match, at `i`, gives: the characters of
      `s` from `i` on, the separator written as a dot, up to the end of the
      second run of digits. */
  predicate LeftmostVersionAt(s: string, i: nat, v: string)
  {
    i < |s| && VersionMatchAt(s, i) && (forall k :: 0 <= k < i ==> !VersionMatchAt(s, k))
    && i + |v| <= |s| && (i + |v| == |s| || !IsDigit(s[i + |v|]))
    && forall m :: 0 <= m < |v| ==> v[m] == (if s[i + m] == '_' then '.' else s[i + m])
  }

  /** The leftmost match, as the version it gives. */
  lemma VersionFoundAt(s: string, i: nat, v: string)
    requires FirstVersionFrom(s, 0) == Some(i) && v == VersionAt(s, i)
    ensures LeftmostVersionAt(s, i, v)
  {
  }

  /** A match holds a separator. */
  lemma SeparatorOfMatch(s: string, i: nat)
    requires i < |s| && VersionMatchAt(s, i)
    ensures exists k :: 0 <= k < |s| && IsVersionSeparator(s[k])
  {
    var j := DigitRunEnd(s, i);
    assert IsVersionSeparator(s[j]);
  }

  /** The version matched at `i`, its separator written as a dot. */
  function VersionAt(s: string, i: nat): (v: string)
    requires i < |s| && VersionMatchAt(s, i)
    ensures IsDottedVersion(v)
    ensures i + |v| <= |s| && (i + |v| == |s| || !IsDigit(s[i + |v|]))
    ensures forall m :: 0 <= m < |v| ==> v[m] == (if s[i + m] == '_' then '.' else s[i + m])
  {
    var j := DigitRunEnd(s, i);
    var e := DigitRunEnd(s, j + 1);
    var v := s[i..j] + "." + s[j + 1..e];
    assert v[j - i] == '.';
    assert forall m :: 0 <= m < |v| ==> v[m] == (if s[i + m] == '_' then '.' else s[i + m]) by {
      forall m | 0 <= m < |v|
        ensures v[m] == (if s[i + m] == '_' then '.' else s[i + m])
      {
        if m < j - i {
          assert v[m] == s[i + m] && IsDigit(s[i + m]);
        } else if m > j - i {
          assert v[m] == s[i + m] && IsDigit(s[i + m]);
        }
      }
    }
    v
  }

  /** The value `f` gives the first row satisfying `p`, "" when no row does:
      the shape of the `dt` loops that stop at their first match. */
  function FirstRowValue(rows: seq<InfoRow>, p: InfoRow -> bool, f: InfoRow -> string): (r: string)
    ensures r == "" || exists k :: 0 <= k < |rows| && p(rows[k]) && r == f(rows[k])
  {
    if rows == [] then ""
    else if p(rows[0]) then f(rows[0])
    else
      var r := FirstRowValue(rows[1..], p, f);
      assert r != "" ==> exists k :: 1 <= k < |rows| && p(rows[k]) && r == f(rows[k]) by {
        if r != "" {
          var k :| 0 <= k < |rows[1..]| && p(rows[1..][k]) && r == f(rows[1..][k]);
          assert rows[1..][k] == rows[k + 1];
        }
      }
      r
  }

  /** A `dt` reading "DEVELOPER" that has a `dd`. */
  predicate IsDeveloperRow(row: InfoRow)
  {
    Upper(Strip(row.dt)) == "DEVELOPER" && row.dd.Some?
  }

  /** The developer a row names: its `dd`'s link text if the `dd` has a
      link, else the `dd`'s whole text, cleaned. */
  function DeveloperValue(row: InfoRow): string
  {
    if row.dd.None? then ""
    else
      var dd := row.dd.value;
      CleanText(if dd.linkText.Some? then dd.linkText.value else dd.text)
  }

  /** The developer: the first `dt` reading "DEVELOPER" that has a `dd`. */
  function DeveloperOf(rows: seq<InfoRow>): string
  {
    FirstRowValue(rows, IsDeveloperRow, DeveloperValue)
  }

  /** The rating: the cleaned stripped text, unless it says "not rated". */
  function RatingOf(rateText: Option<string>): string
  {
    if rateText.None? then ""
    else
      var t := Strip(rateText.value);
      if Contains(Lower(t), "not rated") then "" else CleanText(t)
  }

  /** A `dt` mentioning "date added" that has a `dd`. */
  predicate IsDateRow(row: InfoRow)
  {
    Contains(Lower(Strip(row.dt)), "date added") && row.dd.Some?
  }

  /** The date a row gives: its cleaned `dd` text. */
  function DateValue(row: InfoRow): string
  {
    if row.dd.None? then "" else CleanText(row.dd.value.text)
  }

  /** The date: the first `dt` mentioning "date added" that has a `dd`. */
  function LastUpdatedOf(rows: seq<InfoRow>): string
  {
    FirstRowValue(rows, IsDateRow, DateValue)
  }

  /** A stripped tag text is used when it has more than one character and does not start with '<'. */
  predicate UsableTag(t: string)
  {
    |t| > 1 && t[0] != '<'
  }

  /** The images under `f` of the texts, kept when they satisfy `keep`, in order. */
  function KeepImages(texts: seq<string>, f: string -> string, keep: string -> bool): (r: seq<string>)
    ensures |r| <= |texts|
    ensures forall i :: 0 <= i < |r| ==> keep(r[i])
  {
    if texts == [] then []
    else
      var t := f(texts[|texts| - 1]);
      KeepImages(texts[..|texts| - 1], f, keep) + (if keep(t) then [t] else [])
  }

  /** The stripped sidebar tag texts that are usable, in order. */
  function UsableTags(texts: seq<string>): (r: seq<string>)
    ensures |r| <= |texts|
    ensures forall i :: 0 <= i < |r| ==> UsableTag(r[i])
  {
    KeepImages(texts, Strip, UsableTag)
  }

  /** At most the first ten usable tags, joined with ", ". */
  function TagsOf(texts: seq<string>): string
  {
    var tags := UsableTags(texts);
    JoinWith(tags[..if |tags| < 10 then |tags| else 10], ", ")
  }

  /** The category: the first breadcrumb into "/tag/" whose stripped text
      is non-empty and is not "rainmeter skins", cleaned. */
  function CategoryOf(crumbs: seq<Crumb>): string
  {
    if crumbs == [] then ""
    else
      var c := Strip(crumbs[0].text);
      if Contains(crumbs[0].href, "/tag/") && c != "" && Lower(c) != "rainmeter skins" then CleanText(c)
      else CategoryOf(crumbs[1..])
  }

  /** Version and file size while the `dt` loop runs. */
  datatype InfoState = InfoState(version: string, fileSize: string)

  /** One `dt` of the info loop: a FILENAME row may set the version, and
      otherwise a FILE SIZE row sets the file size while it is still empty. */
  function InfoStep(st: InfoState, row: InfoRow): InfoState
  {
    if row.dd.None? then st
    else
      var heading := Upper(Strip(row.dt));
      var text := CleanText(row.dd.value.text);
      if Contains(heading, "FILENAME") then
        match VersionIn(text)
        case Some(v) => st.(version := v)
        case None => st
      else if Contains(heading, "FILE SIZE") && st.fileSize == "" then st.(fileSize := text)
      else st
  }

  /** The info loop over every `dt`, front to back. */
  function InfoLoop(st: InfoState, rows: seq<InfoRow>): InfoState
    decreases |rows|
  {
    if rows == [] then st else InfoLoop(InfoStep(st, rows[0]), rows[1..])
  }

  /** The version a single row offers: a FILENAME row with a `dd` whose cleaned text has one. */
  function RowVersion(row: InfoRow): Option<string>
  {
    if row.dd.Some? && Contains(Upper(Strip(row.dt)), "FILENAME") then VersionIn(CleanText(row.dd.value.text)) else None
  }

  /** The version of the last row that offers one. */
  function LastVersion(rows: seq<InfoRow>): Option<string>
  {
    if rows == [] then None
    else
      match LastVersion(rows[1..])
      case Some(v) => Some(v)
      case None => RowVersion(rows[0])
  }

  /** A FILE SIZE row with a `dd` that is not also a FILENAME row. */
  predicate IsSizeRow(row: InfoRow)
  {
    row.dd.Some? && !Contains(Upper(Strip(row.dt)), "FILENAME") && Contains(Upper(Strip(row.dt)), "FILE SIZE")
  }

  /** The first size row whose cleaned `dd` is non-empty gives the size. */
  function FirstSize(rows: seq<InfoRow>): string
  {
    if rows == [] then ""
    else if IsSizeRow(rows[0]) && CleanText(rows[0].dd.value.text) != "" then CleanText(rows[0].dd.value.text)
    else FirstSize(rows[1..])
  }

  /** The loop's version is that of the last row offering one, whatever the file size. */
  lemma {:induction false} InfoLoopVersion(st: InfoState, rows: seq<InfoRow>)
    ensures InfoLoop(st, rows).version == match LastVersion(rows) case Some(v) => v case None => st.version
    decreases |rows|
  {
    if rows != [] {
      InfoLoopVersion(InfoStep(st, rows[0]), rows[1..]);
    }
  }

  /** A size already taken from the download button is never replaced. */
  lemma {:induction false} InfoLoopKeepsSize(st: InfoState, rows: seq<InfoRow>)
    requires st.fileSize != ""
    ensures InfoLoop(st, rows).fileSize == st.fileSize
    decreases |rows|
  {
    if rows != [] {
      InfoLoopKeepsSize(InfoStep(st, rows[0]), rows[1..]);
    }
  }

  /** Without a size from the button, the first size row with a non-empty text decides. */
  lemma {:induction false} InfoLoopSize(st: InfoState, rows: seq<InfoRow>)
    requires st.fileSize == ""
    ensures InfoLoop(st, rows).fileSize == FirstSize(rows)
    decreases |rows|
  {
    if rows != [] {
      var next := InfoStep(st, rows[0]);
      if next.fileSize == "" {
        InfoLoopSize(next, rows[1..]);
      } else {
        InfoLoopKeepsSize(next, rows[1..]);
      }
    }
  }

  /** The size read from the button text. */
  function ButtonFileSize(button: Option<Button>): string
  {
    if button.Some? && button.value.href != "" then
      match FirstParenGroup(button.value.text)
      case Some(g) => g
      case None => ""
    else ""
  }

  /** The content hash: `md5` over the name, developer and download URL, concatenated without separators. */
  function ContentHash(md5: string -> string, name: string, developer: string, downloadUrl: string): string
  {
    md5(name + developer + downloadUrl)
  }

  /** The fields `extract_skin_details` fills, by name. */
  datatype Skin = Skin(
    url: string, name: string, description: string, thumbnailUrl: string, downloadUrl: string,
    tags: string, rating: string, developer: string, category: string, downloads: string,
    fileSize: string, lastUpdated: string, version: string, scrapedAt: string, contentHash: string)

  /** The fields `extract_skin_details` fills for a fetched page, with the
      clock reading `now` and the digest function `md5`. */
  function ExtractedSkin(base: string, url: string, page: SkinPage, md5: string -> string, now: string): Skin
  {
    var name := NameOf(page.title);
    var developer := DeveloperOf(page.rows);
    var download := DownloadUrlOf(base, page.download);
    var info := InfoLoop(InfoState("", ButtonFileSize(page.download)), page.rows);
    Skin(url, name, DescriptionOf(page.descPara, page.metaDescription), ThumbnailOf(base, page.thumbnailSrc),
         download, TagsOf(page.tagTexts), RatingOf(page.rateText), developer, CategoryOf(page.crumbs), "",
         info.fileSize, LastUpdatedOf(page.rows), info.version, now, ContentHash(md5, name, developer, download))
  }

  /** The dictionary the scraper stores. */
  function AsRecord(s: Skin): Record
  {
    map[
      "url" := s.url, "name" := s.name, "description" := s.description,
      "thumbnail_url" := s.thumbnailUrl, "download_url" := s.downloadUrl, "tags" := s.tags,
      "rating" := s.rating, "developer" := s.developer, "category" := s.category,
      "downloads" := s.downloads, "file_size" := s.fileSize, "last_updated" := s.lastUpdated,
      "version" := s.version, "scraped_at" := s.scrapedAt, "content_hash" := s.contentHash
    ]
  }

  /** The record of a fetched skin page. */
  function SkinRecord(base: string, url: string, page: SkinPage, md5: string -> string, now: string): Record
  {
    AsRecord(ExtractedSkin(base, url, page, md5, now))
  }

  /** The dictionary has exactly the listed fields. */
  lemma AsRecordFields(s: Skin)
    ensures forall f :: f in AsRecord(s) <==> f in Fields
  {
  }

  /** The dictionary fields the rest of the scraper reads. */
  lemma AsRecordLookups(s: Skin)
    ensures AsRecord(s)["url"] == s.url && AsRecord(s)["name"] == s.name
    ensures AsRecord(s)["developer"] == s.developer && AsRecord(s)["content_hash"] == s.contentHash
  {
  }

  /** On a page where no selector matches, every scraped field keeps its "" default. */
  lemma EmptyPageDefaults(base: string, url: string, md5: string -> string, now: string)
    ensures ExtractedSkin(base, url, EmptyPage, md5, now)
      == Skin(url, "", "", "", "", "", "", "", "", "", "", "", "", now, md5(""))
  {
  }

  /** The url and the clock reading are copied, the download count is never
      scraped, and the hash is taken over name, developer and download URL. */
  lemma ExtractedSkinCopies(base: string, url: string, page: SkinPage, md5: string -> string, now: string)
    ensures var s := ExtractedSkin(base, url, page, md5, now);
      s.url == url && s.scrapedAt == now && s.downloads == ""
      && s.contentHash == md5(s.name + s.developer + s.downloadUrl)
  {
  }

  /** Every field that went through `clean_text` is ASCII. */
  lemma ExtractedSkinAscii(base: string, url: string, page: SkinPage, md5: string -> string, now: string)
    ensures var s := ExtractedSkin(base, url, page, md5, now);
      AllAscii(s.name) && AllAscii(s.description) && AllAscii(s.developer)
      && AllAscii(s.rating) && AllAscii(s.category) && AllAscii(s.lastUpdated)
  {
    NameAscii(page.title);
    DescriptionAscii(page.descPara, page.metaDescription);
    RatingAscii(page.rateText);
    DeveloperAscii(page.rows);
    CategoryAscii(page.crumbs);
    LastUpdatedAscii(page.rows);
  }

  lemma NameAscii(title: Option<string>)
    ensures AllAscii(NameOf(title))
  {
    if title.Some? {
      assert NameOf(title) == CleanText(StripThemeSuffix(Strip(title.value)));
    }
  }

  lemma DescriptionAscii(descPara: Option<string>, meta: Option<string>)
    ensures AllAscii(DescriptionOf(descPara, meta))
  {
    if descPara.Some? && CleanText(Strip(descPara.value)) != "" {
    } else if meta.Some? {
      assert DescriptionOf(descPara, meta) == CleanText(meta.value);
    }
  }

  lemma RatingAscii(rateText: Option<string>)
    ensures AllAscii(RatingOf(rateText))
  {
    RatingRule(rateText);
  }

  lemma DeveloperAscii(rows: seq<InfoRow>)
    ensures AllAscii(DeveloperOf(rows))
  {
    var r := DeveloperOf(rows);
    if r != "" {
      var k :| 0 <= k < |rows| && IsDeveloperRow(rows[k]) && r == DeveloperValue(rows[k]);
    }
  }

  lemma {:induction false} CategoryAscii(crumbs: seq<Crumb>)
    ensures AllAscii(CategoryOf(crumbs))
    decreases |crumbs|
  {
    if crumbs != [] {
      CategoryAscii(crumbs[1..]);
    }
  }

  lemma LastUpdatedAscii(rows: seq<InfoRow>)
    ensures AllAscii(LastUpdatedOf(rows))
  {
    var r := LastUpdatedOf(rows);
    if r != "" {
      var k :| 0 <= k < |rows| && IsDateRow(rows[k]) && r == DateValue(rows[k]);
    }
  }

  /** The first row satisfying `p` decides the value; with none, it is "". */
  lemma {:induction false} FirstRowValueAt(rows: seq<InfoRow>, p: InfoRow -> bool, f: InfoRow -> string, i: nat)
    requires i <= |rows|
    requires forall k :: 0 <= k < i ==> !p(rows[k])
    requires i < |rows| ==> p(rows[i])
    ensures FirstRowValue(rows, p, f) == if i < |rows| then f(rows[i]) else ""
    decreases i
  {
    if i > 0 {
      assert !p(rows[0]);
      FirstRowValueAt(rows[1..], p, f, i - 1);
    } else if rows != [] {
      assert p(rows[0]);
    }
  }

  /** The developer comes from the first developer row: a "DEVELOPER" `dt`
      without a `dd` does not stop the search. */
  lemma DeveloperFromFirstRow(rows: seq<InfoRow>, i: nat)
    requires i < |rows| && IsDeveloperRow(rows[i])
    requires forall k :: 0 <= k < i ==> !IsDeveloperRow(rows[k])
    ensures DeveloperOf(rows) == CleanText(if rows[i].dd.value.linkText.Some? then rows[i].dd.value.linkText.value else rows[i].dd.value.text)
  {
    FirstRowValueAt(rows, IsDeveloperRow, DeveloperValue, i);
  }

  /** Without a developer row the developer stays "". */
  lemma DeveloperDefault(rows: seq<InfoRow>)
    requires forall k :: 0 <= k < |rows| ==> !IsDeveloperRow(rows[k])
    ensures DeveloperOf(rows) == ""
  {
    FirstRowValueAt(rows, IsDeveloperRow, DeveloperValue, |rows|);
  }

  /** A breadcrumb that names the category. */
  predicate IsCategoryCrumb(c: Crumb)
  {
    Contains(c.href, "/tag/") && Strip(c.text) != "" && Lower(Strip(c.text)) != "rainmeter skins"
  }

  /** The category comes from the first naming breadcrumb, or stays "". */
  lemma {:induction false} CategoryFromFirstCrumb(crumbs: seq<Crumb>, i: nat)
    requires i <= |crumbs|
    requires forall k :: 0 <= k < i ==> !IsCategoryCrumb(crumbs[k])
    requires i < |crumbs| ==> IsCategoryCrumb(crumbs[i])
    ensures CategoryOf(crumbs) == if i < |crumbs| then CleanText(Strip(crumbs[i].text)) else ""
    decreases i
  {
    if i > 0 {
      assert !IsCategoryCrumb(crumbs[0]);
      CategoryFromFirstCrumb(crumbs[1..], i - 1);
    } else if crumbs != [] {
      assert IsCategoryCrumb(crumbs[0]);
    }
  }

  /** The date comes from the first date row, or stays "". */
  lemma LastUpdatedFromFirstRow(rows: seq<InfoRow>, i: nat)
    requires i <= |rows|
    requires forall k :: 0 <= k < i ==> !IsDateRow(rows[k])
    requires i < |rows| ==> IsDateRow(rows[i])
    ensures LastUpdatedOf(rows) == if i < |rows| then CleanText(rows[i].dd.value.text) else ""
  {
    FirstRowValueAt(rows, IsDateRow, DateValue, i);
  }

  /** The file size: the button's parenthesised group when it has one,
      otherwise the first size row with a non-empty text. */
  lemma SkinRecordFileSize(base: string, url: string, page: SkinPage, md5: string -> string, now: string)
    ensures ExtractedSkin(base, url, page, md5, now).fileSize
      == if ButtonFileSize(page.download) != "" then ButtonFileSize(page.download) else FirstSize(page.rows)
  {
    var st := InfoState("", ButtonFileSize(page.download));
    if st.fileSize != "" {
      InfoLoopKeepsSize(st, page.rows);
    } else {
      InfoLoopSize(st, page.rows);
    }
  }

  /** The version: that of the last FILENAME row offering one, or "". */
  lemma SkinRecordVersion(base: string, url: string, page: SkinPage, md5: string -> string, now: string)
    ensures ExtractedSkin(base, url, page, md5, now).version
      == match LastVersion(page.rows) case Some(v) => v case None => ""
  {
    InfoLoopVersion(InfoState("", ButtonFileSize(page.download)), page.rows);
  }

  /** KeepImages distributes over concatenation. */
  lemma {:induction false} KeepImagesAppend(a: seq<string>, b: seq<string>, f: string -> string, keep: string -> bool)
    ensures KeepImages(a + b, f, keep) == KeepImages(a, f, keep) + KeepImages(b, f, keep)
    decreases |b|
  {
    if b == [] {
      assert a + b == a;
    } else {
      assert (a + b)[..|a + b| - 1] == a + b[..|b| - 1];
      KeepImagesAppend(a, b[..|b| - 1], f, keep);
    }
  }

  /** A text is kept iff it satisfies `keep` and is the image of some text. */
  lemma {:induction false} KeepImagesMembers(texts: seq<string>, f: string -> string, keep: string -> bool, t: string)
    ensures t in KeepImages(texts, f, keep) <==> keep(t) && exists i :: 0 <= i < |texts| && f(texts[i]) == t
  {
    if texts != [] {
      var init := texts[..|texts| - 1];
      KeepImagesMembers(init, f, keep, t);
      if keep(t) && exists i :: 0 <= i < |texts| && f(texts[i]) == t {
        var i :| 0 <= i < |texts| && f(texts[i]) == t;
        if i < |init| {
          assert init[i] == texts[i];
        }
      }
    }
  }

  /** UsableTags distributes over concatenation. */
  lemma UsableTagsAppend(a: seq<string>, b: seq<string>)
    ensures UsableTags(a + b) == UsableTags(a) + UsableTags(b)
  {
    KeepImagesAppend(a, b, Strip, UsableTag);
  }

  /** A usable tag is kept iff some stripped tag text equals it. */
  lemma UsableTagsMembers(texts: seq<string>, t: string)
    ensures t in UsableTags(texts) <==> UsableTag(t) && exists i :: 0 <= i < |texts| && Strip(texts[i]) == t
  {
    KeepImagesMembers(texts, Strip, UsableTag, t);
  }

  /** Once ten usable tags are found, later tag texts change nothing. */
  lemma TagsIgnoreBeyondTen(texts: seq<string>, more: seq<string>)
    requires |UsableTags(texts)| >= 10
    ensures TagsOf(texts + more) == TagsOf(texts)
  {
    UsableTagsAppend(texts, more);
    var u := UsableTags(texts);
    assert (u + UsableTags(more))[..10] == u[..10];
  }

  /** With ten usable tags or fewer, all of them are joined. */
  lemma TagsAllWhenFew(texts: seq<string>)
    requires |UsableTags(texts)| <= 10
    ensures TagsOf(texts) == JoinWith(UsableTags(texts), ", ")
  {
    var u := UsableTags(texts);
    assert u[..|u|] == u;
  }

  /** The rating is blank exactly when there is no rating text or it says
      "not rated" in any ASCII case; otherwise it is the cleaned text. */
  lemma RatingRule(rateText: Option<string>)
    ensures RatingOf(rateText) == ""
      <== rateText.None? || Contains(Lower(Strip(rateText.value)), "not rated")
    ensures rateText.Some? && !Contains(Lower(Strip(rateText.value)), "not rated")
      ==> RatingOf(rateText) == CleanText(Strip(rateText.value))
  {
  }

  /** Equal name, developer and download URL give equal hashes. */
  lemma SameIdentitySameHash(base: string, md5: string -> string, u1: string, p1: SkinPage, n1: string, u2: string, p2: SkinPage, n2: string)
    requires NameOf(p1.title) == NameOf(p2.title)
    requires DeveloperOf(p1.rows) == DeveloperOf(p2.rows)
    requires DownloadUrlOf(base, p1.download) == DownloadUrlOf(base, p2.download)
    ensures ExtractedSkin(base, u1, p1, md5, n1).contentHash == ExtractedSkin(base, u2, p2, md5, n2).contentHash
  {
  }

  /** The hash input has no separators: name "ab" with developer "c" hashes
      like name "a" with developer "bc", whatever the digest. */
  lemma HashInputAmbiguous(md5: string -> string, download: string)
    ensures ContentHash(md5, "ab", "c", download) == ContentHash(md5, "a", "bc", download)
  {
    assert "ab" + "c" == "a" + "bc";
  }

  /** `\(([^)]+)\)` on a download button text. */
  lemma FirstParenGroupExample()
    ensures FirstParenGroup("() (2 MB)") == Some("2 MB")
  {
    var s := "() (2 MB)";
    assert !ParenMatchAt(s, 0) by {
      assert NextClose(s, 1) == 1;
    }
    assert NextClose(s, 4) == 8 by {
      assert NextClose(s, 8) == 8;
      assert NextClose(s, 7) == 8;
      assert NextClose(s, 6) == 8;
      assert NextClose(s, 5) == 8;
    }
    assert FirstParenFrom(s, 3) == Some(3);
    assert FirstParenFrom(s, 2) == Some(3);
    assert FirstParenFrom(s, 1) == Some(3);
    assert FirstParenFrom(s, 0) == Some(3);
    assert s[4..8] == "2 MB";
  }

  /** `\d+[._]\d+` on a file name, with '_' turned into '.'. */
  lemma VersionInExample()
    ensures VersionIn("v2_10") == Some("2.10")
  {
    var s := "v2_10";
    assert DigitRunEnd(s, 5) == 5;
    assert DigitRunEnd(s, 3) == 5;
    assert DigitRunEnd(s, 1) == 2;
    assert VersionMatchAt(s, 1);
    assert FirstVersionFrom(s, 1) == Some(1);
    assert !VersionMatchAt(s, 0);
    assert FirstVersionFrom(s, 0) == Some(1);
    assert s[1..2] + "." + s[3..5] == "2.10";
  }
}
