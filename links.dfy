/**
 * Link admission in `extract_skin_links_worker`: which hrefs of a listing
 * page become skin links, given the URLs seen before the page was read.
 */
module Links {
  import opened Seqs
  import opened Text
  import opened Urls

  /** An `<a>` element: its href ("" when absent) and its text. */
  datatype Anchor = Anchor(href: string, text: string)

  /** A fetched listing page: the hrefs the selectors yield, in selector
      order ("" for an element without href), and every `<a href>` element. */
  datatype ListingPage = ListingPage(selectorHrefs: seq<string>, anchors: seq<Anchor>)

  const SkinMarkers: seq<string> := ["/skin/", "/theme/", "/widget/", "/rainmeter/"]
  const Site: string := "visualskins.com"
  const StrictExclusions: seq<string> :=
    ["javascript:", "mailto:", "tel:", "contact", "about", "privacy", "terms", "how-to", "tutorial", "guide"]
  const CollectionKeywords: seq<string> := ["best-rainmeter", "collection", "rainmeter-", "tag/"]
  const PermissiveExclusions: seq<string> :=
    ["javascript:", "mailto:", "tel:", "contact", "about", "privacy", "wp-", "admin"]
  const TextKeywords: seq<string> :=
    ["skin", "theme", "widget", "rainmeter", "clock", "visualizer", "weather", "system", "monitor"]

  /** The URL test applied to selector hits, apart from the seen-set test. */
  predicate StrictAdmits(url: string)
  {
    ContainsAny(url, SkinMarkers) && Contains(url, Site) && !ContainsAny(Lower(url), StrictExclusions)
  }

  /** The target URL names a collection or category page. */
  predicate IsCollectionTarget(target: string)
  {
    ContainsAny(Lower(target), CollectionKeywords)
  }

  /** The URL test of the collection-page fallback, apart from the seen-set test. */
  predicate PermissiveAdmits(url: string)
  {
    Contains(url, Site) && !ContainsAny(Lower(url), PermissiveExclusions)
  }

  /** The link text suggests a skin. */
  predicate TextSuggestsSkin(text: string)
  {
    ContainsAny(Lower(text), TextKeywords)
  }

  /** `urljoin(base, href)` as a function of the href. */
  function Resolve(base: string): string -> string
  {
    href => Join(base, href)
  }

  /** Non-empty hrefs, resolved by `join`, whose URL passes `admits`, in order and with repeats. */
  function HrefHits(join: string -> string, hrefs: seq<string>, admits: string -> bool): (r: seq<string>)
    ensures forall i :: 0 <= i < |r| ==> admits(r[i])
  {
    if hrefs == [] then []
    else
      var href := hrefs[|hrefs| - 1];
      HrefHits(join, hrefs[..|hrefs| - 1], admits)
      + (if href != "" && admits(join(href)) then [join(href)] else [])
  }

  /** Non-empty anchor hrefs, resolved by `join`, whose URL passes `admits` and whose text passes `suggests`. */
  function AnchorHits(join: string -> string, anchors: seq<Anchor>, admits: string -> bool, suggests: string -> bool): (r: seq<string>)
    ensures forall i :: 0 <= i < |r| ==> admits(r[i])
  {
    if anchors == [] then []
    else
      var a := anchors[|anchors| - 1];
      AnchorHits(join, anchors[..|anchors| - 1], admits, suggests)
      + (if a.href != "" && admits(join(a.href)) && suggests(a.text) then [join(a.href)] else [])
  }

  /** Joined selector hits that pass the strict test, in order and with repeats. */
  function StrictCandidates(base: string, hrefs: seq<string>): (r: seq<string>)
    ensures forall i :: 0 <= i < |r| ==> StrictAdmits(r[i])
  {
    HrefHits(Resolve(base), hrefs, StrictAdmits)
  }

  /** Joined anchors that pass the permissive test and whose text suggests a skin. */
  function PermissiveCandidates(base: string, anchors: seq<Anchor>): (r: seq<string>)
    ensures forall i :: 0 <= i < |r| ==> PermissiveAdmits(r[i])
  {
    AnchorHits(Resolve(base), anchors, PermissiveAdmits, TextSuggestsSkin)
  }

  lemma HrefHitsStep(join: string -> string, hrefs: seq<string>, admits: string -> bool, i: nat)
    requires i < |hrefs|
    ensures HrefHits(join, hrefs[..i + 1], admits)
      == HrefHits(join, hrefs[..i], admits)
         + (if hrefs[i] != "" && admits(join(hrefs[i])) then [join(hrefs[i])] else [])
  {
    assert hrefs[..i + 1][..i] == hrefs[..i];
  }

  lemma AnchorHitsStep(join: string -> string, anchors: seq<Anchor>, admits: string -> bool, suggests: string -> bool, j: nat)
    requires j < |anchors|
    ensures AnchorHits(join, anchors[..j + 1], admits, suggests)
      == AnchorHits(join, anchors[..j], admits, suggests)
         + (if anchors[j].href != "" && admits(join(anchors[j].href)) && suggests(anchors[j].text)
            then [join(anchors[j].href)] else [])
  {
    assert anchors[..j + 1][..j] == anchors[..j];
  }

  /** One href of the walk that builds `KeepFirst` of the hits. */
  lemma AdmitHitStep(join: string -> string, hrefs: seq<string>, admits: string -> bool, i: nat, seen: set<string>, found: seq<string>)
    requires i < |hrefs|
    requires found == KeepFirst(HrefHits(join, hrefs[..i], admits), Id, Unseen(seen))
    ensures KeepFirst(HrefHits(join, hrefs[..i + 1], admits), Id, Unseen(seen))
      == if hrefs[i] != "" && admits(join(hrefs[i])) && join(hrefs[i]) !in seen + KeySet(found, Id)
         then found + [join(hrefs[i])] else found
  {
    var before := HrefHits(join, hrefs[..i], admits);
    HrefHitsStep(join, hrefs, admits, i);
    if hrefs[i] != "" && admits(join(hrefs[i])) {
      KeepFirstSnoc(before, join(hrefs[i]), Id, Unseen(seen));
    } else {
      assert before + [] == before;
    }
  }

  /** One anchor of the walk that continues it over the anchor hits. */
  lemma AdmitAnchorStep(join: string -> string, strict: seq<string>, anchors: seq<Anchor>, admits: string -> bool, suggests: string -> bool,
                        j: nat, seen: set<string>, found: seq<string>)
    requires j < |anchors|
    requires found == KeepFirst(strict + AnchorHits(join, anchors[..j], admits, suggests), Id, Unseen(seen))
    ensures var a := anchors[j];
      KeepFirst(strict + AnchorHits(join, anchors[..j + 1], admits, suggests), Id, Unseen(seen))
      == if a.href != "" && admits(join(a.href)) && suggests(a.text) && join(a.href) !in seen + KeySet(found, Id)
         then found + [join(a.href)] else found
  {
    var a := anchors[j];
    var before := strict + AnchorHits(join, anchors[..j], admits, suggests);
    AnchorHitsStep(join, anchors, admits, suggests, j);
    if a.href != "" && admits(join(a.href)) && suggests(a.text) {
      assert strict + AnchorHits(join, anchors[..j + 1], admits, suggests) == before + [join(a.href)];
      KeepFirstSnoc(before, join(a.href), Id, Unseen(seen));
    } else {
      assert strict + AnchorHits(join, anchors[..j + 1], admits, suggests) == before;
    }
  }

  /** Every candidate the page offers, strict ones first. */
  function Candidates(base: string, target: string, page: ListingPage): seq<string>
  {
    StrictCandidates(base, page.selectorHrefs)
    + (if IsCollectionTarget(target) then PermissiveCandidates(base, page.anchors) else [])
  }

  /** Admissible for the key-based walk: not seen before the page. */
  function Unseen(seen: set<string>): string -> bool
  {
    u => u !in seen
  }

  /** The list built before the de-duplication pass: candidates taken in
      order, each once, skipping URLs seen before. */
  function Admitted(base: string, target: string, page: ListingPage, seen: set<string>): seq<string>
  {
    KeepFirst(Candidates(base, target, page), Id, Unseen(seen))
  }

  /** What the worker returns for a fetched page: the admitted list after
      its order-preserving de-duplication. */
  function LinksFound(base: string, target: string, page: ListingPage, seen: set<string>): seq<string>
  {
    Dedup(Admitted(base, target, page, seen))
  }

  /** Elements of a sequence of URLs, as a set. */
  function Elements(xs: seq<string>): (s: set<string>)
    ensures forall i :: 0 <= i < |xs| ==> xs[i] in s
    ensures forall u :: u in s ==> u in xs
  {
    set i | 0 <= i < |xs| :: xs[i]
  }

  lemma ElementsSnoc(xs: seq<string>, x: string)
    ensures Elements(xs + [x]) == Elements(xs) + {x}
  {
    assert (xs + [x])[|xs|] == x;
    forall u | u in Elements(xs)
      ensures u in Elements(xs + [x])
    {
      var i :| 0 <= i < |xs| && xs[i] == u;
      assert (xs + [x])[i] == u;
    }
  }

  lemma ElementsIsKeySet(xs: seq<string>)
    ensures Elements(xs) == KeySet(xs, Id)
  {
  }

  /** The de-duplication pass never removes anything: the admitted list is
      already free of repeats. */
  lemma DedupPassIsIdentity(base: string, target: string, page: ListingPage, seen: set<string>)
    ensures LinksFound(base, target, page, seen) == Admitted(base, target, page, seen)
  {
    var a := Admitted(base, target, page, seen);
    KeepFirstOfDistinct(a, Id, Always);
  }

  lemma {:induction false} HrefHitsMembers(join: string -> string, hrefs: seq<string>, admits: string -> bool, u: string)
    ensures u in HrefHits(join, hrefs, admits)
      <==> exists i :: 0 <= i < |hrefs| && hrefs[i] != "" && join(hrefs[i]) == u && admits(u)
  {
    if hrefs != [] {
      var init := hrefs[..|hrefs| - 1];
      HrefHitsMembers(join, init, admits, u);
      if exists i :: 0 <= i < |hrefs| && hrefs[i] != "" && join(hrefs[i]) == u && admits(u) {
        var i :| 0 <= i < |hrefs| && hrefs[i] != "" && join(hrefs[i]) == u && admits(u);
        if i < |init| {
          assert init[i] == hrefs[i];
        }
      }
    }
  }

  lemma {:induction false} AnchorHitsMembers(join: string -> string, anchors: seq<Anchor>, admits: string -> bool, suggests: string -> bool, u: string)
    ensures u in AnchorHits(join, anchors, admits, suggests)
      <==> exists i :: 0 <= i < |anchors| && anchors[i].href != "" && join(anchors[i].href) == u
                       && admits(u) && suggests(anchors[i].text)
  {
    if anchors != [] {
      var init := anchors[..|anchors| - 1];
      AnchorHitsMembers(join, init, admits, suggests, u);
      if exists i :: 0 <= i < |anchors| && anchors[i].href != "" && join(anchors[i].href) == u
                     && admits(u) && suggests(anchors[i].text) {
        var i :| 0 <= i < |anchors| && anchors[i].href != "" && join(anchors[i].href) == u
                 && admits(u) && suggests(anchors[i].text);
        if i < |init| {
          assert init[i] == anchors[i];
        }
      }
    }
  }

  /** Membership in the strict candidates. */
  lemma StrictCandidatesMembers(base: string, hrefs: seq<string>, u: string)
    ensures u in StrictCandidates(base, hrefs)
      <==> exists i :: 0 <= i < |hrefs| && hrefs[i] != "" && Join(base, hrefs[i]) == u && StrictAdmits(u)
  {
    HrefHitsMembers(Resolve(base), hrefs, StrictAdmits, u);
  }

  /** Membership in the permissive candidates. */
  lemma PermissiveCandidatesMembers(base: string, anchors: seq<Anchor>, u: string)
    ensures u in PermissiveCandidates(base, anchors)
      <==> exists i :: 0 <= i < |anchors| && anchors[i].href != "" && Join(base, anchors[i].href) == u
                       && PermissiveAdmits(u) && TextSuggestsSkin(anchors[i].text)
  {
    AnchorHitsMembers(Resolve(base), anchors, PermissiveAdmits, TextSuggestsSkin, u);
  }

  /** Every returned link was unseen before, names the site, avoids the
      shared exclusions, and is a strict candidate or (only on a collection
      target) a permissive one; the list has no repeats. */
  lemma LinksFoundSound(base: string, target: string, page: ListingPage, seen: set<string>)
    ensures var r := LinksFound(base, target, page, seen);
      KeysDistinct(r, Id)
      && forall i :: 0 <= i < |r| ==>
           r[i] !in seen
           && Contains(r[i], Site)
           && !ContainsAny(Lower(r[i]), ["javascript:", "mailto:", "tel:", "contact", "about", "privacy"])
           && (r[i] in StrictCandidates(base, page.selectorHrefs)
               || (IsCollectionTarget(target) && r[i] in PermissiveCandidates(base, page.anchors)))
  {
    DedupPassIsIdentity(base, target, page, seen);
    var r := LinksFound(base, target, page, seen);
    var strict := StrictCandidates(base, page.selectorHrefs);
    var loose := if IsCollectionTarget(target) then PermissiveCandidates(base, page.anchors) else [];
    forall i | 0 <= i < |r|
      ensures r[i] !in seen && Contains(r[i], Site)
      ensures !ContainsAny(Lower(r[i]), ["javascript:", "mailto:", "tel:", "contact", "about", "privacy"])
      ensures r[i] in strict || (IsCollectionTarget(target) && r[i] in PermissiveCandidates(base, page.anchors))
    {
      assert Unseen(seen)(Id(r[i]));
      assert r[i] in strict + loose;
      ExclusionsShared(Lower(r[i]));
    }
  }

  /** The six exclusions both tests share. */
  lemma ExclusionsShared(s: string)
    ensures !ContainsAny(s, StrictExclusions) ==> !ContainsAny(s, ["javascript:", "mailto:", "tel:", "contact", "about", "privacy"])
    ensures !ContainsAny(s, PermissiveExclusions) ==> !ContainsAny(s, ["javascript:", "mailto:", "tel:", "contact", "about", "privacy"])
  {
    var shared: seq<string> := ["javascript:", "mailto:", "tel:", "contact", "about", "privacy"];
    ContainsAnyMembers(s, shared);
    ContainsAnyMembers(s, StrictExclusions);
    ContainsAnyMembers(s, PermissiveExclusions);
    assert forall i :: 0 <= i < |shared| ==> StrictExclusions[i] == shared[i] && PermissiveExclusions[i] == shared[i];
  }

  /** Every candidate not seen before the page is returned, and the
      returned links keep the order in which candidates first appear. */
  lemma LinksFoundComplete(base: string, target: string, page: ListingPage, seen: set<string>)
    ensures var c := Candidates(base, target, page);
      forall i :: 0 <= i < |c| && c[i] !in seen ==> c[i] in LinksFound(base, target, page, seen)
    ensures LinksFound(base, target, page, seen)
      == Select(Candidates(base, target, page), FirstMask(Candidates(base, target, page), Id, Unseen(seen)))
  {
    DedupPassIsIdentity(base, target, page, seen);
    var c := Candidates(base, target, page);
    var r := KeepFirst(c, Id, Unseen(seen));
    forall i | 0 <= i < |c| && c[i] !in seen
      ensures c[i] in r
    {
      assert Id(c[i]) in KeySet(r, Id);
    }
    KeepFirstIsFirstOccurrences(c, Id, Unseen(seen));
  }
}
