/**
 * `RainmeterScraper` as an object: its shared lists, seen set, URL queue
 * and counters are fields, and each bookkeeping step is a method proved
 * against the decision functions of module Control and the pure rules of
 * modules Links, Details and Records. The network, the threads and the
 * clock are replaced by scripted inputs.
 */
module Scraper {
  import opened Wrappers
  import opened Seqs
  import opened Text
  import opened Urls
  import opened Discovery
  import opened Links
  import opened Details
  import opened Records
  import opened Control

  /** `discover_categories`: the seven seed URLs. */
  function SeedUrls(base: string): (r: seq<string>)
    ensures |r| == 7
    ensures forall i :: 0 <= i < |r| ==> base <= r[i]
    ensures r[0] == base + "/"
  {
    [base + "/", base + "/tag/themes/", base + "/tag/clock/", base + "/tag/visualizer/",
     base + "/tag/weather/", base + "/tag/launcher/", base + "/best-rainmeter-skins/"]
  }

  /** The worker's final pass: each URL once, in first-found order. */
  method UniqueInOrder(xs: seq<string>) returns (unique: seq<string>)
    ensures unique == Dedup(xs)
  {
    unique := [];
    var seenInBatch: set<string> := {};
    var k := 0;
    while k < |xs|
      invariant 0 <= k <= |xs|
      invariant unique == KeepFirst(xs[..k], Id, Always)
      invariant seenInBatch == KeySet(unique, Id)
    {
      assert xs[..k + 1] == xs[..k] + [xs[k]];
      KeepFirstSnoc(xs[..k], xs[k], Id, Always);
      if xs[k] !in seenInBatch {
        KeySetSnoc(unique, xs[k], Id);
        unique := unique + [xs[k]];
        seenInBatch := seenInBatch + {xs[k]};
      }
      k := k + 1;
    }
    assert xs[..k] == xs;
  }

  /** The selector pass of `extract_skin_links_worker`: every hit that
      joins to a URL passing `admits` and not yet in `seen` is taken and
      added to it (the page walk passes the strict test). */
  method AdmitSelectorHits(base: string, seen0: set<string>, hrefs: seq<string>, admits: string -> bool)
    returns (found: seq<string>, seen: set<string>)
    ensures found == KeepFirst(HrefHits(Resolve(base), hrefs, admits), Id, Unseen(seen0))
    ensures forall u :: u in seen <==> u in seen0 || u in found
  {
    found := [];
    seen := seen0;
    var i := 0;
    while i < |hrefs|
      invariant 0 <= i <= |hrefs|
      invariant found == KeepFirst(HrefHits(Resolve(base), hrefs[..i], admits), Id, Unseen(seen0))
      invariant forall u :: u in seen <==> u in seen0 || u in found
    {
      AdmitHitStep(Resolve(base), hrefs, admits, i, seen0, found);
      var href := hrefs[i];
      if href != "" {
        var full := Join(base, href);
        KeySetIdMember(found, full);
        if admits(full) && full !in seen {
          found := found + [full];
          seen := seen + {full};
        }
      }
      i := i + 1;
    }
    assert hrefs[..i] == hrefs;
  }

  /** The fallback pass of a collection page, continuing the selector
      pass: anchors whose URL passes `admits` and whose text passes
      `suggests` (the page walk passes the permissive test and the
      skin-keyword test). */
  method AdmitAnchors(base: string, seen0: set<string>, ghost strict: seq<string>, found0: seq<string>, seen1: set<string>,
                      anchors: seq<Anchor>, admits: string -> bool, suggests: string -> bool)
    returns (found: seq<string>, seen: set<string>)
    requires found0 == KeepFirst(strict, Id, Unseen(seen0))
    requires forall u :: u in seen1 <==> u in seen0 || u in found0
    ensures found == KeepFirst(strict + AnchorHits(Resolve(base), anchors, admits, suggests), Id, Unseen(seen0))
    ensures forall u :: u in seen <==> u in seen0 || u in found
  {
    found := found0;
    seen := seen1;
    var j := 0;
    assert strict + AnchorHits(Resolve(base), anchors[..0], admits, suggests) == strict;
    while j < |anchors|
      invariant 0 <= j <= |anchors|
      invariant found == KeepFirst(strict + AnchorHits(Resolve(base), anchors[..j], admits, suggests), Id, Unseen(seen0))
      invariant forall u :: u in seen <==> u in seen0 || u in found
    {
      AdmitAnchorStep(Resolve(base), strict, anchors, admits, suggests, j, seen0, found);
      var a := anchors[j];
      if a.href != "" {
        var full := Join(base, a.href);
        KeySetIdMember(found, full);
        if admits(full) && suggests(a.text) && full !in seen {
          found := found + [full];
          seen := seen + {full};
        }
      }
      j := j + 1;
    }
    assert anchors[..j] == anchors;
  }

  /** The scripted world a scraping worker sees: each skin page already
      parsed, the outcomes of the attempts to fetch it, the digest function
      and the timestamp stamped on records. */
  datatype Site = Site(pages: string -> SkinPage, attempts: string -> seq<bool>, md5: string -> string, now: string)

  /** `get_page` with its default three attempts succeeds on this URL. */
  predicate Fetches(site: Site, url: string)
  {
    FirstSuccess(site.attempts(url), 3, 0).Some?
  }

  /** The records the dequeued URLs yield, in dequeue order. */
  function ScrapedRecords(base: string, site: Site, urls: seq<string>): (r: seq<Record>)
    ensures |r| <= |urls|
  {
    if urls == [] then []
    else
      var u := urls[|urls| - 1];
      ScrapedRecords(base, site, urls[..|urls| - 1])
      + (if Fetches(site, u) then [SkinRecord(base, u, site.pages(u), site.md5, site.now)] else [])
  }

  /** The dequeued URLs whose every attempt failed, in dequeue order. */
  function FailedFetches(site: Site, urls: seq<string>): (r: seq<string>)
    ensures |r| + |ScrapedRecords("", site, urls)| == |urls|
  {
    if urls == [] then []
    else
      var u := urls[|urls| - 1];
      FailedFetches(site, urls[..|urls| - 1]) + (if Fetches(site, u) then [] else [u])
  }

  /** What `extract_skin_details` gives a scraping worker. */
  datatype DetailsOutcome = Scraped(record: Record) | NoRecord | DetailsRaised

  /** One script step seen by a scraping worker: the discovery thread puts a
      URL, the discovery thread finishes, or the worker asks the queue. */
  datatype WorkerEvent = Arrive(url: string) | DiscoveryDone | Poll

  /** The URLs the discovery thread puts during a script, in order. */
  function Arrivals(events: seq<WorkerEvent>): (r: seq<string>)
    ensures |r| <= |events|
  {
    if events == [] then []
    else
      var ev := events[|events| - 1];
      Arrivals(events[..|events| - 1]) + (if ev.Arrive? then [ev.url] else [])
  }

  /** A prefix of a script puts no more URLs than the whole script. */
  lemma {:induction false} ArrivalsPrefix(events: seq<WorkerEvent>, p: nat)
    requires p <= |events|
    ensures |Arrivals(events[..p])| <= |Arrivals(events)|
    decreases |events|
  {
    if p < |events| {
      var init := events[..|events| - 1];
      ArrivalsPrefix(init, p);
      assert init[..p] == events[..p];
    } else {
      assert events[..p] == events;
    }
  }

  /** The loop over `item.items()` in `clean_data`: every value replaced by `f` of it. */
  method CleanFields(item: Record, f: string -> string) returns (r: Record)
    ensures r == MapValues(item, f)
  {
    r := item;
    var keys := item.Keys;
    while keys != {}
      invariant keys <= item.Keys && r.Keys == item.Keys
      invariant forall k :: k in item ==> r[k] == (if k in keys then item[k] else f(item[k]))
      decreases keys
    {
      var key :| key in keys;
      r := r[key := f(item[key])];
      keys := keys - {key};
    }
  }

  /** The stats `scrape_all_skins_parallel` installs: no `failed_count` key. */
  const ResetStats: Stats := Stats(0, 0, None, false)

  /** The stats a reset evidently means to install. */
  const FreshStats: Stats := Stats(0, 0, Some(0), false)

  /** After the reset, a fetch whose three attempts all fail records the
      URL and then raises the KeyError instead of returning None. */
  lemma FailureAfterResetRaises(url: string, outcomes: seq<bool>, failed: seq<string>)
    requires forall j :: 0 <= j < 3 && j < |outcomes| ==> !outcomes[j]
    ensures GetPageSpec(url, 3, outcomes, failed, ResetStats) == FetchEffect(KeyErrorRaised, failed + [url], ResetStats)
  {
    GetPageFailure(url, 3, outcomes, failed, ResetStats);
  }

  /** After the corrected reset the same failure returns None, is the only
      recorded failure and is counted once. */
  lemma FailureAfterFreshReset(url: string, outcomes: seq<bool>)
    requires forall j :: 0 <= j < 3 && j < |outcomes| ==> !outcomes[j]
    ensures GetPageSpec(url, 3, outcomes, [], FreshStats) == FetchEffect(NoResponse, [url], Stats(0, 0, Some(1), false))
  {
    GetPageFailure(url, 3, outcomes, [], FreshStats);
  }

  /** The links of one worker result put on the queue, one by one, until
      the run's total reaches twice the cap. */
  method PutLinks(q0: seq<string>, links: seq<string>, total: int, cap: int) returns (q: seq<string>, put: nat)
    ensures put == TakeCount(links, total, cap)
    ensures q == q0 + links[..put]
  {
    q := q0;
    put := 0;
    while put < |links|
      invariant put <= |links|
      invariant put + TakeCount(links[put..], total + put, cap) == TakeCount(links, total, cap)
      invariant q == q0 + links[..put]
    {
      TakeCountStep(links, put, total + put, cap);
      assert links[..put + 1] == links[..put] + [links[put]];
      q := q + [links[put]];
      put := put + 1;
      if Capped(cap) && total + put >= cap * 2 {
        break;
      }
    }
  }

  /** One batch of `discovery_worker`: the worker results of the batch
      consumed in completion order, stopping once the total reaches twice the cap. */
  method RunBatch(q0: seq<string>, results: seq<seq<string>>, total: int, cap: int)
    returns (q: seq<string>, count: nat)
    ensures count == |BatchEnqueue(results, total, cap)|
    ensures q == q0 + BatchEnqueue(results, total, cap)
  {
    q := q0;
    count := 0;
    var m := 0;
    while m < |results|
      invariant m <= |results|
      invariant m > 0 ==> !(Capped(cap) && total + count >= cap * 2)
      invariant count == |Flatten(results[..m])|
      invariant q == q0 + Flatten(results[..m])
    {
      ghost var done := Flatten(results[..m]);
      var k;
      q, k := PutLinks(q, results[m], total + count, cap);
      BatchLoopStep(results, m, total, cap, done, k);
      AppendAssoc(q0, done, results[m][..k]);
      count := count + k;
      if Capped(cap) && total + count >= cap * 2 {
        return;
      }
      m := m + 1;
    }
    BatchAllTaken(results, m, total, cap);
  }

  /** Number of URLs `discover_comprehensive_urls` returns. */
  const ComprehensiveUrlCount: nat := 2347

  /** The targets of a discovery run: the category URLs, followed by the
      comprehensive list on the first run only. */
  method DiscoveryTargets(categoryUrls: seq<string>, base: string, generated: bool) returns (targets: seq<string>)
    ensures targets == categoryUrls + (if generated then [] else DiscoverComprehensiveUrls(base))
    ensures |targets| == |categoryUrls| + (if generated then 0 else ComprehensiveUrlCount)
  {
    targets := categoryUrls;
    if !generated {
      DiscoveryCount(base);
      targets := targets + DiscoverComprehensiveUrls(base);
    }
  }

  /** The scripted world the link workers of discovery see: each listing
      page already parsed, and the outcomes of the attempts to fetch it. */
  datatype Listings = Listings(pages: string -> ListingPage, attempts: string -> seq<bool>)

  /** What the link workers share: the seen set, the failure list and the counters. */
  datatype LinkState = LinkState(seen: set<string>, failed: seq<string>, stats: Stats)

  /** `extract_skin_links_worker(target)`: the fetch with three attempts,
      then, on a response, the links of the page; the links returned and
      the shared state after it. Without a response (or on the KeyError its
      own handler catches) it returns no links. */
  function LinkStep(base: string, target: string, page: ListingPage, outcomes: seq<bool>, st: LinkState): (seq<string>, LinkState)
  {
    var e := GetPageSpec(target, 3, outcomes, st.failed, st.stats);
    if e.result.Response? then
      var links := LinksFound(base, target, page, st.seen);
      (links, LinkState(st.seen + Elements(links), e.failedUrls, e.stats))
    else ([], LinkState(st.seen, e.failedUrls, e.stats))
  }

  /** The counters a link worker may not touch are untouched, and
      `failed_count` stays present or absent. */
  predicate StatsFrame(a: Stats, b: Stats)
  {
    b.discoveredCount == a.discoveredCount && b.scrapedCount == a.scrapedCount
    && b.discoveryComplete == a.discoveryComplete && (b.failedCount.Some? <==> a.failedCount.Some?)
  }

  /** A link worker returns links with no repeats, none seen before it ran,
      and adds them to the seen set; the failure list only grows. */
  lemma LinkStepFresh(base: string, target: string, page: ListingPage, outcomes: seq<bool>, st: LinkState)
    ensures var r := LinkStep(base, target, page, outcomes, st);
      KeysDistinct(r.0, Id) && st.seen <= r.1.seen
      && (forall u :: u in r.0 ==> u !in st.seen && u in r.1.seen)
      && st.failed <= r.1.failed && StatsFrame(st.stats, r.1.stats)
  {
    LinksFoundSound(base, target, page, st.seen);
    GetPageFrame(target, 3, outcomes, st.failed, st.stats);
  }

  /** The link workers of the first `k` targets run one after another from
      `st`: what each returned, and the shared state after the last. */
  function LinkRun(base: string, site: Listings, targets: seq<string>, k: nat, st: LinkState): (r: (seq<seq<string>>, LinkState))
    requires k <= |targets|
    ensures |r.0| == k
    decreases k, 1
  {
    if k == 0 then ([], st)
    else
      var step := LinkAt(base, site, targets, k - 1, st);
      (LinkRun(base, site, targets, k - 1, st).0 + [step.0], step.1)
  }

  /** The worker of target `j`, run from the state the workers of the
      targets before it left. */
  function LinkAt(base: string, site: Listings, targets: seq<string>, j: nat, st: LinkState): (seq<string>, LinkState)
    requires j < |targets|
    decreases j + 1, 0
  {
    var t := targets[j];
    LinkStep(base, t, site.pages(t), site.attempts(t), LinkRun(base, site, targets, j, st).1)
  }

  /** The workers of the first `k` targets return the same links whether or
      not later targets are run after them. */
  lemma {:induction false} LinkRunPrefix(base: string, site: Listings, targets: seq<string>, st: LinkState, k: nat, n: nat)
    requires k <= n <= |targets|
    ensures LinkRun(base, site, targets, k, st).0 == LinkRun(base, site, targets, n, st).0[..k]
    decreases n
  {
    if k < n {
      var prev := LinkRun(base, site, targets, n - 1, st).0;
      LinkRunPrefix(base, site, targets, st, k, n - 1);
      assert LinkRun(base, site, targets, n, st).0[..n - 1] == prev;
      assert prev[..k] == LinkRun(base, site, targets, n, st).0[..k];
    }
  }

  /** Over a run no link comes back twice, none was seen before the run,
      every returned link is seen after it, the failure list only grows and
      only `failed_count` may change among the counters. */
  lemma {:induction false} LinkRunFresh(base: string, site: Listings, targets: seq<string>, k: nat, st: LinkState)
    requires k <= |targets|
    ensures var r := LinkRun(base, site, targets, k, st);
      Unshared(r.0) && st.seen <= r.1.seen
      && (forall j, u :: 0 <= j < |r.0| && u in r.0[j] ==> u !in st.seen && u in r.1.seen)
      && st.failed <= r.1.failed && StatsFrame(st.stats, r.1.stats)
    decreases k
  {
    if k > 0 {
      var n := k - 1;
      var prev := LinkRun(base, site, targets, n, st);
      var t := targets[n];
      var step := LinkStep(base, t, site.pages(t), site.attempts(t), prev.1);
      var r := LinkRun(base, site, targets, k, st);
      assert r == (prev.0 + [step.0], step.1);
      LinkRunFresh(base, site, targets, n, st);
      LinkStepFresh(base, t, site.pages(t), site.attempts(t), prev.1);
      forall j | 0 <= j < n
        ensures r.0[j] == prev.0[j]
      {
      }
      forall j1, j2, u | 0 <= j1 < j2 < |r.0| && u in r.0[j1]
        ensures u !in r.0[j2]
      {
        if j2 == n {
          assert u in prev.1.seen;
        }
      }
    }
  }

  /** Everything the discovery worker puts on the queue is a link no
      earlier worker returned and nobody had seen before the run: no URL is
      enqueued twice. */
  lemma DiscoveryEnqueuesFreshLinks(base: string, site: Listings, targets: seq<string>, st: LinkState, cap: int)
    ensures var e := Control.Discovery(|targets|, LinkRun(base, site, targets, |targets|, st).0, cap).enqueued;
      KeysDistinct(e, Id) && forall u :: u in e ==> u !in st.seen
  {
    var returned := LinkRun(base, site, targets, |targets|, st).0;
    var e := Control.Discovery(|targets|, returned, cap).enqueued;
    LinkRunFresh(base, site, targets, |targets|, st);
    DiscoveryDistinct(|targets|, returned, cap);
    forall u | u in e
      ensures u !in st.seen
    {
      DiscoveryYields(|targets|, returned, cap, u);
      var k :| 0 <= k < |targets| && u in YieldAt(returned, k);
      assert u in returned[k];
    }
  }

  /** The targets of the discovery thread: the seed URLs, then the
      comprehensive list unless an earlier run generated it. */
  function RunTargets(base: string, generated: bool): seq<string>
  {
    SeedUrls(base) + (if generated then [] else DiscoverComprehensiveUrls(base))
  }

  /** The URLs discovery queues from `targets` when its link workers start
      from the link state `st` and the batch loop stops at `cap`. */
  function DiscoveredLinks(base: string, site: Listings, targets: seq<string>, st: LinkState, cap: int): seq<string>
  {
    Control.Discovery(|targets|, LinkRun(base, site, targets, |targets|, st).0, cap).enqueued
  }

  /** One link worker over the shared state. */
  method LinkWorker(base: string, target: string, page: ListingPage, outcomes: seq<bool>, st: LinkState)
    returns (links: seq<string>, st': LinkState)
    ensures (links, st') == LinkStep(base, target, page, outcomes, st)
  {
    var r, failed, stats := FetchPage(target, 3, outcomes, st.failed, st.stats);
    if !r.Response? {
      // no response, or the KeyError caught by the worker's own handler
      return [], LinkState(st.seen, failed, stats);
    }
    var seen;
    links, seen := PageLinks(base, target, page, st.seen);
    st' := LinkState(seen, failed, stats);
  }

  /** One more worker in a batch: its links extend the batch's results. */
  lemma LinkBatchStep(base: string, site: Listings, targets: seq<string>, k: nat, st0: LinkState,
                      pre: seq<seq<string>>, results: seq<seq<string>>, links: seq<string>, st: LinkState)
    requires k < |targets|
    requires LinkRun(base, site, targets, k, st0).0 == pre + results
    requires (links, st) == LinkStep(base, targets[k], site.pages(targets[k]), site.attempts(targets[k]),
                                     LinkRun(base, site, targets, k, st0).1)
    ensures LinkRun(base, site, targets, k + 1, st0) == (pre + (results + [links]), st)
  {
    AppendAssoc(pre, results, [links]);
  }

  /** The worker of target `k` in a batch, its links added to the batch's results. */
  method LinkNext(base: string, site: Listings, targets: seq<string>, k: nat,
                  results: seq<seq<string>>, st: LinkState, ghost st0: LinkState, ghost pre: seq<seq<string>>)
    returns (results': seq<seq<string>>, st': LinkState)
    requires k < |targets|
    requires LinkRun(base, site, targets, k, st0) == (pre + results, st)
    ensures LinkRun(base, site, targets, k + 1, st0) == (pre + results', st')
  {
    var t := targets[k];
    var links;
    links, st' := LinkWorker(base, t, site.pages(t), site.attempts(t), st);
    LinkBatchStep(base, site, targets, k, st0, pre, results, links, st');
    results' := results + [links];
  }

  /** The link workers of the targets `lo..hi`, one after another: the
      run so far, extended by the batch's results. */
  method LinkBatch(base: string, site: Listings, targets: seq<string>, lo: nat, hi: nat, st: LinkState,
                   ghost st0: LinkState, ghost pre: seq<seq<string>>)
    returns (results: seq<seq<string>>, st': LinkState)
    requires lo <= hi <= |targets|
    requires LinkRun(base, site, targets, lo, st0) == (pre, st)
    ensures LinkRun(base, site, targets, hi, st0) == (pre + results, st')
  {
    results, st' := [], st;
    var k := lo;
    assert pre + [] == pre;
    while k < hi
      invariant lo <= k <= hi
      invariant LinkRun(base, site, targets, k, st0) == (pre + results, st')
    {
      results, st' := LinkNext(base, site, targets, k, results, st', st0, pre);
      k := k + 1;
    }
  }

  /** What the workers of targets `lo..hi` return, read off the whole run. */
  lemma LinkBatchResults(base: string, site: Listings, targets: seq<string>, st0: LinkState, lo: nat, hi: nat,
                         results: seq<seq<string>>)
    requires lo <= hi <= |targets|
    requires LinkRun(base, site, targets, hi, st0).0 == LinkRun(base, site, targets, lo, st0).0 + results
    ensures results == LinkRun(base, site, targets, |targets|, st0).0[lo..hi]
  {
    var all := LinkRun(base, site, targets, |targets|, st0).0;
    LinkRunPrefix(base, site, targets, st0, lo, |targets|);
    LinkRunPrefix(base, site, targets, st0, hi, |targets|);
    assert all[..hi] == all[..lo] + results;
    assert all[lo..hi] == all[..hi][lo..];
  }

  /** One pass of the batch loop of `discovery_worker`: the link workers of
      the batch at target `i`, their links put on the queue, then the three
      stop tests. `done` is what the run has put so far and `full` what the
      whole run puts. */
  method DiscoveryRound(base: string, site: Listings, targets: seq<string>, q: seq<string>, maxUrls: int,
                        i: nat, total: nat, stagnant: nat, st: LinkState,
                        ghost st0: LinkState, ghost returned: seq<seq<string>>,
                        ghost q0: seq<string>, ghost done: seq<string>, ghost full: seq<string>)
    returns (q': seq<string>, total': nat, stagnant': nat, stop: bool, st': LinkState, ghost done': seq<string>)
    requires i < |targets|
    requires returned == LinkRun(base, site, targets, |targets|, st0).0
    requires st == LinkRun(base, site, targets, i, st0).1
    requires q == q0 + done && total == |done|
    requires done + DiscoveryFrom(|targets|, BatchFound(|targets|, returned, maxUrls), i, total, stagnant, maxUrls).enqueued == full
    ensures st' == LinkRun(base, site, targets, BatchEnd(|targets|, i), st0).1
    ensures q' == q0 + done' && total' == |done'|
    ensures stop ==> (done' == full
      && DiscoveryFrom(|targets|, BatchFound(|targets|, returned, maxUrls), i, total, stagnant, maxUrls).batches == 1)
    ensures !stop ==> (done' + DiscoveryFrom(|targets|, BatchFound(|targets|, returned, maxUrls), i + BatchSize, total', stagnant', maxUrls).enqueued == full
      && DiscoveryFrom(|targets|, BatchFound(|targets|, returned, maxUrls), i, total, stagnant, maxUrls).batches
         == 1 + DiscoveryFrom(|targets|, BatchFound(|targets|, returned, maxUrls), i + BatchSize, total', stagnant', maxUrls).batches)
  {
    var n := |targets|;
    var hi := if i + BatchSize < n then i + BatchSize else n;
    var results;
    results, st' := LinkBatch(base, site, targets, i, hi, st, st0, LinkRun(base, site, targets, i, st0).0);
    LinkBatchResults(base, site, targets, st0, i, hi, results);
    BatchResultsSlice(returned, i, hi);
    assert results == BatchResults(returned, i, hi);
    ghost var f := BatchEnqueue(results, total, maxUrls);
    BatchFoundAt(n, returned, maxUrls, i, total, hi);
    AppendAssoc(q0, done, f);
    var batchDiscoveries;
    q', batchDiscoveries := RunBatch(q, results, total, maxUrls);
    done' := done + f;
    total' := total + batchDiscoveries;
    stagnant' := if batchDiscoveries == 0 then stagnant + 1 else 0;
    DiscoveryLoopStep(n, BatchFound(n, returned, maxUrls), i, total, stagnant, maxUrls, done, full, f, total', stagnant', done');
    stop := StopsAfter(n, i, total', stagnant', batchDiscoveries, maxUrls);
  }

  /** The batch loop of `discovery_worker` over `targets`: what it puts on
      the queue, and the shared state after the link workers of the batches
      it reached. */
  method DiscoveryLoop(base: string, site: Listings, targets: seq<string>, q0: seq<string>, maxUrls: int, st0: LinkState)
    returns (q: seq<string>, total: nat, st: LinkState)
    ensures var run := Control.Discovery(|targets|, LinkRun(base, site, targets, |targets|, st0).0, maxUrls);
      q == q0 + run.enqueued && total == |run.enqueued|
      && st == LinkRun(base, site, targets, VisitedTargets(|targets|, run.batches), st0).1
  {
    var n := |targets|;
    ghost var returned := LinkRun(base, site, targets, |targets|, st0).0;
    ghost var run := Control.Discovery(n, returned, maxUrls);
    ghost var found := BatchFound(n, returned, maxUrls);
    ghost var done: seq<string> := [];
    ghost var b: nat := 0;
    q := q0;
    total := 0;
    st := st0;
    var stagnant := 0;
    var i := 0;
    while i < n
      invariant i == b * BatchSize
      invariant total == |done|
      invariant q == q0 + done
      invariant done + DiscoveryFrom(n, found, i, total, stagnant, maxUrls).enqueued == run.enqueued
      invariant b + DiscoveryFrom(n, found, i, total, stagnant, maxUrls).batches == run.batches
      invariant st == LinkRun(base, site, targets, if i < n then i else n, st0).1
      decreases n - i
    {
      var stop;
      VisitedNext(n, b, i);
      q, total, stagnant, stop, st, done := DiscoveryRound(base, site, targets, q, maxUrls, i, total, stagnant, st,
                                                           st0, returned, q0, done, run.enqueued);
      if stop {
        return;
      }
      i := i + BatchSize;
      b := b + 1;
    }
    VisitedNext(n, b, i);
    assert done + [] == done;
  }

  /** The link extraction of `extract_skin_links_worker` on a fetched
      listing page: the admitted links, once each, and the seen set grown by them. */
  method PageLinks(base: string, target: string, page: ListingPage, seen0: set<string>)
    returns (links: seq<string>, seen: set<string>)
    ensures links == LinksFound(base, target, page, seen0)
    ensures seen == seen0 + Elements(links)
  {
    ghost var strict := StrictCandidates(base, page.selectorHrefs);
    var skinLinks;
    skinLinks, seen := AdmitSelectorHits(base, seen0, page.selectorHrefs, StrictAdmits);
    if IsCollectionTarget(target) {
      skinLinks, seen := AdmitAnchors(base, seen0, strict, skinLinks, seen, page.anchors, PermissiveAdmits, TextSuggestsSkin);
    } else {
      assert strict + [] == strict;
    }
    assert skinLinks == Admitted(base, target, page, seen0);
    links := UniqueInOrder(skinLinks);
    forall u | true
      ensures u in seen <==> u in seen0 + Elements(links)
    {
      if u in skinLinks {
        var i :| 0 <= i < |skinLinks| && skinLinks[i] == u;
        assert skinLinks[i] in links;
      }
      if u in links {
        var i :| 0 <= i < |links| && links[i] == u;
        assert links[i] in skinLinks;
      }
    }
  }

  /** `get_page(url, retries)` over the failure list and stats it updates. */
  method FetchPage(url: string, retries: int, outcomes: seq<bool>, failed0: seq<string>, stats0: Stats)
    returns (r: Fetch, failed: seq<string>, stats: Stats)
    ensures FetchEffect(r, failed, stats) == GetPageSpec(url, retries, outcomes, failed0, stats0)
  {
    failed, stats := failed0, stats0;
    var attempt := 0;
    while attempt < retries
      invariant 0 <= attempt && (retries > 0 ==> attempt < retries)
      invariant FirstSuccess(outcomes, retries, attempt) == FirstSuccess(outcomes, retries, 0)
      invariant failed == failed0 && stats == stats0
      decreases retries - attempt
    {
      if attempt < |outcomes| && outcomes[attempt] {
        return Response(attempt), failed, stats;
      }
      if attempt == retries - 1 {
        failed := failed + [url];
        if stats.failedCount.None? {
          // `processing_stats['failed_count'] += 1` on a missing key
          return KeyErrorRaised, failed, stats;
        }
        stats := stats.(failedCount := Some(stats.failedCount.value + 1));
        return NoResponse, failed, stats;
      }
      attempt := attempt + 1;
    }
    return NoResponse, failed, stats;
  }

  /** `extract_skin_details(url)` over the failure list and stats its fetch updates. */
  method SkinDetails(base: string, url: string, page: SkinPage, outcomes: seq<bool>, md5: string -> string, now: string,
                     failed0: seq<string>, stats0: Stats)
    returns (d: DetailsOutcome, failed: seq<string>, stats: Stats)
    ensures var e := GetPageSpec(url, 3, outcomes, failed0, stats0);
      failed == e.failedUrls && stats == e.stats
      && (e.result.Response? ==> d == Scraped(SkinRecord(base, url, page, md5, now)))
      && (e.result == NoResponse ==> d == NoRecord)
      && (e.result == KeyErrorRaised ==> d == DetailsRaised)
  {
    var response;
    response, failed, stats := FetchPage(url, 3, outcomes, failed0, stats0);
    match response {
      case Response(_) => d := Scraped(SkinRecord(base, url, page, md5, now));
      case NoResponse => d := NoRecord;
      case KeyErrorRaised => d := DetailsRaised;
    }
  }

  /** The body of `scraping_worker` for one dequeued URL: the details are
      extracted and, when there are any, appended and counted. A fetch that
      fails records the URL, and counts it when the count exists. */
  method ScrapeOne(base: string, site: Site, url: string, data0: seq<Record>, failed0: seq<string>, stats0: Stats)
    returns (data: seq<Record>, failed: seq<string>, stats: Stats)
    ensures data == data0 + (if Fetches(site, url) then [SkinRecord(base, url, site.pages(url), site.md5, site.now)] else [])
    ensures failed == failed0 + (if Fetches(site, url) then [] else [url])
    ensures stats == stats0.(scrapedCount := stats0.scrapedCount + (if Fetches(site, url) then 1 else 0),
                             failedCount := if !Fetches(site, url) && stats0.failedCount.Some?
                                            then Some(stats0.failedCount.value + 1) else stats0.failedCount)
  {
    var d;
    d, failed, stats := SkinDetails(base, url, site.pages(url), site.attempts(url), site.md5, site.now, failed0, stats0);
    data := data0;
    match d {
      case Scraped(record) =>
        data := data + [record];
        stats := stats.(scrapedCount := stats.scrapedCount + 1);
      case NoRecord =>
      case DetailsRaised =>
    }
  }

  /** One more dequeued URL adds at most one record or one failure. */
  lemma ScrapedSnoc(base: string, site: Site, taken: seq<string>, url: string)
    ensures ScrapedRecords(base, site, taken + [url])
      == ScrapedRecords(base, site, taken) + (if Fetches(site, url) then [SkinRecord(base, url, site.pages(url), site.md5, site.now)] else [])
    ensures FailedFetches(site, taken + [url]) == FailedFetches(site, taken) + (if Fetches(site, url) then [] else [url])
  {
    assert (taken + [url])[..|taken|] == taken;
  }

  /** Taking the head of the queue keeps the dequeued-then-queued order. */
  lemma Dequeue(taken: seq<string>, queue: seq<string>)
    requires queue != []
    ensures taken + queue == (taken + [queue[0]]) + queue[1..]
  {
    assert queue == [queue[0]] + queue[1..];
  }

  /** What a scraping worker has done so far: how it ended (None while it
      runs), how many script events it read, the URLs it dequeued, the
      items it acknowledged, its count of consecutive Empty results, and the
      queue, record list, failure list and stats it shares. */
  datatype Worker = Worker(exit: Option<WorkerExit>, processed: nat, taken: seq<string>, acks: nat, emptyStreak: nat,
                           queue: seq<string>, data: seq<Record>, failed: seq<string>, stats: Stats)

  /** A worker that has not read anything yet. */
  function Start(queue: seq<string>, data: seq<Record>, failed: seq<string>, stats: Stats): Worker
  {
    Worker(None, 0, [], 0, 0, queue, data, failed, stats)
  }

  /** One script event seen by a running worker: an arrival or the end of
      discovery changes the shared state; a poll either dequeues and
      scrapes the head URL or counts an Empty and decides whether to stop. */
  function WorkerStep(base: string, site: Site, w: Worker, ev: WorkerEvent): (r: Worker)
    ensures r.processed == w.processed + 1
  {
    match ev
    case Arrive(u) =>
      w.(processed := w.processed + 1, queue := w.queue + [u],
         stats := w.stats.(discoveredCount := w.stats.discoveredCount + 1))
    case DiscoveryDone =>
      w.(processed := w.processed + 1, stats := w.stats.(discoveryComplete := true))
    case Poll =>
      if w.queue != [] then
        var url := w.queue[0];
        var ok := Fetches(site, url);
        w.(processed := w.processed + 1, queue := w.queue[1..], taken := w.taken + [url], acks := w.acks + 1, emptyStreak := 0,
           data := w.data + (if ok then [SkinRecord(base, url, site.pages(url), site.md5, site.now)] else []),
           failed := w.failed + (if ok then [] else [url]),
           stats := w.stats.(scrapedCount := w.stats.scrapedCount + (if ok then 1 else 0),
                             failedCount := if !ok && w.stats.failedCount.Some? then Some(w.stats.failedCount.value + 1)
                                            else w.stats.failedCount))
      else
        var (n, decision) := OnEmpty(w.emptyStreak, w.stats.discoveryComplete, |w.queue|);
        w.(processed := w.processed + 1, emptyStreak := n, exit := decision)
  }

  /** The worker reading the script from event `w.processed` on, until it exits or the script ends. */
  function WorkerFrom(base: string, site: Site, events: seq<WorkerEvent>, w: Worker): Worker
    decreases |events| - w.processed
  {
    if w.exit.Some? || w.processed >= |events| then w
    else WorkerFrom(base, site, events, WorkerStep(base, site, w, events[w.processed]))
  }

  /** Every URL put is either dequeued or still queued, in order, and every dequeued one was acknowledged. */
  ghost predicate QueueAccounts(events: seq<WorkerEvent>, s: Worker, w: Worker)
  {
    w.processed <= |events|
    && w.acks == |w.taken|
    && s.queue + Arrivals(events[..w.processed]) == w.taken + w.queue
  }

  /** Every dequeued URL gave a record or a recorded failure, and the counters agree with the lists. */
  ghost predicate RecordAccounts(base: string, site: Site, s: Worker, w: Worker)
  {
    w.data == s.data + ScrapedRecords(base, site, w.taken)
    && w.stats.scrapedCount == s.stats.scrapedCount + |ScrapedRecords(base, site, w.taken)|
    && w.failed == s.failed + FailedFetches(site, w.taken)
    && (w.stats.failedCount.Some? <==> s.stats.failedCount.Some?)
    && (w.stats.failedCount.Some? ==> w.stats.failedCount.value == s.stats.failedCount.value + |FailedFetches(site, w.taken)|)
  }

  /** The discovery thread's puts are counted, and its end is seen. */
  ghost predicate EventAccounts(events: seq<WorkerEvent>, s: Worker, w: Worker)
    requires w.processed <= |events|
  {
    w.stats.discoveredCount == s.stats.discoveredCount + |Arrivals(events[..w.processed])|
    && (w.stats.discoveryComplete <==> s.stats.discoveryComplete || DiscoveryDone in events[..w.processed])
  }

  /** A worker exits only on an Empty, and only for one of its two reasons. */
  ghost predicate ExitAccounts(events: seq<WorkerEvent>, w: Worker)
    requires w.processed <= |events|
  {
    (w.exit.None? ==> w.emptyStreak < MaxConsecutiveEmpty)
    && (w.exit.Some? ==> w.processed >= 1 && events[w.processed - 1] == Poll && w.queue == [])
    && (w.exit == Some(QueueDrained) ==> w.stats.discoveryComplete)
    && (w.exit == Some(TimedOut) ==> !w.stats.discoveryComplete && w.emptyStreak == MaxConsecutiveEmpty)
  }

  /** How a worker's state accounts for the script read so far, from the state `s` it started in. */
  ghost predicate Accounts(base: string, site: Site, events: seq<WorkerEvent>, s: Worker, w: Worker)
  {
    QueueAccounts(events, s, w) && RecordAccounts(base, site, s, w)
    && EventAccounts(events, s, w) && ExitAccounts(events, w)
  }

  /** A worker that has read nothing accounts for the empty script. */
  lemma StartAccounts(base: string, site: Site, events: seq<WorkerEvent>, s: Worker)
    requires s == Start(s.queue, s.data, s.failed, s.stats)
    ensures Accounts(base, site, events, s, s)
  {
    assert events[..0] == [];
  }

  /** The script read one event further: what an arrival or the end of
      discovery adds to the counts. */
  lemma ReadOneMore(events: seq<WorkerEvent>, p: nat)
    requires p < |events|
    ensures Arrivals(events[..p + 1]) == Arrivals(events[..p]) + (if events[p].Arrive? then [events[p].url] else [])
    ensures DiscoveryDone in events[..p + 1] <==> DiscoveryDone in events[..p] || events[p] == DiscoveryDone
  {
    assert events[..p + 1] == events[..p] + [events[p]];
    assert events[..p + 1][..p] == events[..p];
  }

  /** What a scraping worker's poll of a non-empty queue adds: the head is
      taken, and its record or its failure is appended and counted. */
  lemma PollFields(base: string, site: Site, w: Worker)
    requires w.queue != []
    ensures var r := WorkerStep(base, site, w, Poll);
      var url := w.queue[0];
      var got := if Fetches(site, url) then [SkinRecord(base, url, site.pages(url), site.md5, site.now)] else [];
      var lost := if Fetches(site, url) then [] else [url];
      r.taken == w.taken + [url] && r.data == w.data + got && r.failed == w.failed + lost
      && r.stats.scrapedCount == w.stats.scrapedCount + |got|
      && (r.stats.failedCount.Some? <==> w.stats.failedCount.Some?)
      && (r.stats.failedCount.Some? ==> r.stats.failedCount.value == w.stats.failedCount.value + |lost|)
  {
  }

  /** Scraping the head of the queue keeps the record accounts. */
  lemma DequeueRecords(base: string, site: Site, s: Worker, w: Worker)
    requires RecordAccounts(base, site, s, w)
    requires w.queue != []
    ensures RecordAccounts(base, site, s, WorkerStep(base, site, w, Poll))
  {
    var url := w.queue[0];
    var got := if Fetches(site, url) then [SkinRecord(base, url, site.pages(url), site.md5, site.now)] else [];
    var lost := if Fetches(site, url) then [] else [url];
    PollFields(base, site, w);
    ScrapedSnoc(base, site, w.taken, url);
    AppendAssoc(s.data, ScrapedRecords(base, site, w.taken), got);
    AppendAssoc(s.failed, FailedFetches(site, w.taken), lost);
  }

  /** Reading one more event keeps the queue accounts. */
  lemma StepQueue(base: string, site: Site, events: seq<WorkerEvent>, s: Worker, w: Worker)
    requires QueueAccounts(events, s, w)
    requires w.exit.None? && w.processed < |events|
    ensures QueueAccounts(events, s, WorkerStep(base, site, w, events[w.processed]))
  {
    ReadOneMore(events, w.processed);
    match events[w.processed] {
      case Arrive(u) =>
        AppendAssoc(s.queue, Arrivals(events[..w.processed]), [u]);
        AppendAssoc(w.taken, w.queue, [u]);
      case DiscoveryDone =>
      case Poll =>
        if w.queue != [] {
          Dequeue(w.taken, w.queue);
        }
    }
  }

  /** Reading one more event keeps the record accounts. */
  lemma StepRecords(base: string, site: Site, events: seq<WorkerEvent>, s: Worker, w: Worker)
    requires RecordAccounts(base, site, s, w)
    requires w.processed < |events|
    ensures RecordAccounts(base, site, s, WorkerStep(base, site, w, events[w.processed]))
  {
    if events[w.processed] == Poll && w.queue != [] {
      DequeueRecords(base, site, s, w);
    }
  }

  /** Reading one more event keeps the counts of the discovery thread's events and the exit conditions. */
  lemma StepEvents(base: string, site: Site, events: seq<WorkerEvent>, s: Worker, w: Worker)
    requires w.processed < |events| && w.exit.None?
    requires EventAccounts(events, s, w) && ExitAccounts(events, w)
    ensures var w' := WorkerStep(base, site, w, events[w.processed]);
      w'.processed <= |events| && EventAccounts(events, s, w') && ExitAccounts(events, w')
  {
    ReadOneMore(events, w.processed);
  }

  /** Reading one more event keeps the accounts. */
  lemma StepAccounts(base: string, site: Site, events: seq<WorkerEvent>, s: Worker, w: Worker)
    requires Accounts(base, site, events, s, w)
    requires w.exit.None? && w.processed < |events|
    ensures Accounts(base, site, events, s, WorkerStep(base, site, w, events[w.processed]))
  {
    StepQueue(base, site, events, s, w);
    StepRecords(base, site, events, s, w);
    StepEvents(base, site, events, s, w);
  }

  /** A whole run keeps the accounts, and ends early only on an exit. */
  lemma {:induction false} WorkerFromAccounts(base: string, site: Site, events: seq<WorkerEvent>, s: Worker, w: Worker)
    requires Accounts(base, site, events, s, w)
    ensures var r := WorkerFrom(base, site, events, w);
      Accounts(base, site, events, s, r) && (r.exit.None? ==> r.processed == |events|)
    decreases |events| - w.processed
  {
    if w.exit.None? && w.processed < |events| {
      StepAccounts(base, site, events, s, w);
      WorkerFromAccounts(base, site, events, s, WorkerStep(base, site, w, events[w.processed]));
    }
  }

  /** The loop of `scraping_worker` over a script of queue events. */
  method ScrapeLoop(base: string, events: seq<WorkerEvent>, site: Site,
                    queue0: seq<string>, data0: seq<Record>, failed0: seq<string>, stats0: Stats)
    returns (w: Worker)
    ensures w == WorkerFrom(base, site, events, Start(queue0, data0, failed0, stats0))
  {
    w := Start(queue0, data0, failed0, stats0);
    while w.exit.None? && w.processed < |events|
      invariant WorkerFrom(base, site, events, w) == WorkerFrom(base, site, events, Start(queue0, data0, failed0, stats0))
      decreases |events| - w.processed
    {
      ghost var next := WorkerStep(base, site, w, events[w.processed]);
      match events[w.processed] {
        case Arrive(u) =>
          w := w.(queue := w.queue + [u], stats := w.stats.(discoveredCount := w.stats.discoveredCount + 1));
        case DiscoveryDone =>
          w := w.(stats := w.stats.(discoveryComplete := true));
        case Poll =>
          if w.queue != [] {
            var url := w.queue[0];
            var data, failed, stats := ScrapeOne(base, site, url, w.data, w.failed, w.stats);
            w := w.(queue := w.queue[1..], taken := w.taken + [url], acks := w.acks + 1, emptyStreak := 0,
                    data := data, failed := failed, stats := stats);
          } else {
            var (n, decision) := OnEmpty(w.emptyStreak, w.stats.discoveryComplete, |w.queue|);
            w := w.(emptyStreak := n, exit := decision);
          }
      }
      w := w.(processed := w.processed + 1);
      assert w == next;
    }
  }

  /** The monitor loop of `scrape_all_skins_parallel` over the snapshots it
      reads, from the start time it finds; returns the number of rounds, how
      it ended, how often it restarted the workers and the start time it leaves. */
  method MonitorLoop(start0: Option<int>, snaps: seq<Snapshot>) returns (rounds: nat, end: MonitorEnd, restarts: nat, start: Option<int>)
    ensures (rounds, end, restarts) == MonitorRun(MonitorState(0, 0, 0), start0, snaps)
    ensures start
      == if start0.None? && rounds >= 1 && !(rounds == 1 && end == Completed) then Some(snaps[0].now)
         else start0
  {
    start := start0;
    var st := MonitorState(0, 0, 0);
    var k := 0;
    restarts := 0;
    ghost var total := MonitorRun(st, start0, snaps);
    ghost var rest := total;
    assert snaps[0..] == snaps;
    while k < |snaps|
      invariant k <= |snaps|
      invariant rest == MonitorRun(st, start, snaps[k..])
      invariant total.0 == k + rest.0 && total.1 == rest.1 && total.2 == restarts + rest.2
      invariant start == if start0.None? && k >= 1 then Some(snaps[0].now) else start0
    {
      var s := snaps[k];
      var (next, action) := MonitorRound(st, s);
      MonitorRunStops(st, start, snaps, k, next, action);
      if action == Done {
        return k + 1, Completed, restarts, start;
      }
      if action == RestartWorkers {
        restarts := restarts + 1;
      }
      ghost var start1 := start;
      if start.Some? {
        if s.now - start.value > MaxSeconds {
          return k + 1, OutOfTime, restarts, start;
        }
      } else {
        start := Some(s.now);
      }
      MonitorRunContinues(st, start1, snaps, k, next, action, start);
      rest := MonitorRun(next, start, snaps[k + 1..]);
      st := next;
      k := k + 1;
    }
    return k, SnapshotsExhausted, restarts, start;
  }

  /** The loop of `remove_duplicates`: the first record of each non-empty content hash, in order. */
  method FirstByHash(data: seq<Record>) returns (unique: seq<Record>)
    ensures unique == UniqueByHash(data)
  {
    var seenHashes: set<string> := {};
    unique := [];
    var k := 0;
    while k < |data|
      invariant k <= |data|
      invariant unique == KeepFirst(data[..k], HashOf, NonEmpty)
      invariant seenHashes == KeySet(unique, HashOf)
    {
      var item := data[k];
      assert data[..k + 1] == data[..k] + [item];
      KeepFirstSnoc(data[..k], item, HashOf, NonEmpty);
      var contentHash := Get(item, "content_hash");
      if contentHash != "" && contentHash !in seenHashes {
        KeySetSnoc(unique, item, HashOf);
        seenHashes := seenHashes + {contentHash};
        unique := unique + [item];
      }
      k := k + 1;
    }
    assert data[..k] == data;
  }

  /** The loop of `clean_data`: records without a name or a URL are
      dropped, and every value of the others is cleaned. */
  method CleanList(data: seq<Record>) returns (cleaned: seq<Record>)
    ensures cleaned == CleanAll(data)
  {
    cleaned := [];
    var k := 0;
    while k < |data|
      invariant k <= |data|
      invariant cleaned == KeepComplete(data[..k], CleanRecord)
    {
      var item := data[k];
      KeepCompleteStep(data, k, CleanRecord);
      if Get(item, "name") == "" || Get(item, "url") == "" {
        k := k + 1;
        continue;
      }
      var c := CleanFields(item, CleanText);
      assert c == CleanRecord(item);
      cleaned := cleaned + [c];
      k := k + 1;
    }
    assert data[..k] == data;
  }

  class RainmeterScraper {
    const baseUrl: string
    var scrapedData: seq<Record>
    var seenUrls: set<string>
    var failedUrls: seq<string>
    /** The contents of `discovered_urls`, oldest first. */
    var queue: seq<string>
    var stats: Stats
    /** `_comprehensive_urls_generated`: set once, never cleared. */
    var comprehensiveGenerated: bool
    /** `start_time`: set by the first monitor round that reaches the clock test, never cleared. */
    var startTime: Option<int>

    constructor(base: string)
      ensures baseUrl == base
      ensures scrapedData == [] && seenUrls == {} && failedUrls == [] && queue == []
      ensures stats == Stats(0, 0, Some(0), false)
      ensures !comprehensiveGenerated && startTime == None
    {
      baseUrl := base;
      scrapedData := [];
      seenUrls := {};
      failedUrls := [];
      queue := [];
      stats := Stats(0, 0, Some(0), false);
      comprehensiveGenerated := false;
      startTime := None;
    }

    /** `get_page(url, retries)`; `outcomes[a]` says whether attempt `a` succeeds. */
    method GetPage(url: string, retries: int, outcomes: seq<bool>) returns (r: Fetch)
      modifies this`failedUrls, this`stats
      ensures var e := GetPageSpec(url, retries, outcomes, old(failedUrls), old(stats));
        r == e.result && failedUrls == e.failedUrls && stats == e.stats
    {
      r, failedUrls, stats := FetchPage(url, retries, outcomes, failedUrls, stats);
    }

    /** `extract_skin_links_worker(target)` on the already parsed listing page. */
    method ExtractSkinLinks(target: string, page: ListingPage, outcomes: seq<bool>) returns (links: seq<string>)
      modifies this`seenUrls, this`failedUrls, this`stats
      ensures var e := GetPageSpec(target, 3, outcomes, old(failedUrls), old(stats));
        failedUrls == e.failedUrls && stats == e.stats
        && (e.result.Response? ==>
              links == LinksFound(baseUrl, target, page, old(seenUrls))
              && seenUrls == old(seenUrls) + Elements(links))
        && (!e.result.Response? ==> links == [] && seenUrls == old(seenUrls))
    {
      var st;
      links, st := LinkWorker(baseUrl, target, page, outcomes, LinkState(seenUrls, failedUrls, stats));
      seenUrls, failedUrls, stats := st.seen, st.failed, st.stats;
    }

    /** `extract_skin_details(url)` on the already parsed skin page. */
    method ExtractSkinDetails(url: string, page: SkinPage, outcomes: seq<bool>, md5: string -> string, now: string)
      returns (d: DetailsOutcome)
      modifies this`failedUrls, this`stats
      ensures var e := GetPageSpec(url, 3, outcomes, old(failedUrls), old(stats));
        failedUrls == e.failedUrls && stats == e.stats
        && (e.result.Response? ==> d == Scraped(SkinRecord(baseUrl, url, page, md5, now)))
        && (e.result == NoResponse ==> d == NoRecord)
        && (e.result == KeyErrorRaised ==> d == DetailsRaised)
    {
      d, failedUrls, stats := SkinDetails(baseUrl, url, page, outcomes, md5, now, failedUrls, stats);
    }

    /** `discovery_worker(category_urls, max_urls)` over the listing pages
        of `site`, with `maxUrls` 0 standing for None. The first call adds
        the comprehensive URL list to the targets. The link workers of the
        batches the loop reaches run in submission order: the queue gets
        what the batch loop takes from their results, the seen set and the
        failure list what the workers left. Every URL put on the queue is
        new: none twice, none seen before. */
    method DiscoveryWorker(categoryUrls: seq<string>, maxUrls: int, site: Listings)
      modifies this`queue, this`stats, this`comprehensiveGenerated, this`seenUrls, this`failedUrls
      ensures var targets := categoryUrls + (if old(comprehensiveGenerated) then [] else DiscoverComprehensiveUrls(baseUrl));
        var st0 := LinkState(old(seenUrls), old(failedUrls), old(stats));
        var run := Control.Discovery(|targets|, LinkRun(baseUrl, site, targets, |targets|, st0).0, maxUrls);
        var after := LinkRun(baseUrl, site, targets, VisitedTargets(|targets|, run.batches), st0).1;
        queue == old(queue) + run.enqueued
        && seenUrls == after.seen && failedUrls == after.failed
        && stats == after.stats.(discoveredCount := old(stats.discoveredCount) + |run.enqueued|, discoveryComplete := true)
      ensures comprehensiveGenerated
      ensures |old(queue)| <= |queue|
      ensures KeysDistinct(queue[|old(queue)|..], Id)
      ensures forall u :: u in queue[|old(queue)|..] ==> u !in old(seenUrls)
      ensures old(failedUrls) <= failedUrls && old(seenUrls) <= seenUrls
      ensures stats.scrapedCount == old(stats.scrapedCount)
      ensures stats.failedCount.Some? <==> old(stats.failedCount).Some?
    {
      var targets := DiscoveryTargets(categoryUrls, baseUrl, comprehensiveGenerated);
      comprehensiveGenerated := true;
      ghost var q0 := queue;
      var st0 := LinkState(seenUrls, failedUrls, stats);
      var q, total, st := DiscoveryLoop(baseUrl, site, targets, queue, maxUrls, st0);
      ghost var run := Control.Discovery(|targets|, LinkRun(baseUrl, site, targets, |targets|, st0).0, maxUrls);
      DiscoveryEnqueuesFreshLinks(baseUrl, site, targets, st0, maxUrls);
      LinkRunFresh(baseUrl, site, targets, VisitedTargets(|targets|, run.batches), st0);
      queue := q;
      seenUrls, failedUrls := st.seen, st.failed;
      stats := st.stats.(discoveredCount := stats.discoveredCount + total, discoveryComplete := true);
      assert queue[|q0|..] == run.enqueued;
    }

    /** `scraping_worker` over a script of queue events. It returns how the
        loop ended (None when the script ran out first), how many events it
        read, the URLs it dequeued, how many it acknowledged and its final
        count of consecutive Empty results. */
    method ScrapingWorker(events: seq<WorkerEvent>, site: Site)
      returns (exit: Option<WorkerExit>, processed: nat, taken: seq<string>, acks: nat, emptyStreak: nat)
      modifies this`queue, this`stats, this`scrapedData, this`failedUrls
      ensures processed <= |events|
      ensures exit.None? ==> processed == |events| && emptyStreak < MaxConsecutiveEmpty
      ensures exit.Some? ==> processed >= 1 && events[processed - 1] == Poll && queue == []
      ensures exit == Some(QueueDrained) ==> stats.discoveryComplete
      ensures exit == Some(TimedOut) ==> !stats.discoveryComplete && emptyStreak == MaxConsecutiveEmpty
      ensures acks == |taken|
      ensures old(queue) + Arrivals(events[..processed]) == taken + queue
      ensures scrapedData == old(scrapedData) + ScrapedRecords(baseUrl, site, taken)
      ensures stats.scrapedCount == old(stats.scrapedCount) + |ScrapedRecords(baseUrl, site, taken)|
      ensures failedUrls == old(failedUrls) + FailedFetches(site, taken)
      ensures stats.failedCount.Some? <==> old(stats.failedCount).Some?
      ensures stats.failedCount.Some? ==> stats.failedCount.value == old(stats.failedCount).value + |FailedFetches(site, taken)|
      ensures stats.discoveredCount == old(stats.discoveredCount) + |Arrivals(events[..processed])|
      ensures stats.discoveryComplete <==> old(stats.discoveryComplete) || DiscoveryDone in events[..processed]
    {
      var s := Start(queue, scrapedData, failedUrls, stats);
      var w := ScrapeLoop(baseUrl, events, site, queue, scrapedData, failedUrls, stats);
      StartAccounts(baseUrl, site, events, s);
      WorkerFromAccounts(baseUrl, site, events, s, s);
      exit, processed, taken, acks, emptyStreak := w.exit, w.processed, w.taken, w.acks, w.emptyStreak;
      queue, scrapedData, failedUrls, stats := w.queue, w.data, w.failed, w.stats;
    }

    /** The monitor loop of `scrape_all_skins_parallel` over the snapshots it
        reads; returns the number of rounds, how it ended and how often it
        restarted the workers. */
    method Monitor(snaps: seq<Snapshot>) returns (rounds: nat, end: MonitorEnd, restarts: nat)
      modifies this`startTime
      ensures (rounds, end, restarts) == MonitorRun(MonitorState(0, 0, 0), old(startTime), snaps)
      ensures startTime
        == if old(startTime).None? && rounds >= 1 && !(rounds == 1 && end == Completed) then Some(snaps[0].now)
           else old(startTime)
    {
      rounds, end, restarts, startTime := MonitorLoop(startTime, snaps);
    }

    /** The reset at the start of `scrape_all_skins_parallel`, as written:
        the new stats lack `failed_count`, and the failure list, the queue,
        the comprehensive-list flag and the start time are kept. */
    method ResetForRun()
      modifies this`stats, this`scrapedData, this`seenUrls
      ensures stats == ResetStats && scrapedData == [] && seenUrls == {}
    {
      stats := ResetStats;
      scrapedData := [];
      seenUrls := {};
    }

    /** The reset as evidently intended: a zero failure count and an empty
        failure list. */
    method ResetForRunCorrected()
      modifies this`stats, this`scrapedData, this`seenUrls, this`failedUrls
      ensures stats == FreshStats && scrapedData == [] && seenUrls == {} && failedUrls == []
    {
      stats := FreshStats;
      scrapedData := [];
      seenUrls := {};
      failedUrls := [];
    }

    /** `remove_duplicates`; returns the number it logs as removed. */
    method RemoveDuplicates() returns (removed: int)
      modifies this`scrapedData
      ensures scrapedData == UniqueByHash(old(scrapedData))
      ensures removed == |old(scrapedData)| - |scrapedData|
    {
      var unique := FirstByHash(scrapedData);
      removed := |scrapedData| - |unique|;
      scrapedData := unique;
    }

    /** `clean_data`, as written: it cleans the list and returns nothing. */
    method CleanData()
      modifies this`scrapedData
      ensures scrapedData == CleanAll(old(scrapedData))
    {
      scrapedData := CleanList(scrapedData);
    }

    /** `clean_data` as evidently intended: the same cleaning, and the cleaned list is returned. */
    method CleanDataCorrected() returns (cleaned: seq<Record>)
      modifies this`scrapedData
      ensures cleaned == scrapedData == CleanAll(old(scrapedData))
      ensures forall i, k :: 0 <= i < |cleaned| && k in cleaned[i] ==> AllAscii(cleaned[i][k])
    {
      CleanData();
      cleaned := scrapedData;
      CleanAllAscii(old(scrapedData));
    }

    /** The discovery thread of `scrape_all_skins_parallel`: the seed URLs
        of `discover_categories`, then `discovery_worker` over them. It only
        appends to the queue, and what it appends is new: no URL twice, none
        seen before. Discovery completes, failures are only appended, and the
        failure count stays present or absent as it was. */
    method RunDiscovery(maxPages: int, listings: Listings) returns (ghost enqueued: seq<string>)
      modifies this`queue, this`stats, this`comprehensiveGenerated, this`seenUrls, this`failedUrls
      ensures enqueued
        == DiscoveredLinks(baseUrl, listings, RunTargets(baseUrl, old(comprehensiveGenerated)),
                           LinkState(old(seenUrls), old(failedUrls), old(stats)), maxPages)
      ensures queue == old(queue) + enqueued
      ensures KeysDistinct(enqueued, Id) && forall u :: u in enqueued ==> u !in old(seenUrls)
      ensures stats.discoveredCount == old(stats.discoveredCount) + |enqueued| && stats.discoveryComplete
      ensures stats.scrapedCount == old(stats.scrapedCount)
      ensures stats.failedCount.Some? <==> old(stats.failedCount).Some?
      ensures old(failedUrls) <= failedUrls
    {
      var seeds := SeedUrls(baseUrl);
      ghost var q0 := queue;
      DiscoveryWorker(seeds, maxPages, listings);
      enqueued := queue[|q0|..];
      assert queue == q0 + enqueued;
    }

    /** The scraping worker over a script with no arrivals of its own,
        then the monitor: the worker takes a prefix of the queue and scrapes
        exactly those URLs; failures are only appended, the failure count
        stays present or absent as it was, and the discovery fields are as
        discovery left them. */
    method ScrapeQueued(events: seq<WorkerEvent>, site: Site, snaps: seq<Snapshot>) returns (taken: seq<string>)
      requires Arrivals(events) == []
      modifies this`queue, this`stats, this`scrapedData, this`failedUrls, this`startTime
      ensures taken + queue == old(queue)
      ensures scrapedData == old(scrapedData) + ScrapedRecords(baseUrl, site, taken)
      ensures stats.scrapedCount == old(stats.scrapedCount) + |ScrapedRecords(baseUrl, site, taken)|
      ensures stats.discoveredCount == old(stats.discoveredCount)
      ensures old(stats.discoveryComplete) ==> stats.discoveryComplete
      ensures stats.failedCount.Some? <==> old(stats.failedCount).Some?
      ensures old(failedUrls) <= failedUrls
    {
      var exit, processed, acks, emptyStreak;
      exit, processed, taken, acks, emptyStreak := ScrapingWorker(events, site);
      ArrivalsPrefix(events, processed);
      assert Arrivals(events[..processed]) == [];
      assert old(queue) + [] == old(queue);
      var rounds, end, restarts := Monitor(snaps);
    }

    /** The workers of one run, in order: discovery from the seed URLs,
        one scraping worker, then the monitor; the script of the scraping
        worker holds no arrivals of its own, so its URLs are the ones
        discovery queued. It returns the URLs the worker took: a prefix of
        the old queue followed by the newly discovered URLs, each of which
        is new, and the records scraped from exactly those. Discovery always
        completes, failures are only ever appended, and the failure count
        stays present or absent as it was. */
    method RunWorkers(maxPages: int, listings: Listings, events: seq<WorkerEvent>, site: Site, snaps: seq<Snapshot>)
      returns (taken: seq<string>, ghost enqueued: seq<string>)
      requires Arrivals(events) == []
      modifies this`queue, this`stats, this`comprehensiveGenerated, this`seenUrls, this`scrapedData, this`failedUrls, this`startTime
      ensures enqueued
        == DiscoveredLinks(baseUrl, listings, RunTargets(baseUrl, old(comprehensiveGenerated)),
                           LinkState(old(seenUrls), old(failedUrls), old(stats)), maxPages)
      ensures taken + queue == old(queue) + enqueued
      ensures KeysDistinct(enqueued, Id) && forall u :: u in enqueued ==> u !in old(seenUrls)
      ensures scrapedData == old(scrapedData) + ScrapedRecords(baseUrl, site, taken)
      ensures stats.scrapedCount == old(stats.scrapedCount) + |ScrapedRecords(baseUrl, site, taken)|
      ensures stats.discoveredCount == old(stats.discoveredCount) + |enqueued|
      ensures stats.discoveryComplete
      ensures stats.failedCount.Some? <==> old(stats.failedCount).Some?
      ensures old(failedUrls) <= failedUrls
    {
      enqueued := RunDiscovery(maxPages, listings);
      ghost var failed1 := failedUrls;
      taken := ScrapeQueued(events, site, snaps);
      assert failed1 <= failedUrls;
    }

    /** `scrape_all_skins_parallel`, run in one order: reset, discovery from
        the seeds, one scraping worker, the monitor, then cleaning. As
        written it returns what `clean_data` returns: nothing. Discovery
        starts from an empty seen set but from the failure list and the
        queue the previous run left; the scraped list holds the cleaned
        records of exactly the URLs the worker took, and the failure count
        is missing. */
    method ScrapeAllSkinsParallel(maxPages: int, listings: Listings, events: seq<WorkerEvent>, site: Site, snaps: seq<Snapshot>)
      returns (r: Option<seq<Record>>, taken: seq<string>, ghost enqueued: seq<string>)
      requires Arrivals(events) == []
      modifies this
      ensures r == None
      ensures enqueued
        == DiscoveredLinks(baseUrl, listings, RunTargets(baseUrl, old(comprehensiveGenerated)),
                           LinkState({}, old(failedUrls), ResetStats), maxPages)
      ensures taken + queue == old(queue) + enqueued
      ensures scrapedData == CleanAll(ScrapedRecords(baseUrl, site, taken))
      ensures stats.scrapedCount == |ScrapedRecords(baseUrl, site, taken)|
      ensures stats.discoveredCount == |enqueued|
      ensures stats.discoveryComplete && stats.failedCount == None
      ensures old(failedUrls) <= failedUrls
    {
      taken, enqueued := ResetAndRun(maxPages, listings, events, site, snaps);
      CleanData();
      r := None;
    }

    /** The reset of `scrape_all_skins_parallel` followed by the workers. */
    method ResetAndRun(maxPages: int, listings: Listings, events: seq<WorkerEvent>, site: Site, snaps: seq<Snapshot>)
      returns (taken: seq<string>, ghost enqueued: seq<string>)
      requires Arrivals(events) == []
      modifies this`queue, this`stats, this`comprehensiveGenerated, this`seenUrls, this`scrapedData, this`failedUrls, this`startTime
      ensures enqueued
        == DiscoveredLinks(baseUrl, listings, RunTargets(baseUrl, old(comprehensiveGenerated)),
                           LinkState({}, old(failedUrls), ResetStats), maxPages)
      ensures taken + queue == old(queue) + enqueued
      ensures scrapedData == ScrapedRecords(baseUrl, site, taken)
      ensures stats.scrapedCount == |ScrapedRecords(baseUrl, site, taken)|
      ensures stats.discoveredCount == |enqueued|
      ensures stats.discoveryComplete && stats.failedCount == None
      ensures old(failedUrls) <= failedUrls
    {
      ResetForRun();
      taken, enqueued := RunWorkers(maxPages, listings, events, site, snaps);
      assert scrapedData == [] + ScrapedRecords(baseUrl, site, taken);
    }

    /** The same run with the corrected reset and cleaning: discovery starts
        from an empty seen set and failure list; the cleaned list is
        returned, it holds the cleaned records of exactly the URLs the
        worker took, every value in it is ASCII, and the failure count stays
        a number. */
    method ScrapeAllSkinsParallelCorrected(maxPages: int, listings: Listings, events: seq<WorkerEvent>, site: Site, snaps: seq<Snapshot>)
      returns (r: Option<seq<Record>>, taken: seq<string>, ghost enqueued: seq<string>)
      requires Arrivals(events) == []
      modifies this
      ensures enqueued
        == DiscoveredLinks(baseUrl, listings, RunTargets(baseUrl, old(comprehensiveGenerated)),
                           LinkState({}, [], FreshStats), maxPages)
      ensures taken + queue == old(queue) + enqueued
      ensures r == Some(scrapedData)
      ensures scrapedData == CleanAll(ScrapedRecords(baseUrl, site, taken))
      ensures forall i, k :: 0 <= i < |scrapedData| && k in scrapedData[i] ==> AllAscii(scrapedData[i][k])
      ensures stats.scrapedCount == |ScrapedRecords(baseUrl, site, taken)|
      ensures stats.discoveredCount == |enqueued|
      ensures stats.discoveryComplete && stats.failedCount.Some?
    {
      taken, enqueued := FreshResetAndRun(maxPages, listings, events, site, snaps);
      var cleaned := CleanDataCorrected();
      r := Some(cleaned);
    }

    /** The corrected reset followed by the workers. */
    method FreshResetAndRun(maxPages: int, listings: Listings, events: seq<WorkerEvent>, site: Site, snaps: seq<Snapshot>)
      returns (taken: seq<string>, ghost enqueued: seq<string>)
      requires Arrivals(events) == []
      modifies this`queue, this`stats, this`comprehensiveGenerated, this`seenUrls, this`scrapedData, this`failedUrls, this`startTime
      ensures enqueued
        == DiscoveredLinks(baseUrl, listings, RunTargets(baseUrl, old(comprehensiveGenerated)),
                           LinkState({}, [], FreshStats), maxPages)
      ensures taken + queue == old(queue) + enqueued
      ensures scrapedData == ScrapedRecords(baseUrl, site, taken)
      ensures stats.scrapedCount == |ScrapedRecords(baseUrl, site, taken)|
      ensures stats.discoveredCount == |enqueued|
      ensures stats.discoveryComplete && stats.failedCount.Some?
    {
      ResetForRunCorrected();
      taken, enqueued := RunWorkers(maxPages, listings, events, site, snaps);
      assert scrapedData == [] + ScrapedRecords(baseUrl, site, taken);
    }
  }
}
