/**
 * The decision rules of the scraper's control loops, as functions of
 * their inputs: `get_page`'s retry accounting, the batch loop of
 * `discovery_worker`, the exit rule of `scraping_worker` and the stall
 * detection of the monitor loop.
 */
module Control {
  import opened Wrappers
  import opened Seqs

  /** `processing_stats`; `failedCount` is None once a reset has dropped the key. */
  datatype Stats = Stats(discoveredCount: int, scrapedCount: int, failedCount: Option<int>, discoveryComplete: bool)

  /** What `get_page` hands back: the response of a successful attempt,
      None, or the KeyError raised when `failed_count` is missing. */
  datatype Fetch = Response(attempt: nat) | NoResponse | KeyErrorRaised

  /** The first attempt below `retries` that succeeds; an attempt without a
      scripted outcome fails. */
  function FirstSuccess(outcomes: seq<bool>, retries: int, from: nat): (r: Option<nat>)
    ensures r.Some? ==> from <= r.value < retries && r.value < |outcomes| && outcomes[r.value]
    ensures forall j :: from <= j < retries && j < |outcomes| && (r.None? || j < r.value) ==> !outcomes[j]
    decreases if retries < from then 0 else retries - from
  {
    if from >= retries then None
    else if from < |outcomes| && outcomes[from] then Some(from)
    else FirstSuccess(outcomes, retries, from + 1)
  }

  /** The outcome and the bookkeeping of one `get_page` call. */
  datatype FetchEffect = FetchEffect(result: Fetch, failedUrls: seq<string>, stats: Stats)

  /** `get_page(url, retries)` on the scripted attempt outcomes, from the
      given failure list and stats. */
  function GetPageSpec(url: string, retries: int, outcomes: seq<bool>, failed: seq<string>, stats: Stats): FetchEffect
  {
    match FirstSuccess(outcomes, retries, 0)
    case Some(i) => FetchEffect(Response(i), failed, stats)
    case None =>
      if retries <= 0 then FetchEffect(NoResponse, failed, stats)
      else match stats.failedCount
        case None => FetchEffect(KeyErrorRaised, failed + [url], stats)
        case Some(n) => FetchEffect(NoResponse, failed + [url], stats.(failedCount := Some(n + 1)))
  }

  /** A success records nothing, and comes from the first successful attempt. */
  lemma GetPageSuccess(url: string, retries: int, outcomes: seq<bool>, failed: seq<string>, stats: Stats, i: nat)
    requires i < retries && i < |outcomes| && outcomes[i]
    requires forall j :: 0 <= j < i && j < |outcomes| ==> !outcomes[j]
    ensures GetPageSpec(url, retries, outcomes, failed, stats) == FetchEffect(Response(i), failed, stats)
  {
    var r := FirstSuccess(outcomes, retries, 0);
    if r.None? || r.value > i {
      assert false;
    }
  }

  /** When every attempt fails, the url is recorded exactly once and the
      failure count rises by one; with the count missing, the url is still
      recorded and then the KeyError is raised. */
  lemma GetPageFailure(url: string, retries: int, outcomes: seq<bool>, failed: seq<string>, stats: Stats)
    requires retries >= 1
    requires forall j :: 0 <= j < retries && j < |outcomes| ==> !outcomes[j]
    ensures var e := GetPageSpec(url, retries, outcomes, failed, stats);
      e.failedUrls == failed + [url]
      && (stats.failedCount.Some? ==> e.result == NoResponse && e.stats == stats.(failedCount := Some(stats.failedCount.value + 1)))
      && (stats.failedCount.None? ==> e.result == KeyErrorRaised && e.stats == stats)
  {
    var r := FirstSuccess(outcomes, retries, 0);
    assert r.None?;
  }

  /** No attempts: nothing is fetched and nothing is recorded. */
  lemma GetPageNoAttempts(url: string, retries: int, outcomes: seq<bool>, failed: seq<string>, stats: Stats)
    requires retries <= 0
    ensures GetPageSpec(url, retries, outcomes, failed, stats) == FetchEffect(NoResponse, failed, stats)
  {
  }

  /** Only the failure list grows, by at most the one url; the counts other
      than `failed_count` never change. */
  lemma GetPageFrame(url: string, retries: int, outcomes: seq<bool>, failed: seq<string>, stats: Stats)
    ensures var e := GetPageSpec(url, retries, outcomes, failed, stats);
      (e.failedUrls == failed || e.failedUrls == failed + [url])
      && e.stats.discoveredCount == stats.discoveredCount && e.stats.scrapedCount == stats.scrapedCount
      && e.stats.discoveryComplete == stats.discoveryComplete
      && (e.result.Response? ==> e.result.attempt < retries)
  {
  }

  // ----- discovery_worker -----

  const BatchSize: nat := 25
  const MaxStagnantBatches: nat := 8
  const EarlyStopTotal: nat := 500
  const EarlyStopBatchesLeft: nat := 50

  /** `max_urls` is truthy: neither None nor 0 (None is passed as 0). */
  predicate Capped(cap: int)
  {
    cap != 0
  }

  /** How many of one worker's links are put: all of them, unless the
      running total reaches 2·cap first, in which case the link that reaches
      it is the last (the test follows the put, so at least one is put). */
  function TakeCount(links: seq<string>, total: int, cap: int): (k: nat)
    ensures k <= |links|
  {
    if links == [] then 0
    else if Capped(cap) && total + |links| >= cap * 2 then
      (if total + 1 >= cap * 2 then 1 else cap * 2 - total)
    else |links|
  }

  /** The first `n` links of `xs`, or all of them when there are fewer. */
  function Take(xs: seq<string>, n: int): (r: seq<string>)
    decreases |xs|
  {
    if n <= 0 || xs == [] then [] else [xs[0]] + Take(xs[1..], n - 1)
  }

  lemma {:induction false} TakeIsPrefix(xs: seq<string>, n: int)
    requires n >= 0
    ensures Take(xs, n) == if n < |xs| then xs[..n] else xs
    decreases |xs|
  {
    if n > 0 && xs != [] {
      TakeIsPrefix(xs[1..], n - 1);
      if n < |xs| {
        assert [xs[0]] + xs[1..][..n - 1] == xs[..n];
      } else {
        assert [xs[0]] + xs[1..] == xs;
      }
    }
  }

  /** How many links one batch may put: all of them with no cap; with the
      total already at 2·cap (possible only for a negative cap) the first
      link of the first result, if that result has one; else up to 2·cap. */
  function BatchLimit(results: seq<seq<string>>, total: int, cap: int): nat
  {
    if !Capped(cap) then |Flatten(results)|
    else if total >= cap * 2 then (if results != [] && results[0] != [] then 1 else 0)
    else cap * 2 - total
  }

  /** The links one batch puts on the queue, worker results in completion
      order: everything, unless the running total reaches 2·cap, in which
      case the queue gets the links up to the one that reaches it. */
  function BatchEnqueue(results: seq<seq<string>>, total: int, cap: int): (e: seq<string>)
  {
    Take(Flatten(results), BatchLimit(results, total, cap))
  }

  /** A batch puts a prefix of its flattened results. */
  lemma BatchEnqueuePrefix(results: seq<seq<string>>, total: int, cap: int)
    ensures var all, n := Flatten(results), BatchLimit(results, total, cap);
      BatchEnqueue(results, total, cap) == if n < |all| then all[..n] else all
  {
    TakeIsPrefix(Flatten(results), BatchLimit(results, total, cap));
  }

  /** The links the worker for target `k` returned ([] when none is scripted). */
  function YieldAt(returned: seq<seq<string>>, k: nat): seq<string>
  {
    if k < |returned| then returned[k] else []
  }

  /** The results of the targets `lo..hi`. */
  function BatchResults(returned: seq<seq<string>>, lo: nat, hi: nat): (r: seq<seq<string>>)
    requires lo <= hi
    ensures |r| == hi - lo
    ensures forall j :: 0 <= j < |r| ==> r[j] == YieldAt(returned, lo + j)
    decreases hi - lo
  {
    if lo == hi then [] else [YieldAt(returned, lo)] + BatchResults(returned, lo + 1, hi)
  }

  /** Whether the batch loop stops after a batch that enqueued `found` URLs. */
  predicate StopsAfter(targets: nat, i: nat, total: int, stagnant: int, found: nat, cap: int)
  {
    stagnant >= MaxStagnantBatches as int
    || (Capped(cap) && total >= cap)
    || (total >= EarlyStopTotal as int && (targets - i) / BatchSize > EarlyStopBatchesLeft as int && found * 50 < BatchSize)
  }

  /** The URLs a run puts on the queue, and the number of batches it reads. */
  datatype DiscoveryRun = DiscoveryRun(enqueued: seq<string>, batches: nat)

  /** The end of the batch that starts at target `i`. */
  function BatchEnd(targets: nat, i: nat): (hi: nat)
    ensures i <= hi
  {
    if i + BatchSize < targets then i + BatchSize else if i < targets then targets else i
  }

  /** What the batch starting at target `i` puts on the queue, given the running total. */
  function BatchFound(targets: nat, returned: seq<seq<string>>, cap: int): (nat, int) -> seq<string>
  {
    (i: nat, total: int) => BatchEnqueue(BatchResults(returned, i, BatchEnd(targets, i)), total, cap)
  }

  /** What the batch at `i` puts, read off `BatchFound`. */
  lemma BatchFoundAt(targets: nat, returned: seq<seq<string>>, cap: int, i: nat, total: int, hi: nat)
    requires i < targets && hi == if i + BatchSize < targets then i + BatchSize else targets
    ensures BatchFound(targets, returned, cap)(i, total) == BatchEnqueue(BatchResults(returned, i, hi), total, cap)
  {
  }

  /** The batch loop from target `i`, with the running total and the
      stagnation count; `found(i, total)` is what the batch at `i` puts. */
  function DiscoveryFrom(targets: nat, found: (nat, int) -> seq<string>, i: nat, total: int, stagnant: int, cap: int): (r: DiscoveryRun)
    decreases targets - i
  {
    if i >= targets then DiscoveryRun([], 0)
    else
      var f := found(i, total);
      var total' := total + |f|;
      var stagnant' := if |f| == 0 then stagnant + 1 else 0;
      var rest := if StopsAfter(targets, i, total', stagnant', |f|, cap) then DiscoveryRun([], 0)
                  else DiscoveryFrom(targets, found, i + BatchSize, total', stagnant', cap);
      DiscoveryRun(f + rest.enqueued, 1 + rest.batches)
  }

  /** A whole run of the batch loop over `targets` URLs. */
  function Discovery(targets: nat, returned: seq<seq<string>>, cap: int): DiscoveryRun
  {
    DiscoveryFrom(targets, BatchFound(targets, returned, cap), 0, 0, 0, cap)
  }

  lemma TakeCountBound(links: seq<string>, total: int, cap: int)
    requires cap > 0 && total < cap * 2
    ensures total + TakeCount(links, total, cap) <= cap * 2
  {
  }

  lemma BatchEnqueueBound(results: seq<seq<string>>, total: int, cap: int)
    requires cap > 0 && total < cap * 2
    ensures total + |BatchEnqueue(results, total, cap)| <= cap * 2
  {
    BatchEnqueuePrefix(results, total, cap);
  }

  /** Batches that each stop at 2·cap keep the whole run within 2·cap. */
  lemma {:induction false} DiscoveryFromBound(targets: nat, found: (nat, int) -> seq<string>, i: nat, total: int, stagnant: int, cap: int)
    requires cap > 0 && 0 <= total < cap
    requires forall j: nat, t :: 0 <= t < cap ==> t + |found(j, t)| <= cap * 2
    ensures total + |DiscoveryFrom(targets, found, i, total, stagnant, cap).enqueued| <= cap * 2
    decreases targets - i
  {
    if i < targets {
      var f := found(i, total);
      var total' := total + |f|;
      var stagnant' := if |f| == 0 then stagnant + 1 else 0;
      if !StopsAfter(targets, i, total', stagnant', |f|, cap) {
        DiscoveryFromBound(targets, found, i + BatchSize, total', stagnant', cap);
      }
    }
  }

  lemma TakeCountStep(links: seq<string>, j: nat, total: int, cap: int)
    requires j < |links|
    ensures TakeCount(links[j..], total, cap)
      == if Capped(cap) && total + 1 >= cap * 2 then 1 else 1 + TakeCount(links[j + 1..], total + 1, cap)
  {
    assert |links[j + 1..]| == |links[j..]| - 1;
  }

  /** One worker result consumed by the batch loop after the first `m`
      were put whole: either the total reaches 2·cap inside it and the batch
      ends there, or it is put whole too. */
  lemma BatchLoopStep(results: seq<seq<string>>, m: nat, total: int, cap: int, done: seq<string>, k: nat)
    requires m < |results|
    requires done == Flatten(results[..m])
    requires m > 0 ==> !(Capped(cap) && total + |done| >= cap * 2)
    requires k == TakeCount(results[m], total + |done|, cap)
    ensures Capped(cap) && total + |done| + k >= cap * 2 ==> done + results[m][..k] == BatchEnqueue(results, total, cap)
    ensures !(Capped(cap) && total + |done| + k >= cap * 2) ==> k == |results[m]| && done + results[m] == Flatten(results[..m + 1])
  {
    BatchEnqueuePrefix(results, total, cap);
    FlattenSnoc(results, m);
    FlattenPrefix(results, m + 1);
    if m == 0 {
      assert results[..1] == [results[0]];
      assert Flatten(results[..0]) == [];
    }
  }

  /** A batch whose results were all put whole put its whole flattening. */
  lemma BatchAllTaken(results: seq<seq<string>>, m: nat, total: int, cap: int)
    requires m == |results|
    requires m > 0 ==> !(Capped(cap) && total + |Flatten(results[..m])| >= cap * 2)
    ensures BatchEnqueue(results, total, cap) == Flatten(results[..m])
  {
    BatchEnqueuePrefix(results, total, cap);
    assert results[..m] == results;
  }

  /** One batch of the discovery loop, unfolded. */
  lemma DiscoveryFromStep(targets: nat, found: (nat, int) -> seq<string>, i: nat, total: int, stagnant: int, cap: int)
    requires i < targets
    ensures var f := found(i, total);
      var total' := total + |f|;
      var stagnant' := if |f| == 0 then stagnant + 1 else 0;
      DiscoveryFrom(targets, found, i, total, stagnant, cap).enqueued
      == f + (if StopsAfter(targets, i, total', stagnant', |f|, cap) then []
              else DiscoveryFrom(targets, found, i + BatchSize, total', stagnant', cap).enqueued)
      && DiscoveryFrom(targets, found, i, total, stagnant, cap).batches
         == 1 + (if StopsAfter(targets, i, total', stagnant', |f|, cap) then 0
                 else DiscoveryFrom(targets, found, i + BatchSize, total', stagnant', cap).batches)
  {
  }

  /** The batch loop's invariant carried over one batch: either the run
      stops after it, or the rest of the run continues from the next batch. */
  lemma DiscoveryLoopStep(targets: nat, found: (nat, int) -> seq<string>, i: nat, total: int, stagnant: int, cap: int,
                          done: seq<string>, full: seq<string>, f: seq<string>, total': int, stagnant': int, done': seq<string>)
    requires i < targets
    requires done + DiscoveryFrom(targets, found, i, total, stagnant, cap).enqueued == full
    requires f == found(i, total) && done' == done + f
    requires total' == total + |f| && stagnant' == (if |f| == 0 then stagnant + 1 else 0)
    ensures StopsAfter(targets, i, total', stagnant', |f|, cap) ==> done' == full
    ensures !StopsAfter(targets, i, total', stagnant', |f|, cap) ==>
      done' + DiscoveryFrom(targets, found, i + BatchSize, total', stagnant', cap).enqueued == full
    ensures DiscoveryFrom(targets, found, i, total, stagnant, cap).batches
      == 1 + (if StopsAfter(targets, i, total', stagnant', |f|, cap) then 0
              else DiscoveryFrom(targets, found, i + BatchSize, total', stagnant', cap).batches)
  {
    DiscoveryFromStep(targets, found, i, total, stagnant, cap);
    if StopsAfter(targets, i, total', stagnant', |f|, cap) {
      assert f + [] == f;
    } else {
      AppendAssoc(done, f, DiscoveryFrom(targets, found, i + BatchSize, total', stagnant', cap).enqueued);
    }
  }

  /** With a positive cap, a run never puts more than 2·cap URLs on the queue. */
  lemma DiscoveryCapBound(targets: nat, returned: seq<seq<string>>, cap: int)
    requires cap > 0
    ensures |Discovery(targets, returned, cap).enqueued| <= cap * 2
  {
    var found := BatchFound(targets, returned, cap);
    forall j: nat, t | 0 <= t < cap
      ensures t + |found(j, t)| <= cap * 2
    {
      BatchEnqueueBound(BatchResults(returned, j, BatchEnd(targets, j)), t, cap);
    }
    DiscoveryFromBound(targets, found, 0, 0, 0, cap);
  }

  /** Number of batches of 25 in `n` targets. */
  function BatchCount(n: nat): nat
  {
    (n + BatchSize - 1) / BatchSize
  }

  lemma BatchCountStep(n: nat)
    requires n > 0
    ensures BatchCount(n) == 1 + (if n > BatchSize then BatchCount(n - BatchSize) else 0)
  {
    assert n + BatchSize - 1 == (n - BatchSize + BatchSize - 1) + BatchSize;
  }

  lemma BatchEnqueueOfNothing(results: seq<seq<string>>, total: int, cap: int)
    requires forall j :: 0 <= j < |results| ==> results[j] == []
    ensures BatchEnqueue(results, total, cap) == []
  {
    FlattenOfEmpties(results);
    BatchEnqueuePrefix(results, total, cap);
  }

  /** A batch that finds nothing, with no cap and nothing found yet. */
  lemma EmptyBatch(targets: nat, found: (nat, int) -> seq<string>, i: nat, stagnant: nat)
    requires i < targets && found(i, 0) == []
    ensures DiscoveryFrom(targets, found, i, 0, stagnant, 0)
      == if stagnant + 1 >= MaxStagnantBatches then DiscoveryRun([], 1)
         else var r := DiscoveryFrom(targets, found, i + BatchSize, 0, stagnant + 1, 0);
              DiscoveryRun(r.enqueued, 1 + r.batches)
  {
  }

  lemma {:induction false} StagnantRun(targets: nat, found: (nat, int) -> seq<string>, i: nat, stagnant: nat)
    requires forall j: nat :: found(j, 0) == []
    ensures DiscoveryFrom(targets, found, i, 0, stagnant, 0).enqueued == []
    decreases targets - i
  {
    if i < targets {
      EmptyBatch(targets, found, i, stagnant);
      if stagnant + 1 < MaxStagnantBatches {
        StagnantRun(targets, found, i + BatchSize, stagnant + 1);
      }
    }
  }

  /** Batches run over `n` remaining targets when every batch finds nothing. */
  function EmptyBatches(n: int, stagnant: nat): nat
    decreases n
  {
    if n <= 0 then 0
    else if stagnant + 1 >= MaxStagnantBatches then 1
    else 1 + EmptyBatches(n - BatchSize, stagnant + 1)
  }

  lemma {:induction false} StagnantBatches(targets: nat, found: (nat, int) -> seq<string>, i: nat, stagnant: nat)
    requires forall j: nat :: found(j, 0) == []
    ensures DiscoveryFrom(targets, found, i, 0, stagnant, 0).batches == EmptyBatches(targets - i, stagnant)
    decreases targets - i
  {
    if i < targets {
      EmptyBatch(targets, found, i, stagnant);
      if stagnant + 1 < MaxStagnantBatches {
        StagnantBatches(targets, found, i + BatchSize, stagnant + 1);
      }
    }
  }

  lemma {:induction false} EmptyBatchesCount(n: int, stagnant: nat)
    requires stagnant < MaxStagnantBatches
    ensures EmptyBatches(n, stagnant)
      == if n <= 0 then 0
         else if BatchCount(n) < MaxStagnantBatches - stagnant then BatchCount(n) else MaxStagnantBatches - stagnant
    decreases n
  {
    if n > 0 {
      BatchCountStep(n);
      if stagnant + 1 < MaxStagnantBatches {
        EmptyBatchesCount(n - BatchSize, stagnant + 1);
      }
    }
  }

  /** A run from the start over batches that all come back empty. */
  lemma StagnantDiscovery(targets: nat, found: (nat, int) -> seq<string>)
    requires forall j: nat :: found(j, 0) == []
    ensures DiscoveryFrom(targets, found, 0, 0, 0, 0)
      == DiscoveryRun([], if BatchCount(targets) < MaxStagnantBatches then BatchCount(targets) else MaxStagnantBatches)
  {
    StagnantRun(targets, found, 0, 0);
    StagnantBatches(targets, found, 0, 0);
    EmptyBatchesCount(targets, 0);
  }

  /** Without a cap and with no links anywhere, the worker gives up after 8
      batches, or earlier when the targets run out, and enqueues nothing. */
  lemma DiscoveryGivesUpWhenStagnant(targets: nat, returned: seq<seq<string>>)
    requires forall k :: 0 <= k < |returned| ==> returned[k] == []
    ensures Discovery(targets, returned, 0).enqueued == []
    ensures Discovery(targets, returned, 0).batches == if BatchCount(targets) < 8 then BatchCount(targets) else 8
  {
    var found := BatchFound(targets, returned, 0);
    forall j: nat
      ensures found(j, 0) == []
    {
      BatchEnqueueOfNothing(BatchResults(returned, j, BatchEnd(targets, j)), 0, 0);
    }
    StagnantDiscovery(targets, found);
  }

  /** Once 500 URLs are found, an empty batch with more than 50 batches
      left ends the run there. */
  lemma DiscoveryStopsEarly(targets: nat, returned: seq<seq<string>>, i: nat, total: int, stagnant: int)
    requires i < targets && total >= 500 && (targets - i) / BatchSize > 50
    requires forall k :: i <= k < i + BatchSize ==> YieldAt(returned, k) == []
    ensures DiscoveryFrom(targets, BatchFound(targets, returned, 0), i, total, stagnant, 0) == DiscoveryRun([], 1)
  {
    BatchEnqueueOfNothing(BatchResults(returned, i, BatchEnd(targets, i)), total, 0);
  }

  /** A batch that brings the total to a positive cap is the last one. */
  lemma DiscoveryStopsAtCap(targets: nat, found: (nat, int) -> seq<string>, i: nat, total: int, stagnant: int, cap: int)
    requires i < targets && cap > 0 && total + |found(i, total)| >= cap
    ensures DiscoveryFrom(targets, found, i, total, stagnant, cap).batches == 1
  {
  }

  /** Every URL a batch enqueues is a link some worker returned. */
  lemma BatchEnqueueFromResults(results: seq<seq<string>>, total: int, cap: int, u: string)
    requires u in BatchEnqueue(results, total, cap)
    ensures exists j :: 0 <= j < |results| && u in results[j]
  {
    var all := Flatten(results);
    BatchEnqueuePrefix(results, total, cap);
    assert u in all;
    FlattenMember(results, u);
  }

  /** Every URL a run enqueues was put by one of its batches. */
  lemma {:induction false} DiscoveryFromFound(targets: nat, found: (nat, int) -> seq<string>, i: nat, total: int, stagnant: int, cap: int, u: string)
    requires u in DiscoveryFrom(targets, found, i, total, stagnant, cap).enqueued
    ensures exists j: nat, t :: i <= j < targets && u in found(j, t)
    decreases targets - i
  {
    if i < targets {
      var f := found(i, total);
      var total' := total + |f|;
      var stagnant' := if |f| == 0 then stagnant + 1 else 0;
      if u !in f {
        DiscoveryFromFound(targets, found, i + BatchSize, total', stagnant', cap, u);
        var j: nat, t :| i + BatchSize <= j < targets && u in found(j, t);
        assert i <= j < targets;
      }
    }
  }

  /** Every URL the batch loop enqueues from target `i` on is a link the
      worker for one of the targets `i..` returned. */
  lemma DiscoveryFromYields(targets: nat, returned: seq<seq<string>>, cap: int, i: nat, total: int, stagnant: int, u: string)
    requires u in DiscoveryFrom(targets, BatchFound(targets, returned, cap), i, total, stagnant, cap).enqueued
    ensures exists k :: i <= k < targets && u in YieldAt(returned, k)
  {
    var found := BatchFound(targets, returned, cap);
    DiscoveryFromFound(targets, found, i, total, stagnant, cap, u);
    var j: nat, t :| i <= j < targets && u in found(j, t);
    var results := BatchResults(returned, j, BatchEnd(targets, j));
    BatchEnqueueFromResults(results, t, cap, u);
    var m :| 0 <= m < |results| && u in results[m];
    assert i <= j + m < targets && u in YieldAt(returned, j + m);
  }

  /** Every URL the discovery worker enqueues is a link the worker for one
      of its targets returned. */
  lemma DiscoveryYields(targets: nat, returned: seq<seq<string>>, cap: int, u: string)
    requires u in Discovery(targets, returned, cap).enqueued
    ensures exists k :: 0 <= k < targets && u in YieldAt(returned, k)
  {
    DiscoveryFromYields(targets, returned, cap, 0, 0, 0, u);
  }

  /** No link comes back twice: no worker's list repeats a link, and no
      two workers return the same link. */
  predicate Unshared(returned: seq<seq<string>>)
  {
    (forall k :: 0 <= k < |returned| ==> KeysDistinct(returned[k], Id))
    && (forall k1, k2, u :: 0 <= k1 < k2 < |returned| && u in returned[k1] ==> u !in returned[k2])
  }

  /** The results of targets within the list are its slice. */
  lemma BatchResultsSlice(returned: seq<seq<string>>, lo: nat, hi: nat)
    requires lo <= hi <= |returned|
    ensures BatchResults(returned, lo, hi) == returned[lo..hi]
  {
    var r := BatchResults(returned, lo, hi);
    assert forall j :: 0 <= j < |r| ==> r[j] == returned[lo..hi][j];
  }

  /** With unshared results, the links one batch puts have no repeats. */
  lemma BatchEnqueueDistinct(returned: seq<seq<string>>, lo: nat, hi: nat, total: int, cap: int)
    requires lo <= hi && Unshared(returned)
    ensures KeysDistinct(BatchEnqueue(BatchResults(returned, lo, hi), total, cap), Id)
  {
    var rs := BatchResults(returned, lo, hi);
    forall j1, j2, x | 0 <= j1 < j2 < |rs| && x in rs[j1]
      ensures x !in rs[j2]
    {
      assert lo + j1 < |returned|;
      if lo + j2 < |returned| {
        assert x in returned[lo + j1];
      }
    }
    FlattenDistinct(rs);
    BatchEnqueuePrefix(rs, total, cap);
  }

  /** A link no target of a batch returned is not put by that batch. */
  lemma BatchEnqueueOutside(returned: seq<seq<string>>, lo: nat, hi: nat, total: int, cap: int, x: string)
    requires lo <= hi
    requires forall k :: lo <= k < hi ==> x !in YieldAt(returned, k)
    ensures x !in BatchEnqueue(BatchResults(returned, lo, hi), total, cap)
  {
    var rs := BatchResults(returned, lo, hi);
    forall j | 0 <= j < |rs|
      ensures x !in rs[j]
    {
      assert rs[j] == YieldAt(returned, lo + j);
    }
    FlattenNotMember(rs, x);
    BatchEnqueuePrefix(rs, total, cap);
  }

  /** The batch loop never puts a URL twice when no batch repeats a URL and
      batches that start a whole batch apart or more share none. */
  lemma {:induction false} DiscoveryFromDistinct(targets: nat, found: (nat, int) -> seq<string>,
                                                 i: nat, total: int, stagnant: int, cap: int)
    requires forall j: nat, t :: i <= j < targets ==> KeysDistinct(found(j, t), Id)
    requires forall j1: nat, j2: nat, t1, t2, x ::
      i <= j1 && j1 + BatchSize <= j2 < targets && x in found(j1, t1) ==> x !in found(j2, t2)
    ensures KeysDistinct(DiscoveryFrom(targets, found, i, total, stagnant, cap).enqueued, Id)
    decreases targets - i
  {
    if i < targets {
      var f := found(i, total);
      var total' := total + |f|;
      var stagnant' := if |f| == 0 then stagnant + 1 else 0;
      var e := DiscoveryFrom(targets, found, i, total, stagnant, cap).enqueued;
      DiscoveryFromStep(targets, found, i, total, stagnant, cap);
      if StopsAfter(targets, i, total', stagnant', |f|, cap) {
        assert e == f + [] == f;
      } else {
        var rest := DiscoveryFrom(targets, found, i + BatchSize, total', stagnant', cap).enqueued;
        assert e == f + rest;
        DiscoveryFromDistinct(targets, found, i + BatchSize, total', stagnant', cap);
        forall x | x in rest
          ensures x !in f
        {
          DiscoveryFromFound(targets, found, i + BatchSize, total', stagnant', cap, x);
          var j: nat, t :| i + BatchSize <= j < targets && x in found(j, t);
        }
        DistinctConcat(f, rest);
      }
    }
  }

  /** A link the batch at `j` puts was returned by one of its targets. */
  lemma BatchLinkSource(targets: nat, returned: seq<seq<string>>, cap: int, j: nat, t: int, x: string)
    requires x in BatchFound(targets, returned, cap)(j, t)
    ensures exists k :: j <= k < BatchEnd(targets, j) && x in YieldAt(returned, k)
  {
    var results := BatchResults(returned, j, BatchEnd(targets, j));
    BatchEnqueueFromResults(results, t, cap, x);
    var m :| 0 <= m < |results| && x in results[m];
    assert x in YieldAt(returned, j + m);
  }

  /** A link a target from `j2` on returned is not put by an earlier batch
      at `j1` that ends before `j2`. */
  lemma LaterLinkOutsideBatch(targets: nat, returned: seq<seq<string>>, cap: int,
                              j1: nat, t1: int, j2: nat, t2: int, x: string)
    requires Unshared(returned) && j1 + BatchSize <= j2
    requires x in BatchFound(targets, returned, cap)(j2, t2)
    ensures x !in BatchFound(targets, returned, cap)(j1, t1)
  {
    BatchLinkSource(targets, returned, cap, j2, t2, x);
    var k :| j2 <= k < BatchEnd(targets, j2) && x in YieldAt(returned, k);
    assert k < |returned| && x in returned[k];
    var hi := BatchEnd(targets, j1);
    forall k1 | j1 <= k1 < hi && k1 < |returned|
      ensures x !in returned[k1]
    {
    }
    BatchEnqueueOutside(returned, j1, hi, t1, cap, x);
  }

  /** With unshared results, the discovery worker never puts a URL on the queue twice. */
  lemma DiscoveryDistinct(targets: nat, returned: seq<seq<string>>, cap: int)
    requires Unshared(returned)
    ensures KeysDistinct(Discovery(targets, returned, cap).enqueued, Id)
  {
    var found := BatchFound(targets, returned, cap);
    forall j: nat, t | 0 <= j < targets
      ensures KeysDistinct(found(j, t), Id)
    {
      BatchEnqueueDistinct(returned, j, BatchEnd(targets, j), t, cap);
    }
    forall j1: nat, j2: nat, t1, t2, x | 0 <= j1 && j1 + BatchSize <= j2 < targets && x in found(j1, t1)
      ensures x !in found(j2, t2)
    {
      if x in found(j2, t2) {
        LaterLinkOutsideBatch(targets, returned, cap, j1, t1, j2, t2, x);
      }
    }
    DiscoveryFromDistinct(targets, found, 0, 0, 0, cap);
  }

  /** How many targets the first `batches` batches cover. */
  function VisitedTargets(targets: nat, batches: nat): (v: nat)
    ensures v <= targets
  {
    if batches * BatchSize < targets then batches * BatchSize else targets
  }

  /** The batch counter of the loop against its target index `i`: one more
      batch moves `i` on by a batch and covers the batch at `i`; once `i`
      passes the end, every target is covered. */
  lemma VisitedNext(targets: nat, b: nat, i: nat)
    requires i == b * BatchSize
    ensures i + BatchSize == (b + 1) * BatchSize
    ensures i < targets ==> VisitedTargets(targets, b + 1) == BatchEnd(targets, i)
    ensures i >= targets ==> VisitedTargets(targets, b) == targets
  {
  }

  // ----- scraping_worker -----

  const MaxConsecutiveEmpty: nat := 20

  /** How a scraping worker's loop ended. */
  datatype WorkerExit = QueueDrained | TimedOut

  /** The decision after an Empty from the queue, with the new count of consecutive Empty results. */
  function OnEmpty(consecutiveEmpty: nat, discoveryComplete: bool, queueSize: nat): (r: (nat, Option<WorkerExit>))
    ensures r.0 == consecutiveEmpty + 1
    ensures r.1 == Some(QueueDrained) <==> discoveryComplete && queueSize == 0
    ensures r.1 == Some(TimedOut) <==> !(discoveryComplete && queueSize == 0) && consecutiveEmpty + 1 >= MaxConsecutiveEmpty
  {
    var n := consecutiveEmpty + 1;
    if discoveryComplete && queueSize == 0 then (n, Some(QueueDrained))
    else if n >= MaxConsecutiveEmpty then (n, Some(TimedOut))
    else (n, None)
  }

  // ----- monitor loop of scrape_all_skins_parallel -----

  const MaxStalls: nat := 10
  const MaxSeconds: int := 7200

  /** What the monitor reads every two seconds; `anyAlive` is the thread liveness it asks at a stall. */
  datatype Snapshot = Snapshot(discovered: int, scraped: int, complete: bool, queueSize: nat, anyAlive: bool, now: int)

  /** The monitor's own counters. */
  datatype MonitorState = MonitorState(lastScraped: int, lastDiscovered: int, stall: nat)

  /** What one round of the monitor decides. */
  datatype MonitorAction = Done | Keep | RestartWorkers | KeepAfterStall

  /** One round, before the clock test: completion, then stall detection. */
  function MonitorRound(st: MonitorState, s: Snapshot): (r: (MonitorState, MonitorAction))
    ensures r.1 == Done <==> s.complete && s.queueSize == 0 && s.scraped >= s.discovered
    ensures r.1 != Done ==> r.0.lastScraped == s.scraped && r.0.lastDiscovered == s.discovered
    ensures r.1 != Done ==> r.0.stall < MaxStalls
  {
    if s.complete && s.queueSize == 0 && s.scraped >= s.discovered then (st, Done)
    else
      var idle := s.scraped == st.lastScraped && s.discovered == st.lastDiscovered && !s.complete;
      if !idle then (MonitorState(s.scraped, s.discovered, 0), Keep)
      else if st.stall + 1 >= MaxStalls then
        (MonitorState(s.scraped, s.discovered, 0), if s.anyAlive then KeepAfterStall else RestartWorkers)
      else (MonitorState(s.scraped, s.discovered, st.stall + 1), Keep)
  }

  /** The stall counter grows by one exactly on an unchanged, incomplete
      round below the threshold, and is 0 after every other round. */
  lemma MonitorStallRule(st: MonitorState, s: Snapshot)
    requires st.stall < MaxStalls
    requires !(s.complete && s.queueSize == 0 && s.scraped >= s.discovered)
    ensures var r := MonitorRound(st, s);
      (r.0.stall == st.stall + 1) <==>
        (s.scraped == st.lastScraped && s.discovered == st.lastDiscovered && !s.complete && st.stall + 1 < MaxStalls)
    ensures var r := MonitorRound(st, s); r.0.stall != st.stall + 1 ==> r.0.stall == 0
    ensures var r := MonitorRound(st, s); r.1 == RestartWorkers <==>
      (s.scraped == st.lastScraped && s.discovered == st.lastDiscovered && !s.complete
       && st.stall + 1 == MaxStalls && !s.anyAlive)
  {
  }

  /** A run of rounds: the number of rounds read, how it ended and how often workers were restarted. */
  datatype MonitorEnd = Completed | OutOfTime | SnapshotsExhausted

  /** The monitor over a sequence of snapshots; the first round that finds
      no start time records one, later rounds stop after 7200 seconds. */
  function MonitorRun(st: MonitorState, start: Option<int>, snaps: seq<Snapshot>): (r: (nat, MonitorEnd, nat))
    ensures r.0 <= |snaps|
    ensures r.2 <= r.0
    decreases |snaps|
  {
    if snaps == [] then (0, SnapshotsExhausted, 0)
    else
      var s := snaps[0];
      var (st', action) := MonitorRound(st, s);
      if action == Done then (1, Completed, 0)
      else if start.Some? && s.now - start.value > MaxSeconds then (1, OutOfTime, if action == RestartWorkers then 1 else 0)
      else
        var start' := if start.Some? then start else Some(s.now);
        var (n, e, restarts) := MonitorRun(st', start', snaps[1..]);
        (n + 1, e, restarts + (if action == RestartWorkers then 1 else 0))
  }

  /** The run from snapshot `k` after a round that neither finishes nor runs out of time. */
  lemma MonitorRunContinues(st: MonitorState, start: Option<int>, snaps: seq<Snapshot>, k: nat,
                            next: MonitorState, action: MonitorAction, start': Option<int>)
    requires k < |snaps|
    requires (next, action) == MonitorRound(st, snaps[k])
    requires action != Done && !(start.Some? && snaps[k].now - start.value > MaxSeconds)
    requires start' == if start.Some? then start else Some(snaps[k].now)
    ensures MonitorRun(st, start, snaps[k..]).0 == MonitorRun(next, start', snaps[k + 1..]).0 + 1
    ensures MonitorRun(st, start, snaps[k..]).1 == MonitorRun(next, start', snaps[k + 1..]).1
    ensures MonitorRun(st, start, snaps[k..]).2
      == MonitorRun(next, start', snaps[k + 1..]).2 + (if action == RestartWorkers then 1 else 0)
  {
    assert snaps[k..][0] == snaps[k];
    assert snaps[k..][1..] == snaps[k + 1..];
  }

  /** The run from snapshot `k` when that round finishes or runs out of time. */
  lemma MonitorRunStops(st: MonitorState, start: Option<int>, snaps: seq<Snapshot>, k: nat,
                        next: MonitorState, action: MonitorAction)
    requires k < |snaps|
    requires (next, action) == MonitorRound(st, snaps[k])
    ensures action == Done ==> MonitorRun(st, start, snaps[k..]) == (1, Completed, 0)
    ensures action != Done && start.Some? && snaps[k].now - start.value > MaxSeconds ==>
      MonitorRun(st, start, snaps[k..]) == (1, OutOfTime, if action == RestartWorkers then 1 else 0)
  {
    assert snaps[k..][0] == snaps[k];
  }

  /** The monitor stops on the clock only in a round that reads more than
      7200 seconds past the start time, which is the one it was given or
      else the time of its first round; without a start time it reads at
      least two rounds before it can stop on the clock. */
  lemma {:induction false} MonitorTimeoutRule(st: MonitorState, start: Option<int>, snaps: seq<Snapshot>)
    requires MonitorRun(st, start, snaps).1 == OutOfTime
    ensures var n := MonitorRun(st, start, snaps).0;
      1 <= n && (start.None? ==> n >= 2)
      && snaps[n - 1].now - (if start.Some? then start.value else snaps[0].now) > MaxSeconds
    decreases |snaps|
  {
    var s := snaps[0];
    var (st', action) := MonitorRound(st, s);
    if !(action == Done) && !(start.Some? && s.now - start.value > MaxSeconds) {
      var start' := if start.Some? then start else Some(s.now);
      MonitorTimeoutRule(st', start', snaps[1..]);
      var n' := MonitorRun(st', start', snaps[1..]).0;
      assert snaps[1..][n' - 1] == snaps[n'];
    }
  }

  /** A round where everything is scraped and the queue is empty ends the monitor. */
  lemma MonitorCompletes(st: MonitorState, start: Option<int>, snaps: seq<Snapshot>)
    requires snaps != [] && snaps[0].complete && snaps[0].queueSize == 0 && snaps[0].scraped >= snaps[0].discovered
    ensures MonitorRun(st, start, snaps) == (1, Completed, 0)
  {
  }
}
