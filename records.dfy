/**
 * Post-processing of the scraped records: `remove_duplicates`,
 * `clean_data` and `get_stats`, stated on sequences of records.
 */
module Records {
  import opened Seqs
  import opened Text
  import opened CleanTextProps
  import opened Details

  /** `item.get(key, '')` for a record whose values are all texts. */
  function Get(r: Record, key: string): string
  {
    if key in r then r[key] else ""
  }

  /** The content hash of a record, "" when it has none. */
  function HashOf(r: Record): string
  {
    Get(r, "content_hash")
  }

  /** A hash counts only when it is non-empty. */
  predicate NonEmpty(h: string)
  {
    h != ""
  }

  /** `remove_duplicates`: the first record for each non-empty hash, in order. */
  function UniqueByHash(rs: seq<Record>): seq<Record>
  {
    KeepFirst(rs, HashOf, NonEmpty)
  }

  /** What `remove_duplicates` keeps: exactly the first record of each
      non-empty hash, in the original order; every non-empty hash survives
      once, and no record without a hash survives. */
  lemma UniqueByHashSpec(rs: seq<Record>)
    ensures UniqueByHash(rs) == Select(rs, FirstMask(rs, HashOf, NonEmpty))
    ensures KeysDistinct(UniqueByHash(rs), HashOf)
    ensures forall i :: 0 <= i < |UniqueByHash(rs)| ==> HashOf(UniqueByHash(rs)[i]) != ""
    ensures KeySet(UniqueByHash(rs), HashOf) == set i | 0 <= i < |rs| && HashOf(rs[i]) != "" :: HashOf(rs[i])
  {
    KeepFirstIsFirstOccurrences(rs, HashOf, NonEmpty);
  }

  /** Running `remove_duplicates` twice is the same as once. */
  lemma UniqueByHashIdempotent(rs: seq<Record>)
    ensures UniqueByHash(UniqueByHash(rs)) == UniqueByHash(rs)
  {
    KeepFirstIdempotent(rs, HashOf, NonEmpty);
  }

  /** A record with a name and a url before cleaning. */
  predicate IsComplete(r: Record)
  {
    Get(r, "name") != "" && Get(r, "url") != ""
  }

  /** Every value of a record passed through `f`. */
  function MapValues(r: Record, f: string -> string): (c: Record)
    ensures c.Keys == r.Keys
    ensures forall k :: k in c ==> c[k] == f(r[k])
  {
    map k | k in r :: f(r[k])
  }

  lemma MapValuesOfFixed(r: Record, f: string -> string)
    requires forall k :: k in r ==> f(r[k]) == r[k]
    ensures MapValues(r, f) == r
  {
  }

  /** Every field of a record replaced by its `clean_text`. */
  function CleanRecord(r: Record): Record
  {
    MapValues(r, CleanText)
  }

  /** Cleaning keeps the fields and makes every value ASCII. */
  lemma CleanRecordValues(r: Record)
    ensures CleanRecord(r).Keys == r.Keys
    ensures forall k :: k in r ==> CleanRecord(r)[k] == CleanText(r[k]) && AllAscii(CleanRecord(r)[k])
  {
  }

  /** The loop of `clean_data` with the per-record cleaning `clean`: the
      complete records, in order, each cleaned. */
  function KeepComplete(rs: seq<Record>, clean: Record -> Record): (r: seq<Record>)
    ensures |r| <= |rs|
  {
    if rs == [] then []
    else
      var last := rs[|rs| - 1];
      KeepComplete(rs[..|rs| - 1], clean) + (if IsComplete(last) then [clean(last)] else [])
  }

  /** One more record of the list decided on its own. */
  lemma KeepCompleteStep(rs: seq<Record>, k: nat, clean: Record -> Record)
    requires k < |rs|
    ensures KeepComplete(rs[..k + 1], clean)
      == KeepComplete(rs[..k], clean) + (if IsComplete(rs[k]) then [clean(rs[k])] else [])
  {
    assert rs[..k + 1][..k] == rs[..k];
  }

  /** `clean_data`. */
  function CleanAll(rs: seq<Record>): (r: seq<Record>)
    ensures |r| <= |rs|
  {
    KeepComplete(rs, CleanRecord)
  }

  /** Cleaning every record of a list. */
  function MapRecords(rs: seq<Record>, clean: Record -> Record): (r: seq<Record>)
    ensures |r| == |rs|
    ensures forall i :: 0 <= i < |rs| ==> r[i] == clean(rs[i])
  {
    seq(|rs|, i requires 0 <= i < |rs| => clean(rs[i]))
  }

  lemma {:induction false} KeepCompleteIsFilterThenMap(rs: seq<Record>, clean: Record -> Record)
    ensures KeepComplete(rs, clean) == MapRecords(Filter(rs, IsComplete), clean)
  {
    if rs != [] {
      var init, last := rs[..|rs| - 1], rs[|rs| - 1];
      assert rs == init + [last];
      KeepCompleteIsFilterThenMap(init, clean);
      FilterSnoc(init, last, IsComplete);
    }
  }

  /** `clean_data` is "filter the complete records, then clean each": it
      keeps exactly the complete records, in their original order. */
  lemma CleanAllIsFilterThenClean(rs: seq<Record>)
    ensures CleanAll(rs) == MapRecords(Filter(rs, IsComplete), CleanRecord)
  {
    KeepCompleteIsFilterThenMap(rs, CleanRecord);
  }

  /** After `clean_data` every value is ASCII text. */
  lemma {:induction false} CleanAllAscii(rs: seq<Record>)
    ensures forall i, k :: 0 <= i < |CleanAll(rs)| && k in CleanAll(rs)[i] ==> AllAscii(CleanAll(rs)[i][k])
  {
    CleanAllIsFilterThenClean(rs);
    var f := Filter(rs, IsComplete);
    forall i | 0 <= i < |f| {
      CleanRecordValues(f[i]);
    }
  }

  /** A record that `clean_data` leaves as it is: complete, and every value
      already normalized ASCII text. */
  predicate Settled(r: Record)
  {
    IsComplete(r) && forall k :: k in r ==> SettledText(r[k])
  }

  predicate SettledText(v: string)
  {
    AllAscii(v) && Normalized(v)
  }

  lemma CleanRecordOfSettled(r: Record)
    requires Settled(r)
    ensures CleanRecord(r) == r
  {
    forall k | k in r
      ensures CleanText(r[k]) == r[k]
    {
      CleanTextFixesNormalized(r[k]);
    }
    MapValuesOfFixed(r, CleanText);
  }

  lemma {:induction false} KeepCompleteOfFixed(rs: seq<Record>, clean: Record -> Record)
    requires forall i :: 0 <= i < |rs| ==> IsComplete(rs[i]) && clean(rs[i]) == rs[i]
    ensures KeepComplete(rs, clean) == rs
  {
    if rs != [] {
      var init, last := rs[..|rs| - 1], rs[|rs| - 1];
      KeepCompleteOfFixed(init, clean);
      assert rs == init + [last];
    }
  }

  /** On records that are already settled, `clean_data` changes nothing. */
  lemma CleanAllOfSettled(rs: seq<Record>)
    requires forall i :: 0 <= i < |rs| ==> Settled(rs[i])
    ensures CleanAll(rs) == rs
  {
    forall i | 0 <= i < |rs|
      ensures IsComplete(rs[i]) && CleanRecord(rs[i]) == rs[i]
    {
      CleanRecordOfSettled(rs[i]);
    }
    KeepCompleteOfFixed(rs, CleanRecord);
  }

  /** On ASCII records, a second `clean_data` changes nothing when the
      first one left every kept record with a non-empty name and url. */
  lemma CleanAllIdempotentWhenNamesSurvive(rs: seq<Record>)
    requires forall i, k :: 0 <= i < |rs| && k in rs[i] ==> AllAscii(rs[i][k])
    requires forall i :: 0 <= i < |CleanAll(rs)| ==> IsComplete(CleanAll(rs)[i])
    ensures CleanAll(CleanAll(rs)) == CleanAll(rs)
  {
    var c := CleanAll(rs);
    CleanAllIsFilterThenClean(rs);
    forall i | 0 <= i < |c|
      ensures Settled(c[i])
    {
      var f := Filter(rs, IsComplete);
      assert c[i] == CleanRecord(f[i]);
      assert f[i] in rs;
    }
    CleanAllOfSettled(c);
  }

  /** A record whose name is a single space. */
  const BlankNamed: Record := map["name" := " ", "url" := "u"]

  lemma MapValuesOfPair(a: string, b: string, f: string -> string)
    ensures MapValues(map["name" := a, "url" := b], f) == map["name" := f(a), "url" := f(b)]
  {
    var m := map["name" := a, "url" := b];
    assert m.Keys == {"name", "url"};
  }

  lemma CleanBlankNamed()
    ensures CleanRecord(BlankNamed) == BlankNamedCleaned
  {
    CleanTextBlank();
    CleanTextLetter();
    MapValuesOfPair(" ", "u", CleanText);
  }

  lemma KeepCompleteSingle(r: Record, clean: Record -> Record)
    ensures KeepComplete([r], clean) == if IsComplete(r) then [clean(r)] else []
  {
    assert [r][..0] == [];
  }

  /** The record a first `clean_data` makes of BlankNamed. */
  const BlankNamedCleaned: Record := map["name" := "", "url" := "u"]

  lemma BlankNamedComplete()
    ensures IsComplete(BlankNamed)
  {
    assert Get(BlankNamed, "name") == " ";
  }

  lemma BlankNamedCleanedIncomplete()
    ensures !IsComplete(BlankNamedCleaned)
  {
    assert Get(BlankNamedCleaned, "name") == "";
  }

  lemma CleanAllFirstPass()
    ensures CleanAll([BlankNamed]) == [BlankNamedCleaned]
  {
    BlankNamedComplete();
    CleanBlankNamed();
    KeepCompleteSingle(BlankNamed, CleanRecord);
  }

  lemma CleanAllSecondPass()
    ensures CleanAll([BlankNamedCleaned]) == []
  {
    BlankNamedCleanedIncomplete();
    KeepCompleteSingle(BlankNamedCleaned, CleanRecord);
  }

  /** `clean_data` is not idempotent: a name of " " passes the first time
      and is cleaned to "", so a second pass drops the record. */
  lemma CleanAllNotIdempotent()
    ensures CleanAll([BlankNamed]) != CleanAll(CleanAll([BlankNamed]))
  {
    CleanAllFirstPass();
    CleanAllSecondPass();
  }

  /** The truthiness test of `get_stats`: a present, non-empty value. */
  predicate Truthy(v: string)
  {
    v != ""
  }

  /** The distinct values of `key` among the records whose value passes `present`. */
  function DistinctValues(rs: seq<Record>, key: string, present: string -> bool): set<string>
  {
    set i | 0 <= i < |rs| && present(Get(rs[i], key)) :: Get(rs[i], key)
  }

  /** Records whose value of `key` passes `present`. */
  function CountWith(rs: seq<Record>, key: string, present: string -> bool): (n: nat)
    ensures n <= |rs|
  {
    if rs == [] then 0
    else CountWith(rs[..|rs| - 1], key, present) + (if present(Get(rs[|rs| - 1], key)) then 1 else 0)
  }

  /** The test "the value of `key` passes `present`" on a record. */
  function HasValue(key: string, present: string -> bool): Record -> bool
  {
    (x: Record) => present(Get(x, key))
  }

  /** Counting by a presence test is the length of the filtered list. */
  lemma {:induction false} CountWithIsFilter(rs: seq<Record>, key: string, present: string -> bool)
    ensures CountWith(rs, key, present) == |Filter(rs, HasValue(key, present))|
  {
    if rs != [] {
      CountWithIsFilter(rs[..|rs| - 1], key, present);
      FilterSnoc(rs[..|rs| - 1], rs[|rs| - 1], HasValue(key, present));
      assert rs[..|rs| - 1] + [rs[|rs| - 1]] == rs;
    }
  }

  /** A value is among the distinct values exactly when it passes the test
      and some record carries it. */
  lemma DistinctValuesMember(rs: seq<Record>, key: string, present: string -> bool, v: string)
    ensures v in DistinctValues(rs, key, present)
      <==> present(v) && exists i :: 0 <= i < |rs| && Get(rs[i], key) == v
  {
    if present(v) && exists i :: 0 <= i < |rs| && Get(rs[i], key) == v {
      var i :| 0 <= i < |rs| && Get(rs[i], key) == v;
      assert present(Get(rs[i], key));
    }
  }

  /** One more record adds its value, if it passes, to the distinct values. */
  lemma DistinctValuesSnoc(rs: seq<Record>, key: string, present: string -> bool)
    requires rs != []
    ensures var last := Get(rs[|rs| - 1], key);
      DistinctValues(rs, key, present)
      == DistinctValues(rs[..|rs| - 1], key, present) + (if present(last) then {last} else {})
  {
    var init, last := rs[..|rs| - 1], rs[|rs| - 1];
    var d, d0 := DistinctValues(rs, key, present), DistinctValues(init, key, present);
    forall v | v in d
      ensures v in d0 || (present(Get(last, key)) && v == Get(last, key))
    {
      var i :| 0 <= i < |rs| && present(Get(rs[i], key)) && Get(rs[i], key) == v;
      if i < |init| {
        assert init[i] == rs[i];
      }
    }
    forall v | v in d0
      ensures v in d
    {
      var i :| 0 <= i < |init| && present(Get(init[i], key)) && Get(init[i], key) == v;
      assert rs[i] == init[i];
    }
    if present(Get(last, key)) {
      assert rs[|rs| - 1] == last;
    }
  }

  /** There are no more distinct values than records carrying one. */
  lemma {:induction false} DistinctValuesBound(rs: seq<Record>, key: string, present: string -> bool)
    ensures |DistinctValues(rs, key, present)| <= CountWith(rs, key, present)
  {
    if rs != [] {
      DistinctValuesBound(rs[..|rs| - 1], key, present);
      DistinctValuesSnoc(rs, key, present);
    }
  }

  /** `get_stats`. */
  datatype ScrapeStats = ScrapeStats(
    totalScraped: nat, failedUrls: nat, uniqueDevelopers: nat, withDownloads: nat, withThumbnails: nat)

  function StatsOf(rs: seq<Record>, failedUrls: seq<string>): (s: ScrapeStats)
    ensures s.totalScraped == |rs| && s.failedUrls == |failedUrls|
    ensures forall v :: (v in DistinctValues(rs, "developer", Truthy)
                         <==> Truthy(v) && exists i :: 0 <= i < |rs| && Get(rs[i], "developer") == v)
    ensures s.uniqueDevelopers == |DistinctValues(rs, "developer", Truthy)|
    ensures s.uniqueDevelopers <= CountWith(rs, "developer", Truthy) <= s.totalScraped
    ensures s.withDownloads == |Filter(rs, HasValue("download_url", Truthy))|
    ensures s.withThumbnails == |Filter(rs, HasValue("thumbnail_url", Truthy))|
  {
    DistinctValuesBound(rs, "developer", Truthy);
    CountWithIsFilter(rs, "download_url", Truthy);
    CountWithIsFilter(rs, "thumbnail_url", Truthy);
    forall v
      ensures v in DistinctValues(rs, "developer", Truthy)
        <==> Truthy(v) && exists i :: 0 <= i < |rs| && Get(rs[i], "developer") == v
    {
      DistinctValuesMember(rs, "developer", Truthy, v);
    }
    ScrapeStats(|rs|, |failedUrls|, |DistinctValues(rs, "developer", Truthy)|,
                CountWith(rs, "download_url", Truthy), CountWith(rs, "thumbnail_url", Truthy))
  }
}
