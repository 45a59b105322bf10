/**
 * Sequence helpers shared by the whole model: order-preserving filtering,
 * selection by a mask, and "keep the first element of each key", which is
 * the one de-duplication idiom the scraper uses three times (links within a
 * batch, links against the seen-set, records by content hash).
 */
module Seqs {

  /** The elements of `xs` satisfying `p`, in their original order
      (a Python list comprehension with an `if`). */
  function Filter<T>(xs: seq<T>, p: T -> bool): (r: seq<T>)
    ensures |r| <= |xs|
    ensures forall i :: 0 <= i < |r| ==> p(r[i]) && r[i] in xs
    ensures forall i :: 0 <= i < |xs| && p(xs[i]) ==> xs[i] in r
  {
    if xs == [] then []
    else
      var init := Filter(xs[..|xs| - 1], p);
      var x := xs[|xs| - 1];
      assert xs == xs[..|xs| - 1] + [x];
      if p(x) then init + [x] else init
  }

  lemma AppendAssoc<T>(a: seq<T>, b: seq<T>, c: seq<T>)
    ensures (a + b) + c == a + (b + c)
  {
  }

  /** All the sequences of `xss`, one after another. */
  function Flatten<T>(xss: seq<seq<T>>): seq<T>
  {
    if xss == [] then [] else Flatten(xss[..|xss| - 1]) + xss[|xss| - 1]
  }

  lemma FlattenSnoc<T>(xss: seq<seq<T>>, m: nat)
    requires m < |xss|
    ensures Flatten(xss[..m + 1]) == Flatten(xss[..m]) + xss[m]
  {
    assert xss[..m + 1][..m] == xss[..m];
  }

  /** Flattening a prefix gives a prefix. */
  lemma {:induction false} FlattenPrefix<T>(xss: seq<seq<T>>, m: nat)
    requires m <= |xss|
    ensures Flatten(xss[..m]) <= Flatten(xss)
    decreases |xss| - m
  {
    if m < |xss| {
      FlattenSnoc(xss, m);
      FlattenPrefix(xss, m + 1);
    } else {
      assert xss[..m] == xss;
    }
  }

  /** Every element of the flattening comes from one of the parts. */
  lemma {:induction false} FlattenMember<T>(xss: seq<seq<T>>, x: T)
    requires x in Flatten(xss)
    ensures exists j :: 0 <= j < |xss| && x in xss[j]
    decreases |xss|
  {
    var n := |xss| - 1;
    if x in Flatten(xss[..n]) {
      FlattenMember(xss[..n], x);
      var j :| 0 <= j < |xss[..n]| && x in xss[..n][j];
      assert xss[..n][j] == xss[j];
    }
  }

  lemma {:induction false} FlattenOfEmpties<T>(xss: seq<seq<T>>)
    requires forall j :: 0 <= j < |xss| ==> xss[j] == []
    ensures Flatten(xss) == []
    decreases |xss|
  {
    if xss != [] {
      FlattenOfEmpties(xss[..|xss| - 1]);
    }
  }

  /** An element outside every part is outside the flattening. */
  lemma {:induction false} FlattenNotMember<T>(xss: seq<seq<T>>, x: T)
    requires forall j :: 0 <= j < |xss| ==> x !in xss[j]
    ensures x !in Flatten(xss)
    decreases |xss|
  {
    if xss != [] {
      var n := |xss| - 1;
      FlattenNotMember(xss[..n], x);
      assert x !in xss[n];
    }
  }

  /** Two repeat-free sequences with no element in common make a
      repeat-free concatenation. */
  lemma DistinctConcat<T>(a: seq<T>, b: seq<T>)
    requires KeysDistinct(a, Id) && KeysDistinct(b, Id)
    requires forall x :: x in b ==> x !in a
    ensures KeysDistinct(a + b, Id)
  {
    var s := a + b;
    forall i, j | 0 <= i < j < |s|
      ensures Id(s[i]) != Id(s[j])
    {
      if j < |a| {
        assert s[i] == a[i] && s[j] == a[j];
      } else if i >= |a| {
        assert s[i] == b[i - |a|] && s[j] == b[j - |a|];
      } else {
        assert s[i] == a[i] && s[j] == b[j - |a|];
        assert b[j - |a|] in b;
      }
    }
  }

  /** Repeat-free parts, no two sharing an element, flatten to a
      repeat-free sequence. */
  lemma {:induction false} FlattenDistinct<T>(xss: seq<seq<T>>)
    requires forall j :: 0 <= j < |xss| ==> KeysDistinct(xss[j], Id)
    requires forall j1, j2, x :: 0 <= j1 < j2 < |xss| && x in xss[j1] ==> x !in xss[j2]
    ensures KeysDistinct(Flatten(xss), Id)
    decreases |xss|
  {
    if xss != [] {
      var n := |xss| - 1;
      var init := xss[..n];
      FlattenDistinct(init);
      forall x | x in xss[n]
        ensures x !in Flatten(init)
      {
        forall j | 0 <= j < |init|
          ensures x !in init[j]
        {
          assert init[j] == xss[j];
        }
        FlattenNotMember(init, x);
      }
      DistinctConcat(Flatten(init), xss[n]);
    }
  }

  /** Filtering one more element at the end. */
  lemma FilterSnoc<T>(xs: seq<T>, x: T, p: T -> bool)
    ensures Filter(xs + [x], p) == Filter(xs, p) + (if p(x) then [x] else [])
  {
    assert (xs + [x])[..|xs|] == xs;
  }

  /** An element of `xs` survives the filter exactly when it passes `p`. */
  lemma FilterMember<T>(xs: seq<T>, p: T -> bool, x: T)
    requires x in xs
    ensures x in Filter(xs, p) <==> p(x)
  {
    var i :| 0 <= i < |xs| && xs[i] == x;
  }

  /** Filtering with a predicate every element satisfies changes nothing. */
  lemma {:induction false} FilterKeepsAll<T>(xs: seq<T>, p: T -> bool)
    requires forall i :: 0 <= i < |xs| ==> p(xs[i])
    ensures Filter(xs, p) == xs
  {
    if xs != [] {
      FilterKeepsAll(xs[..|xs| - 1], p);
      assert xs[..|xs| - 1] + [xs[|xs| - 1]] == xs;
    }
  }

  /** Filtering with a predicate no element satisfies leaves nothing. */
  lemma {:induction false} FilterDropsAll<T>(xs: seq<T>, p: T -> bool)
    requires forall i :: 0 <= i < |xs| ==> !p(xs[i])
    ensures Filter(xs, p) == []
  {
    if xs != [] {
      FilterDropsAll(xs[..|xs| - 1], p);
    }
  }

  /** Filtering a concatenation filters each part. */
  lemma {:induction false} FilterConcat<T>(a: seq<T>, b: seq<T>, p: T -> bool)
    ensures Filter(a + b, p) == Filter(a, p) + Filter(b, p)
    decreases |b|
  {
    if b == [] {
      assert a + b == a;
    } else {
      var init := b[..|b| - 1];
      var x := b[|b| - 1];
      assert b == init + [x];
      assert a + b == (a + init) + [x];
      FilterConcat(a, init, p);
      FilterSnoc(a + init, x, p);
      FilterSnoc(init, x, p);
    }
  }

  /** Filtering one more element at the front. */
  lemma FilterCons<T>(x: T, xs: seq<T>, p: T -> bool)
    ensures Filter([x] + xs, p) == (if p(x) then [x] else []) + Filter(xs, p)
  {
    FilterConcat([x], xs, p);
    FilterSnoc([], x, p);
    assert [] + [x] == [x];
  }

  /** Filtering a non-empty sequence: its head, then the rest. */
  lemma FilterHead<T>(xs: seq<T>, p: T -> bool)
    requires xs != []
    ensures Filter(xs, p) == (if p(xs[0]) then [xs[0]] else []) + Filter(xs[1..], p)
  {
    assert xs == [xs[0]] + xs[1..];
    FilterCons(xs[0], xs[1..], p);
  }

  /** Dropping a prefix of elements that fail `p` does not change the filter. */
  lemma FilterDropFailingPrefix<T>(xs: seq<T>, k: nat, p: T -> bool)
    requires k <= |xs| && forall i :: 0 <= i < k ==> !p(xs[i])
    ensures Filter(xs[k..], p) == Filter(xs, p)
  {
    assert xs == xs[..k] + xs[k..];
    FilterDropsAll(xs[..k], p);
    FilterConcat(xs[..k], xs[k..], p);
  }

  /** Two filters in a row are one filter by both predicates. */
  lemma {:induction false} FilterFilter<T>(xs: seq<T>, p: T -> bool, q: T -> bool, both: T -> bool)
    requires forall x :: both(x) == (p(x) && q(x))
    ensures Filter(Filter(xs, p), q) == Filter(xs, both)
  {
    if xs != [] {
      var init := xs[..|xs| - 1];
      var x := xs[|xs| - 1];
      assert xs == init + [x];
      FilterFilter(init, p, q, both);
      FilterSnoc(init, x, p);
      FilterSnoc(init, x, both);
      if p(x) {
        FilterSnoc(Filter(init, p), x, q);
      }
    }
  }

  /** Number of elements of `xs` satisfying `p`. */
  function Count<T>(xs: seq<T>, p: T -> bool): (n: nat)
    ensures n == |Filter(xs, p)|
  {
    |Filter(xs, p)|
  }

  /** The elements of `xs` at the positions where `mask` is true, in order. */
  function Select<T>(xs: seq<T>, mask: seq<bool>): (r: seq<T>)
    requires |mask| == |xs|
    ensures |r| <= |xs|
  {
    if xs == [] then []
    else
      var init := Select(xs[..|xs| - 1], mask[..|xs| - 1]);
      if mask[|xs| - 1] then init + [xs[|xs| - 1]] else init
  }

  /** The set of keys of the elements of `xs`. */
  function KeySet<T, K>(xs: seq<T>, key: T -> K): set<K>
  {
    set i | 0 <= i < |xs| :: key(xs[i])
  }

  lemma KeySetSnoc<T, K>(xs: seq<T>, x: T, key: T -> K)
    ensures KeySet(xs + [x], key) == KeySet(xs, key) + {key(x)}
  {
    var s := xs + [x];
    assert forall i :: 0 <= i < |xs| ==> s[i] == xs[i];
    assert s[|xs|] == x;
  }

  /** With the identity as key, the key set holds exactly the elements. */
  lemma KeySetIdMember<T>(xs: seq<T>, x: T)
    ensures x in KeySet(xs, Id) <==> x in xs
  {
    if x in xs {
      var i :| 0 <= i < |xs| && xs[i] == x;
      assert Id(xs[i]) in KeySet(xs, Id);
    }
  }

  /** No two elements of `xs` share a key. */
  predicate KeysDistinct<T, K(==)>(xs: seq<T>, key: T -> K)
  {
    forall i, j :: 0 <= i < j < |xs| ==> key(xs[i]) != key(xs[j])
  }

  /**
   * Walks `xs` from the front and keeps an element when its key is
   * admissible and no element kept earlier had the same key: the loop
   * `for x in xs: if keep(k(x)) and k(x) not in seen: seen.add(k(x)); out.append(x)`.
   */
  function KeepFirst<T, K(==)>(xs: seq<T>, key: T -> K, keep: K -> bool): (r: seq<T>)
    ensures |r| <= |xs|
    ensures forall i :: 0 <= i < |r| ==> r[i] in xs && keep(key(r[i]))
    ensures KeysDistinct(r, key)
    ensures KeySet(r, key) == set i | 0 <= i < |xs| && keep(key(xs[i])) :: key(xs[i])
  {
    if xs == [] then []
    else
      var init := KeepFirst(xs[..|xs| - 1], key, keep);
      var x := xs[|xs| - 1];
      assert xs == xs[..|xs| - 1] + [x];
      if keep(key(x)) && key(x) !in KeySet(init, key) then
        KeySetSnoc(init, x, key);
        init + [x]
      else init
  }

  /** One more element at the back: KeepFirst decides on it alone. */
  lemma KeepFirstSnoc<T, K>(xs: seq<T>, x: T, key: T -> K, keep: K -> bool)
    ensures KeepFirst(xs + [x], key, keep)
      == KeepFirst(xs, key, keep)
         + (if keep(key(x)) && key(x) !in KeySet(KeepFirst(xs, key, keep), key) then [x] else [])
  {
    assert (xs + [x])[..|xs + [x]| - 1] == xs;
  }

  /** Position `i` holds the first element of `xs` with its key, and that key is admissible. */
  predicate IsFirstOfKey<T, K(==)>(xs: seq<T>, key: T -> K, keep: K -> bool, i: int)
    requires 0 <= i < |xs|
  {
    keep(key(xs[i])) && forall j :: 0 <= j < i ==> key(xs[j]) != key(xs[i])
  }

  /** The mask of first occurrences, an independent description of what KeepFirst keeps. */
  function FirstMask<T, K(==)>(xs: seq<T>, key: T -> K, keep: K -> bool): (m: seq<bool>)
    ensures |m| == |xs|
    ensures forall i :: 0 <= i < |xs| ==> (m[i] <==> IsFirstOfKey(xs, key, keep, i))
  {
    seq(|xs|, i requires 0 <= i < |xs| => IsFirstOfKey(xs, key, keep, i))
  }

  /** KeepFirst keeps exactly the first admissible element of each key, in original order. */
  lemma {:induction false} KeepFirstIsFirstOccurrences<T, K>(xs: seq<T>, key: T -> K, keep: K -> bool)
    ensures KeepFirst(xs, key, keep) == Select(xs, FirstMask(xs, key, keep))
  {
    if xs != [] {
      var n := |xs|;
      var init := xs[..n - 1];
      var x := xs[n - 1];
      KeepFirstIsFirstOccurrences(init, key, keep);
      var m := FirstMask(xs, key, keep);
      var m' := FirstMask(init, key, keep);
      assert m[..n - 1] == m' by {
        forall i | 0 <= i < n - 1 ensures m[..n - 1][i] == m'[i] {
          assert IsFirstOfKey(xs, key, keep, i) == IsFirstOfKey(init, key, keep, i);
        }
      }
      var kept := KeepFirst(init, key, keep);
      if keep(key(x)) {
        if key(x) in KeySet(kept, key) {
          var j :| 0 <= j < n - 1 && keep(key(init[j])) && key(init[j]) == key(x);
          assert !m[n - 1];
        } else {
          assert forall j :: 0 <= j < n - 1 ==> key(init[j]) != key(x);
          assert m[n - 1];
        }
      }
    }
  }

  /** On a sequence whose keys are admissible and pairwise distinct, KeepFirst keeps everything. */
  lemma {:induction false} KeepFirstOfDistinct<T, K>(xs: seq<T>, key: T -> K, keep: K -> bool)
    requires forall i :: 0 <= i < |xs| ==> keep(key(xs[i]))
    requires KeysDistinct(xs, key)
    ensures KeepFirst(xs, key, keep) == xs
  {
    if xs != [] {
      var n := |xs|;
      var init := xs[..n - 1];
      KeepFirstOfDistinct(init, key, keep);
      assert KeySet(init, key) == set i | 0 <= i < |init| && keep(key(init[i])) :: key(init[i]);
      assert key(xs[n - 1]) !in KeySet(init, key);
      assert init + [xs[n - 1]] == xs;
    }
  }

  /** Running KeepFirst a second time changes nothing. */
  lemma KeepFirstIdempotent<T, K>(xs: seq<T>, key: T -> K, keep: K -> bool)
    ensures KeepFirst(KeepFirst(xs, key, keep), key, keep) == KeepFirst(xs, key, keep)
  {
    var r := KeepFirst(xs, key, keep);
    KeepFirstOfDistinct(r, key, keep);
  }

  /** The identity, used as the key when elements are their own key. */
  function Id<T>(x: T): T { x }

  /** Every element is admissible. */
  function Always<T>(x: T): bool { true }

  /** Order-preserving removal of repeated elements. */
  function Dedup<T(==)>(xs: seq<T>): (r: seq<T>)
    ensures forall i :: 0 <= i < |r| ==> r[i] in xs
    ensures forall i :: 0 <= i < |xs| ==> xs[i] in r
    ensures KeysDistinct(r, Id)
  {
    var r := KeepFirst(xs, Id, Always);
    forall i | 0 <= i < |xs| ensures xs[i] in r {
      assert Id(xs[i]) in KeySet(r, Id);
    }
    r
  }
}
