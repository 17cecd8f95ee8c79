/**
 * Collections.sort as the importer uses it: a stable sort of a list by an
 * integer key, ascending. The model sorts by insertion with the sign-correct
 * comparison; the lemmas show that the result is sorted, a permutation of the
 * input, keeps the input order among equal keys, and is the only sequence with
 * those three properties (so any stable sort, the JDK's included, gives it).
 */
module StableSort {

  /** Integer.compare: negative, zero or positive as a is below, equal to or above b. */
  function CompareInts(a: int, b: int): (c: int)
    ensures c < 0 <==> a < b
    ensures c == 0 <==> a == b
    ensures c > 0 <==> a > b
  {
    if a < b then -1 else if a == b then 0 else 1
  }

  predicate SortedByKey<T>(s: seq<T>, key: T -> int) {
    forall i, j :: 0 <= i < j < |s| ==> key(s[i]) <= key(s[j])
  }

  predicate Distinct<T(==)>(s: seq<T>) {
    forall i, j :: 0 <= i < j < |s| ==> s[i] != s[j]
  }

  /** The elements of s whose key is k, in the order of s. */
  function KeyFilter<T>(s: seq<T>, key: T -> int, k: int): seq<T> {
    if s == [] then [] else (if key(s[0]) == k then [s[0]] else []) + KeyFilter(s[1..], key, k)
  }

  lemma {:induction false} KeyFilterMember<T>(s: seq<T>, key: T -> int, k: int, x: T)
    ensures x in KeyFilter(s, key, k) <==> x in s && key(x) == k
  {
    if s != [] {
      KeyFilterMember(s[1..], key, k, x);
      assert x in s <==> x == s[0] || x in s[1..];
    }
  }

  /** x goes before the first element whose key is not below its own. */
  function InsertByKey<T>(x: T, s: seq<T>, key: T -> int): (r: seq<T>)
    ensures |r| == |s| + 1
    ensures multiset(r) == multiset(s) + multiset{x}
  {
    if s == [] || CompareInts(key(x), key(s[0])) <= 0 then [x] + s
    else
      assert s == [s[0]] + s[1..];
      [s[0]] + InsertByKey(x, s[1..], key)
  }

  function SortByKey<T>(s: seq<T>, key: T -> int): (r: seq<T>)
    ensures |r| == |s|
    ensures multiset(r) == multiset(s)
  {
    if s == [] then []
    else
      assert s == [s[0]] + s[1..];
      InsertByKey(s[0], SortByKey(s[1..], key), key)
  }

  lemma {:induction false} InsertSorted<T>(x: T, s: seq<T>, key: T -> int)
    requires SortedByKey(s, key)
    ensures SortedByKey(InsertByKey(x, s, key), key)
    ensures InsertByKey(x, s, key) != [] && key(InsertByKey(x, s, key)[0]) == (if s == [] || key(x) <= key(s[0]) then key(x) else key(s[0]))
  {
    if s != [] && key(x) > key(s[0]) {
      InsertSorted(x, s[1..], key);
    }
  }

  /** The result is ascending by key. */
  lemma {:induction false} SortSorted<T>(s: seq<T>, key: T -> int)
    ensures SortedByKey(SortByKey(s, key), key)
  {
    if s != [] {
      SortSorted(s[1..], key);
      InsertSorted(s[0], SortByKey(s[1..], key), key);
    }
  }

  lemma {:induction false} KeyFilterAppend<T>(a: seq<T>, b: seq<T>, key: T -> int, k: int)
    ensures KeyFilter(a + b, key, k) == KeyFilter(a, key, k) + KeyFilter(b, key, k)
  {
    if a != [] {
      assert (a + b)[1..] == a[1..] + b;
      KeyFilterAppend(a[1..], b, key, k);
    } else {
      assert a + b == b;
    }
  }

  lemma {:induction false} InsertStable<T>(x: T, s: seq<T>, key: T -> int, k: int)
    requires SortedByKey(s, key)
    ensures KeyFilter(InsertByKey(x, s, key), key, k) == (if key(x) == k then [x] else []) + KeyFilter(s, key, k)
  {
    if s == [] || key(x) <= key(s[0]) {
      KeyFilterAppend([x], s, key, k);
    } else {
      InsertStable(x, s[1..], key, k);
      KeyFilterAppend([s[0]], InsertByKey(x, s[1..], key), key, k);
      KeyFilterAppend([s[0]], s[1..], key, k);
      assert [s[0]] + s[1..] == s;
    }
  }

  /** Stability: among elements with equal keys the input order is kept. */
  lemma {:induction false} SortStable<T>(s: seq<T>, key: T -> int, k: int)
    ensures KeyFilter(SortByKey(s, key), key, k) == KeyFilter(s, key, k)
  {
    if s != [] {
      SortSorted(s[1..], key);
      InsertStable(s[0], SortByKey(s[1..], key), key, k);
      SortStable(s[1..], key, k);
    }
  }

  lemma {:induction false} InsertDistinct<T>(x: T, s: seq<T>, key: T -> int)
    requires Distinct(s) && x !in s
    ensures Distinct(InsertByKey(x, s, key))
  {
    if s != [] && CompareInts(key(x), key(s[0])) > 0 {
      var rest := InsertByKey(x, s[1..], key);
      assert Distinct(s[1..]);
      InsertDistinct(x, s[1..], key);
      assert s[0] !in rest by {
        assert s[0] !in s[1..] && s[0] != x;
        assert multiset(rest)[s[0]] == multiset(s[1..])[s[0]] + multiset{x}[s[0]];
      }
      assert InsertByKey(x, s, key) == [s[0]] + rest;
    }
  }

  /** Sorting a list without repeated elements creates none. */
  lemma {:induction false} SortDistinct<T>(s: seq<T>, key: T -> int)
    requires Distinct(s)
    ensures Distinct(SortByKey(s, key))
  {
    if s != [] {
      var tail := SortByKey(s[1..], key);
      assert Distinct(s[1..]);
      SortDistinct(s[1..], key);
      assert s[0] !in tail by {
        assert s[0] !in s[1..];
        assert multiset(tail)[s[0]] == multiset(s[1..])[s[0]];
      }
      InsertDistinct(s[0], tail, key);
    }
  }

  lemma SortedFilterHead<T>(s: seq<T>, key: T -> int)
    requires s != [] && SortedByKey(s, key)
    ensures KeyFilter(s, key, key(s[0])) != [] && KeyFilter(s, key, key(s[0]))[0] == s[0]
  {
  }

  lemma SortedHeadIsLeast<T>(s: seq<T>, key: T -> int, x: T)
    requires SortedByKey(s, key) && x in s
    ensures key(s[0]) <= key(x)
  {
    var i :| 0 <= i < |s| && s[i] == x;
    assert i == 0 || key(s[0]) <= key(s[i]);
  }

  lemma FilterTails<T>(a: seq<T>, b: seq<T>, key: T -> int, k: int)
    requires a != [] && b != [] && a[0] == b[0]
    requires KeyFilter(a, key, k) == KeyFilter(b, key, k)
    ensures KeyFilter(a[1..], key, k) == KeyFilter(b[1..], key, k)
  {
    var head := if key(a[0]) == k then [a[0]] else [];
    assert KeyFilter(a, key, k) == head + KeyFilter(a[1..], key, k);
    assert KeyFilter(b, key, k) == head + KeyFilter(b[1..], key, k);
    assert KeyFilter(a[1..], key, k) == KeyFilter(a, key, k)[|head|..];
    assert KeyFilter(b[1..], key, k) == KeyFilter(b, key, k)[|head|..];
  }

  /**
   * Two sequences that are sorted by key and agree, key by key, on the order
   * of their elements are equal: a stable sort has only one possible result.
   */
  lemma {:induction false} StableSortUnique<T>(a: seq<T>, b: seq<T>, key: T -> int)
    requires |a| == |b| && SortedByKey(a, key) && SortedByKey(b, key)
    requires forall k :: KeyFilter(a, key, k) == KeyFilter(b, key, k)
    ensures a == b
    decreases |a|
  {
    if a != [] {
      var ka, kb := key(a[0]), key(b[0]);
      assert ka == kb by {
        KeyFilterMember(a, key, ka, a[0]);
        assert KeyFilter(a, key, ka) == KeyFilter(b, key, ka);
        KeyFilterMember(b, key, ka, a[0]);
        SortedHeadIsLeast(b, key, a[0]);
        KeyFilterMember(b, key, kb, b[0]);
        assert KeyFilter(a, key, kb) == KeyFilter(b, key, kb);
        KeyFilterMember(a, key, kb, b[0]);
        SortedHeadIsLeast(a, key, b[0]);
      }
      SortedFilterHead(a, key);
      SortedFilterHead(b, key);
      assert KeyFilter(a, key, ka) == KeyFilter(b, key, ka);
      assert a[0] == b[0];
      forall k
        ensures KeyFilter(a[1..], key, k) == KeyFilter(b[1..], key, k)
      {
        FilterTails(a, b, key, k);
      }
      StableSortUnique(a[1..], b[1..], key);
      assert a == [a[0]] + a[1..] && b == [b[0]] + b[1..];
    }
  }

  /** Hence SortByKey(s) is exactly the result of every stable ascending sort of s. */
  lemma CharacterizeSort<T>(s: seq<T>, r: seq<T>, key: T -> int)
    requires |r| == |s| && SortedByKey(r, key)
    requires forall k :: KeyFilter(r, key, k) == KeyFilter(s, key, k)
    ensures r == SortByKey(s, key)
  {
    SortSorted(s, key);
    forall k ensures KeyFilter(r, key, k) == KeyFilter(SortByKey(s, key), key, k) {
      SortStable(s, key, k);
    }
    StableSortUnique(r, SortByKey(s, key), key);
  }

  /** f applied to every element, in order. */
  function MapSeq<A, B>(s: seq<A>, f: A -> B): (r: seq<B>)
    ensures |r| == |s|
    ensures forall i :: 0 <= i < |s| ==> r[i] == f(s[i])
  {
    seq(|s|, i requires 0 <= i < |s| => f(s[i]))
  }

  lemma DistinctAppend<T>(s: seq<T>, x: T)
    requires Distinct(s) && x !in s
    ensures Distinct(s + [x])
  {
  }

  lemma MapSeqAppend<A, B>(s: seq<A>, x: A, f: A -> B)
    ensures MapSeq(s + [x], f) == MapSeq(s, f) + [f(x)]
  {
  }

  lemma MapSeqCons<A, B>(x: A, s: seq<A>, f: A -> B)
    ensures MapSeq([x] + s, f) == [f(x)] + MapSeq(s, f)
  {
    assert forall i :: 0 < i <= |s| ==> ([x] + s)[i] == s[i - 1];
  }

  lemma {:induction false} InsertMap<A, B>(x: A, s: seq<A>, f: A -> B, ka: A -> int, kb: B -> int)
    requires forall a :: kb(f(a)) == ka(a)
    ensures MapSeq(InsertByKey(x, s, ka), f) == InsertByKey(f(x), MapSeq(s, f), kb)
  {
    if s == [] {
      MapSeqCons(x, [], f);
    } else {
      var fs := MapSeq(s, f);
      assert s == [s[0]] + s[1..];
      MapSeqCons(s[0], s[1..], f);
      assert kb(f(x)) == ka(x) && kb(fs[0]) == ka(s[0]);
      if CompareInts(ka(x), ka(s[0])) <= 0 {
        MapSeqCons(x, s, f);
      } else {
        var rest := InsertByKey(x, s[1..], ka);
        InsertMap(x, s[1..], f, ka, kb);
        MapSeqCons(s[0], rest, f);
      }
    }
  }

  /** Sorting commutes with a map that keeps the key: sorting the images sorts the originals' images. */
  lemma {:induction false} SortMap<A, B>(s: seq<A>, f: A -> B, ka: A -> int, kb: B -> int)
    requires forall a :: kb(f(a)) == ka(a)
    ensures MapSeq(SortByKey(s, ka), f) == SortByKey(MapSeq(s, f), kb)
  {
    if s != [] {
      SortMap(s[1..], f, ka, kb);
      InsertMap(s[0], SortByKey(s[1..], ka), f, ka, kb);
      assert s == [s[0]] + s[1..];
      MapSeqCons(s[0], s[1..], f);
    }
  }
}
