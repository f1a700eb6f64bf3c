/** Filtering, ordering and slicing of the in-memory collections that stand in for the store. */
module Sequences {
  import opened Common

  /** `s` is in ascending order of `key`. */
  ghost predicate SortedBy<T>(s: seq<T>, key: T -> int) {
    forall i, j :: 0 <= i < j < |s| ==> key(s[i]) <= key(s[j])
  }

  /** Putting an element no greater than the head in front of a sorted sequence keeps it sorted. */
  lemma SortedCons<T>(y: T, t: seq<T>, key: T -> int)
    requires SortedBy(t, key) && (t == [] || key(y) <= key(t[0]))
    ensures SortedBy([y] + t, key)
  {
    var r := [y] + t;
    forall i, j | 0 <= i < j < |r| ensures key(r[i]) <= key(r[j]) {
      assert r[j] == t[j - 1];
      if i == 0 {
        assert key(t[0]) <= key(t[j - 1]);
      } else {
        assert r[i] == t[i - 1];
      }
    }
  }

  /** Inserts `x` before the first element whose key is not smaller. */
  function InsertBy<T>(x: T, s: seq<T>, key: T -> int): (r: seq<T>)
    requires SortedBy(s, key)
    ensures SortedBy(r, key)
    ensures multiset(r) == multiset(s) + multiset{x}
    ensures |r| == |s| + 1 && (r[0] == x || (s != [] && r[0] == s[0]))
  {
    if s == [] then [x]
    else if key(x) <= key(s[0]) then
      SortedCons(x, s, key);
      [x] + s
    else
      assert s == [s[0]] + s[1..];
      var tail := InsertBy(x, s[1..], key);
      SortedCons(s[0], tail, key);
      [s[0]] + tail
  }

  /** A stable insertion sort: the result is ordered by `key` and is a permutation of `s`. */
  function SortBy<T>(s: seq<T>, key: T -> int): (r: seq<T>)
    ensures SortedBy(r, key)
    ensures multiset(r) == multiset(s)
    ensures |r| == |s|
  {
    if s == [] then []
    else
      assert s == [s[0]] + s[1..];
      var r := InsertBy(s[0], SortBy(s[1..], key), key);
      assert |r| == |multiset(r)|;
      r
  }

  /** Sorting neither adds nor drops elements. */
  lemma SortedMembers<T>(s: seq<T>, key: T -> int)
    ensures forall x :: x in SortBy(s, key) <==> x in s
  {
    var r := SortBy(s, key);
    forall x ensures x in r <==> x in s {
      assert x in r <==> x in multiset(r);
      assert x in s <==> x in multiset(s);
    }
  }

  /** The elements of `s` that satisfy `p`, in their original order. */
  function Filter<T(!new)>(s: seq<T>, p: T -> bool): (r: seq<T>)
    ensures |r| <= |s|
    ensures forall x :: x in r <==> x in s && p(x)
    ensures forall x :: multiset(r)[x] == if p(x) then multiset(s)[x] else 0
    ensures multiset(r) <= multiset(s)
  {
    if s == [] then []
    else
      assert s == [s[0]] + s[1..];
      var rest := Filter(s[1..], p);
      if p(s[0]) then [s[0]] + rest else rest
  }

  /** The first `n` elements of `s`, or all of it when it is shorter (a cursor's `limit`). */
  function Take<T>(s: seq<T>, n: nat): (r: seq<T>)
    ensures |r| == if |s| < n then |s| else n
    ensures r == s[..|r|]
  {
    if |s| <= n then s else s[..n]
  }

  /** All but the first `n` elements of `s` (a cursor's `skip`). */
  function Drop<T>(s: seq<T>, n: nat): (r: seq<T>)
    ensures |r| == if |s| < n then 0 else |s| - n
    ensures forall i :: 0 <= i < |r| ==> r[i] == s[n + i]
  {
    if |s| <= n then [] else s[n..]
  }

  /** `skip(skip).limit(limit)`: the window of at most `limit` elements starting at `skip`. */
  function Window<T>(s: seq<T>, skip: nat, limit: nat): (r: seq<T>)
    ensures |r| == if skip < |s| then (if limit < |s| - skip then limit else |s| - skip) else 0
    ensures |r| <= limit
    ensures |r| > 0 <==> skip < |s| && limit > 0
    ensures forall i :: 0 <= i < |r| ==> skip + i < |s| && r[i] == s[skip + i]
  {
    Take(Drop(s, skip), limit)
  }

  /** The position of the first element that satisfies `p`. */
  function IndexWhere<T>(s: seq<T>, p: T -> bool): (r: Option<nat>)
    ensures r.Some? ==> r.value < |s| && p(s[r.value]) && forall j :: 0 <= j < r.value ==> !p(s[j])
    ensures r.None? <==> forall j :: 0 <= j < |s| ==> !p(s[j])
  {
    if s == [] then None
    else if p(s[0]) then Some(0)
    else match IndexWhere(s[1..], p)
      case None => None
      case Some(k) => Some(k + 1)
  }

  /**
   * The first `n` of a sorted permutation are the smallest: an element of `s` left out of
   * them means all `n` were taken, each with a key no greater than its own.
   */
  lemma TakeSortedIsSmallest<T>(s: seq<T>, key: T -> int, n: nat, x: T)
    requires x in s && x !in Take(SortBy(s, key), n)
    ensures |Take(SortBy(s, key), n)| == n
    ensures forall i :: 0 <= i < n ==> key(Take(SortBy(s, key), n)[i]) <= key(x)
  {
    var sorted := SortBy(s, key);
    assert x in multiset(s);
    assert x in multiset(sorted);
    var k :| 0 <= k < |sorted| && sorted[k] == x;
  }

  /** A prefix of a sorted sequence is sorted and draws its elements from the sequence. */
  lemma TakeOfSorted<T>(s: seq<T>, key: T -> int, n: nat)
    requires SortedBy(s, key)
    ensures SortedBy(Take(s, n), key)
    ensures forall x :: x in Take(s, n) ==> x in s
  {
    var r := Take(s, n);
    forall i, j | 0 <= i < j < |r| ensures key(r[i]) <= key(r[j]) {
      assert r[i] == s[i] && r[j] == s[j];
    }
    forall x | x in r ensures x in s {
      var i :| 0 <= i < |r| && r[i] == x;
      assert s[i] == x;
    }
  }

  /** `sort(key).limit(n)`: the `n` elements of `s` with the smallest keys, in ascending order. */
  function SmallestBy<T>(s: seq<T>, key: T -> int, n: nat): (r: seq<T>)
    ensures |r| <= n
    ensures SortedBy(r, key)
    ensures forall x :: x in r ==> x in s
    ensures multiset(r) <= multiset(s)
    ensures forall x :: x in s && x !in r ==>
      |r| == n && forall i :: 0 <= i < |r| ==> key(r[i]) <= key(x)
  {
    var sorted := SortBy(s, key);
    TakeOfSorted(sorted, key, n);
    var r := Take(sorted, n);
    PrefixSubMultiset(sorted, |r|);
    SortedMembers(s, key);
    forall x | x in s && x !in r
      ensures |r| == n && forall i :: 0 <= i < |r| ==> key(r[i]) <= key(x)
    {
      TakeSortedIsSmallest(s, key, n, x);
    }
    r
  }

  /** A prefix holds no element more often than the whole sequence does. */
  lemma PrefixSubMultiset<T>(s: seq<T>, k: nat)
    requires k <= |s|
    ensures multiset(s[..k]) <= multiset(s)
  {
    assert s == s[..k] + s[k..];
    assert multiset(s) == multiset(s[..k]) + multiset(s[k..]);
  }

  /** `find(p).sort(key).limit(n)`: the `n` elements satisfying `p` with the smallest keys. */
  function SmallestWhere<T(!new)>(s: seq<T>, p: T -> bool, key: T -> int, n: nat): (r: seq<T>)
    ensures |r| <= n
    ensures SortedBy(r, key)
    ensures forall x :: x in r ==> x in s && p(x)
    ensures multiset(r) <= multiset(s)
    ensures forall x :: x in s && p(x) && x !in r ==>
      |r| == n && forall i :: 0 <= i < |r| ==> key(r[i]) <= key(x)
  {
    var matching := Filter(s, p);
    var r := SmallestBy(matching, key, n);
    SubMultisetTrans(r, matching, s);
    r
  }

  /** `sort(-key)`: a permutation of `s` in descending key order. */
  function SortDescBy<T>(s: seq<T>, key: T -> int): (r: seq<T>)
    ensures forall i, j :: 0 <= i < j < |r| ==> key(r[i]) >= key(r[j])
    ensures multiset(r) == multiset(s)
    ensures |r| == |s|
  {
    SortBy(s, x => -key(x))
  }

  /** `find(p).sort(-key).limit(n)`: the `n` elements satisfying `p` with the largest keys. */
  function LargestWhere<T(!new)>(s: seq<T>, p: T -> bool, key: T -> int, n: nat): (r: seq<T>)
    ensures |r| <= n
    ensures forall i, j :: 0 <= i < j < |r| ==> key(r[i]) >= key(r[j])
    ensures forall x :: x in r ==> x in s && p(x)
    ensures multiset(r) <= multiset(s)
    ensures forall x :: x in s && p(x) && x !in r ==>
      |r| == n && forall i :: 0 <= i < |r| ==> key(r[i]) >= key(x)
  {
    SmallestWhere(s, p, x => -key(x), n)
  }

  lemma SubMultisetTrans<T>(a: seq<T>, b: seq<T>, c: seq<T>)
    requires multiset(a) <= multiset(b) && multiset(b) <= multiset(c)
    ensures multiset(a) <= multiset(c)
  {
  }

  /** No two elements share a key (the records' ids). */
  ghost predicate UniqueKeys<T>(s: seq<T>, key: T -> nat) {
    forall i, j :: 0 <= i < j < |s| ==> key(s[i]) != key(s[j])
  }

  /** Appending an element whose key is above every present key keeps the keys unique. */
  lemma AppendAboveKeepsUnique<T>(s: seq<T>, key: T -> nat, x: T)
    requires UniqueKeys(s, key)
    requires forall i :: 0 <= i < |s| ==> key(s[i]) < key(x)
    ensures UniqueKeys(s + [x], key)
    ensures forall i :: 0 <= i < |s| + 1 ==> key((s + [x])[i]) <= key(x)
  {
  }

  predicate HasKey<T>(s: seq<T>, key: T -> nat, k: nat) {
    exists i :: 0 <= i < |s| && key(s[i]) == k
  }

  /** Position of the element with key `k` (`findById`). */
  function IndexOfKey<T>(s: seq<T>, key: T -> nat, k: nat): (r: Option<nat>)
    ensures r.Some? ==> r.value < |s| && key(s[r.value]) == k
    ensures r.None? <==> !HasKey(s, key, k)
  {
    IndexWhere(s, (x: T) => key(x) == k)
  }

  /** Removing one position keeps the keys unique. */
  lemma RemoveKeepsUnique<T>(s: seq<T>, key: T -> nat, k: nat)
    requires UniqueKeys(s, key) && k < |s|
    ensures UniqueKeys(s[..k] + s[k + 1..], key)
  {
    var r := s[..k] + s[k + 1..];
    forall i, j | 0 <= i < j < |r| ensures key(r[i]) != key(r[j]) {
      var i' := if i < k then i else i + 1;
      var j' := if j < k then j else j + 1;
      assert r[i] == s[i'] && r[j] == s[j'];
    }
  }

  /** Removing position `k` keeps exactly the elements whose key differs from the key there. */
  lemma RemoveMembers<T>(s: seq<T>, key: T -> nat, k: nat)
    requires UniqueKeys(s, key) && k < |s|
    ensures forall x :: x in s[..k] + s[k + 1..] <==> x in s && key(x) != key(s[k])
  {
    var r := s[..k] + s[k + 1..];
    forall x ensures x in r <==> x in s && key(x) != key(s[k]) {
      if x in r {
        var i :| 0 <= i < |r| && r[i] == x;
        var i' := if i < k then i else i + 1;
        assert s[i'] == x && i' != k;
      }
      if x in s && key(x) != key(s[k]) {
        var i :| 0 <= i < |s| && s[i] == x;
        assert i != k;
        assert r[if i < k then i else i - 1] == x;
      }
    }
  }
}
