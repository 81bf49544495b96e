/**
 * Sorting a frame by one numeric column (pandas `sort_values`) and keeping
 * its first rows (`head`, `nsmallest` on a sorted frame). pandas' default
 * sort is not stable, so nothing here promises an order among rows whose
 * keys are equal: the sort is specified only as "ascending and a
 * permutation".
 */
module Sorting {

  predicate SortedBy<T>(s: seq<T>, key: T -> real)
  {
    forall i, j :: 0 <= i < j < |s| ==> key(s[i]) <= key(s[j])
  }

  /** Puts `x` into its place in a sorted frame; the new first row is `x` or the old first row. */
  function InsertBy<T>(x: T, s: seq<T>, key: T -> real): (r: seq<T>)
    requires SortedBy(s, key)
    ensures SortedBy(r, key)
    ensures multiset(r) == multiset(s) + multiset{x}
    ensures r[0] == x || r[0] == s[0]
  {
    if s == [] then [x]
    else if key(x) <= key(s[0]) then
      [x] + s
    else
      var tail := InsertBy(x, s[1..], key);
      assert s == [s[0]] + s[1..];
      ConsSorted(s[0], tail, key);
      [s[0]] + tail
  }

  /** A row no greater than the first of a sorted frame can go in front of it. */
  lemma ConsSorted<T>(h: T, t: seq<T>, key: T -> real)
    requires SortedBy(t, key)
    requires t != [] ==> key(h) <= key(t[0])
    ensures SortedBy([h] + t, key)
  {
    var r := [h] + t;
    forall i, j | 0 <= i < j < |r| ensures key(r[i]) <= key(r[j]) {
      if i == 0 {
        assert r[j] == t[j - 1];
      } else {
        assert r[i] == t[i - 1] && r[j] == t[j - 1];
      }
    }
  }

  /** The rows of `s` in ascending order of `key`. */
  function SortBy<T>(s: seq<T>, key: T -> real): (r: seq<T>)
    ensures SortedBy(r, key)
    ensures multiset(r) == multiset(s)
  {
    if s == [] then []
    else
      assert s == [s[0]] + s[1..];
      InsertBy(s[0], SortBy(s[1..], key), key)
  }

  /** `head(k)`: the first `k` rows, or all of them when there are fewer. */
  function Take<T>(s: seq<T>, k: nat): (r: seq<T>)
    ensures |r| == if |s| < k then |s| else k
    ensures r <= s
  {
    if |s| <= k then s else s[..k]
  }

  /**
   * The first `k` rows of a sorted frame are its `k` smallest: every row
   * left behind has a key at least that of every row kept.
   */
  lemma TakeSmallest<T>(s: seq<T>, key: T -> real, k: nat)
    requires SortedBy(s, key)
    ensures forall x, y :: x in multiset(s) - multiset(Take(s, k)) && y in Take(s, k) ==> key(y) <= key(x)
  {
    if k < |s| {
      assert s == s[..k] + s[k..];
      forall x, y | x in multiset(s) - multiset(Take(s, k)) && y in Take(s, k)
        ensures key(y) <= key(x)
      {
        assert multiset(s) == multiset(s[..k]) + multiset(s[k..]);
        assert x in multiset(s[k..]);
        var j :| k <= j < |s| && s[j] == x;
        var i :| 0 <= i < k && s[i] == y;
      }
    }
  }
}
