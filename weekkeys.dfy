/**
 * Week keys ("YYYY-WW" strings) and the order pandas sorts them in:
 * Python's `<` on `str`, which compares code points lexicographically.
 */
module WeekKeys {

  type WeekKey = string

  /** Python's `a < b` on strings. */
  predicate Less(a: string, b: string)
  {
    if a == [] then b != []
    else if b == [] then false
    else a[0] < b[0] || (a[0] == b[0] && Less(a[1..], b[1..]))
  }

  lemma {:induction false} LessIrreflexive(a: string)
    ensures !Less(a, a)
  {
    if a != [] {
      LessIrreflexive(a[1..]);
    }
  }

  lemma {:induction false} LessTransitive(a: string, b: string, c: string)
    requires Less(a, b) && Less(b, c)
    ensures Less(a, c)
  {
    if a != [] && b != [] && c != [] && a[0] == b[0] == c[0] {
      LessTransitive(a[1..], b[1..], c[1..]);
    }
  }

  lemma {:induction false} LessTotal(a: string, b: string)
    ensures a == b || Less(a, b) || Less(b, a)
  {
    if a != [] && b != [] && a[0] == b[0] {
      LessTotal(a[1..], b[1..]);
      if a[1..] == b[1..] {
        assert a == [a[0]] + a[1..] && b == [b[0]] + b[1..];
      }
    }
  }

  /** Ascending without repeats: the shape of a `groupby(...).mean().reset_index()` key column. */
  predicate StrictlySorted(ks: seq<WeekKey>)
  {
    forall i, j :: 0 <= i < j < |ks| ==> Less(ks[i], ks[j])
  }

  /** A strictly sorted key column never repeats a key. */
  lemma StrictlySortedDistinct(ks: seq<WeekKey>, i: int, j: int)
    requires StrictlySorted(ks)
    requires 0 <= i < |ks| && 0 <= j < |ks| && ks[i] == ks[j]
    ensures i == j
  {
    if i < j {
      LessIrreflexive(ks[i]);
    } else if j < i {
      LessIrreflexive(ks[j]);
    }
  }

  lemma StrictlySortedTail(ks: seq<WeekKey>)
    requires StrictlySorted(ks) && ks != []
    ensures StrictlySorted(ks[1..])
    ensures ks[0] !in ks[1..]
  {
    if ks[0] in ks[1..] {
      var j :| 0 <= j < |ks[1..]| && ks[1..][j] == ks[0];
      StrictlySortedDistinct(ks, 0, j + 1);
    }
  }

  /** Puts `k` into its place in a strictly sorted key column, unless it is already there. */
  function Insert(k: WeekKey, ks: seq<WeekKey>): (r: seq<WeekKey>)
    requires StrictlySorted(ks)
    ensures StrictlySorted(r)
    ensures forall x :: x in r <==> x == k || x in ks
  {
    if ks == [] then [k]
    else if k == ks[0] then ks
    else if Less(k, ks[0]) then
      assert forall j :: 0 < j < |ks| ==> Less(k, ks[j]) by {
        forall j | 0 < j < |ks| ensures Less(k, ks[j]) {
          LessTransitive(k, ks[0], ks[j]);
        }
      }
      [k] + ks
    else
      LessTotal(k, ks[0]);
      var tail := Insert(k, ks[1..]);
      assert forall x :: x in tail ==> Less(ks[0], x);
      [ks[0]] + tail
  }

  /** The distinct keys of a key column, in ascending order: pandas' default `groupby` key order. */
  function SortedKeys(ks: seq<WeekKey>): (r: seq<WeekKey>)
    ensures StrictlySorted(r)
    ensures forall k :: k in r <==> k in ks
  {
    if ks == [] then []
    else
      assert ks == [ks[0]] + ks[1..];
      Insert(ks[0], SortedKeys(ks[1..]))
  }
}
