/**
 * `left.merge(right, on='report_date_YW', how='inner')` where `right` is a
 * weekly aggregate (week, value). Each row of the growing frame keeps its
 * week key, the row of the original left frame, and the weather columns the
 * joins so far have added. As pandas documents for `how='inner'` without
 * sorting, the result keeps the order of the left rows; a left row with
 * several matching right rows is repeated once per match, in right order.
 */
module Join {
  import opened Wrappers
  import opened WeekKeys
  import opened Aggregate

  datatype Row<L> = Row(week: WeekKey, left: L, added: seq<real>)

  /** The values of the right rows whose week is `k`, in right order. */
  function Matches(right: seq<WeekValue>, k: WeekKey): (vs: seq<real>)
    ensures vs == [] <==> k !in Weeks(right)
    ensures forall v :: v in vs ==> WeekValue(k, v) in right
  {
    if right == [] then []
    else
      assert Weeks(right) == [right[0].week] + Weeks(right[1..]);
      (if right[0].week == k then [right[0].value] else []) + Matches(right[1..], k)
  }

  /** The left row `r` once for each matching value, that value appended as a new column. */
  function Extend<L>(r: Row<L>, vs: seq<real>): (out: seq<Row<L>>)
    ensures |out| == |vs|
    ensures forall i :: 0 <= i < |vs| ==> out[i] == Row(r.week, r.left, r.added + [vs[i]])
  {
    if vs == [] then [] else [Row(r.week, r.left, r.added + [vs[0]])] + Extend(r, vs[1..])
  }

  /**
   * `left.merge(right, on=week, how='inner')`: every output row is a left
   * row with one more column, holding a value the right frame has for that
   * row's week.
   */
  function InnerJoin<L>(left: seq<Row<L>>, right: seq<WeekValue>): (out: seq<Row<L>>)
    ensures forall r :: r in out ==>
      && |r.added| >= 1
      && Row(r.week, r.left, r.added[..|r.added| - 1]) in left
      && WeekValue(r.week, r.added[|r.added| - 1]) in right
  {
    if left == [] then [] else Extend(left[0], Matches(right, left[0].week)) + InnerJoin(left[1..], right)
  }

  /** The value of the first right row whose week is `k`. */
  function Lookup(right: seq<WeekValue>, k: WeekKey): (v: Option<real>)
    ensures v.Some? <==> k in Weeks(right)
    ensures v.Some? ==> WeekValue(k, v.value) in right
  {
    if right == [] then None
    else
      assert Weeks(right) == [right[0].week] + Weeks(right[1..]);
      if right[0].week == k then Some(right[0].value) else Lookup(right[1..], k)
  }

  /** An aggregate whose weeks are unique matches each week at most once: the `Lookup` value. */
  lemma {:induction false} MatchesUnique(right: seq<WeekValue>, k: WeekKey)
    requires StrictlySorted(Weeks(right))
    ensures Matches(right, k) == if k in Weeks(right) then [Lookup(right, k).value] else []
  {
    if right != [] {
      assert Weeks(right)[1..] == Weeks(right[1..]);
      StrictlySortedTail(Weeks(right));
      MatchesUnique(right[1..], k);
    }
  }

  /** An inner join against an aggregate with unique weeks: each left row kept once, with its week's value, iff the week is there. */
  function JoinUnique<L>(left: seq<Row<L>>, right: seq<WeekValue>): seq<Row<L>>
  {
    if left == [] then []
    else
      var r := left[0];
      var rest := JoinUnique(left[1..], right);
      if r.week in Weeks(right) then [Row(r.week, r.left, r.added + [Lookup(right, r.week).value])] + rest
      else rest
  }

  /** When the aggregate's weeks are unique, pandas' inner join is `JoinUnique`. */
  lemma {:induction false} InnerJoinUnique<L>(left: seq<Row<L>>, right: seq<WeekValue>)
    requires StrictlySorted(Weeks(right))
    ensures InnerJoin(left, right) == JoinUnique(left, right)
  {
    if left != [] {
      MatchesUnique(right, left[0].week);
      InnerJoinUnique(left[1..], right);
    }
  }

  /**
   * The reference for three successive joins: the left rows whose week has
   * a value in each of `a`, `b` and `c`, in left order, each with those
   * three values appended.
   */
  function Covered<L>(left: seq<Row<L>>, a: seq<WeekValue>, b: seq<WeekValue>, c: seq<WeekValue>): seq<Row<L>>
  {
    if left == [] then []
    else
      var r := left[0];
      var rest := Covered(left[1..], a, b, c);
      if r.week in Weeks(a) && r.week in Weeks(b) && r.week in Weeks(c) then
        [Row(r.week, r.left, r.added + [Lookup(a, r.week).value, Lookup(b, r.week).value, Lookup(c, r.week).value])] + rest
      else rest
  }

  lemma {:induction false} JoinUniqueThrice<L>(left: seq<Row<L>>, a: seq<WeekValue>, b: seq<WeekValue>, c: seq<WeekValue>)
    ensures JoinUnique(JoinUnique(JoinUnique(left, a), b), c) == Covered(left, a, b, c)
  {
    if left != [] {
      var r := left[0];
      JoinUniqueThrice(left[1..], a, b, c);
      if r.week in Weeks(a) {
        var j1 := JoinUnique(left, a);
        var r1 := Row(r.week, r.left, r.added + [Lookup(a, r.week).value]);
        assert j1 == [r1] + JoinUnique(left[1..], a);
        assert j1[0] == r1 && j1[1..] == JoinUnique(left[1..], a);
        if r.week in Weeks(b) {
          var j2 := JoinUnique(j1, b);
          var r2 := Row(r.week, r.left, r1.added + [Lookup(b, r.week).value]);
          assert j2 == [r2] + JoinUnique(JoinUnique(left[1..], a), b);
          assert j2[0] == r2 && j2[1..] == JoinUnique(JoinUnique(left[1..], a), b);
          if r.week in Weeks(c) {
            var x, y, z := Lookup(a, r.week).value, Lookup(b, r.week).value, Lookup(c, r.week).value;
            assert (r.added + [x]) + [y] + [z] == r.added + [x, y, z];
          }
        }
      }
    }
  }

  /** Three successive inner joins against aggregates with unique weeks are exactly `Covered`. */
  lemma ThreeJoins<L>(left: seq<Row<L>>, a: seq<WeekValue>, b: seq<WeekValue>, c: seq<WeekValue>)
    requires StrictlySorted(Weeks(a)) && StrictlySorted(Weeks(b)) && StrictlySorted(Weeks(c))
    ensures InnerJoin(InnerJoin(InnerJoin(left, a), b), c) == Covered(left, a, b, c)
  {
    InnerJoinUnique(left, a);
    InnerJoinUnique(JoinUnique(left, a), b);
    InnerJoinUnique(JoinUnique(JoinUnique(left, a), b), c);
    JoinUniqueThrice(left, a, b, c);
  }
}
