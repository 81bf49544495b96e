/**
 * `frame.groupby(key)[value].mean().reset_index()`: one row per distinct
 * key, in ascending key order (pandas sorts group keys by default), holding
 * the arithmetic mean of that key's values. The two selected columns of the
 * frame are given as a sequence of (week, value) rows.
 */
module Aggregate {
  import opened WeekKeys
  import opened Stats
  import opened Frames

  /** A row of a two-column frame: a week key and a number. */
  datatype WeekValue = WeekValue(week: WeekKey, value: real)

  function Weeks(rows: seq<WeekValue>): (ks: seq<WeekKey>)
    ensures |ks| == |rows|
    ensures forall i :: 0 <= i < |rows| ==> ks[i] == rows[i].week
  {
    if rows == [] then [] else [rows[0].week] + Weeks(rows[1..])
  }

  function Values(rows: seq<WeekValue>): (vs: seq<real>)
    ensures |vs| == |rows|
    ensures forall i :: 0 <= i < |rows| ==> vs[i] == rows[i].value
  {
    if rows == [] then [] else [rows[0].value] + Values(rows[1..])
  }

  /**
   * The values of the rows whose week is `k`, in row order: one group of
   * the `groupby`. A value occurs in the group exactly as often as the row
   * (k, value) occurs in the frame.
   */
  function Group(rows: seq<WeekValue>, k: WeekKey): (g: seq<real>)
    ensures g != [] <==> k in Weeks(rows)
    ensures |g| <= |rows|
    ensures forall v :: v in g ==> v in Values(rows)
    ensures forall v :: v in g <==> WeekValue(k, v) in rows
    ensures forall v :: multiset(g)[v] == multiset(rows)[WeekValue(k, v)]
  {
    if rows == [] then []
    else
      assert rows == [rows[0]] + rows[1..];
      assert Weeks(rows) == [rows[0].week] + Weeks(rows[1..]);
      assert Values(rows) == [rows[0].value] + Values(rows[1..]);
      var rest := Group(rows[1..], k);
      if rows[0].week == k then [rows[0].value] + rest else rest
  }

  /** The aggregate rows for the weeks `ks`, in that order. */
  function MeansFor(rows: seq<WeekValue>, ks: seq<WeekKey>): (agg: seq<WeekValue>)
    requires forall k :: k in ks ==> k in Weeks(rows)
    ensures Weeks(agg) == ks
    ensures forall i :: 0 <= i < |agg| ==>
      Group(rows, agg[i].week) != [] && agg[i].value == Mean(Group(rows, agg[i].week))
  {
    if ks == [] then []
    else [WeekValue(ks[0], Mean(Group(rows, ks[0])))] + MeansFor(rows, ks[1..])
  }

  /**
   * The weekly aggregate: its weeks are exactly the distinct weeks of the
   * input, ascending and each once, and each row holds the mean of its group.
   */
  function GroupByMean(rows: seq<WeekValue>): (agg: seq<WeekValue>)
    ensures StrictlySorted(Weeks(agg))
    ensures forall k :: k in Weeks(agg) <==> k in Weeks(rows)
    ensures forall i :: 0 <= i < |agg| ==>
      Group(rows, agg[i].week) != [] && agg[i].value == Mean(Group(rows, agg[i].week))
  {
    MeansFor(rows, SortedKeys(Weeks(rows)))
  }

  /** Each weekly mean lies between the smallest and the largest value of its week. */
  lemma GroupByMeanBetween(rows: seq<WeekValue>, i: int)
    requires 0 <= i < |GroupByMean(rows)|
    ensures var m := GroupByMean(rows)[i];
      var g := Group(rows, m.week);
      g != [] && Minimum(g) <= m.value <= Maximum(g)
  {
    var m := GroupByMean(rows)[i];
    MeanBetweenMinAndMax(Group(rows, m.week));
  }

  /** Values in [lo, hi] give a group mean in [lo, hi]. */
  lemma GroupMeanWithin(rows: seq<WeekValue>, k: WeekKey, lo: real, hi: real)
    requires forall v :: v in Values(rows) ==> lo <= v <= hi
    requires k in Weeks(rows)
    ensures lo <= Mean(Group(rows, k)) <= hi
  {
    var g := Group(rows, k);
    forall j | 0 <= j < |g| ensures lo <= g[j] <= hi {
      assert g[j] in g;
    }
    MeanWithin(g, lo, hi);
  }

  /** Values in [lo, hi] give weekly means in [lo, hi]; in particular [0, 1] is kept. */
  lemma GroupByMeanWithin(rows: seq<WeekValue>, lo: real, hi: real)
    requires forall v :: v in Values(rows) ==> lo <= v <= hi
    ensures forall m :: m in GroupByMean(rows) ==> lo <= m.value <= hi
  {
    var agg := GroupByMean(rows);
    forall m | m in agg ensures lo <= m.value <= hi {
      var i :| 0 <= i < |agg| && agg[i] == m;
      assert m.week in Weeks(agg);
      GroupMeanWithin(rows, m.week, lo, hi);
    }
  }

  /** The `report_date_YW` column and one audio-feature column of the chart data. */
  function FeatureColumn(chart: seq<ChartRow>, f: AudioFeature): (col: seq<WeekValue>)
    ensures |col| == |chart|
    ensures forall i :: 0 <= i < |chart| ==> col[i] == WeekValue(chart[i].week, FeatureValue(chart[i].audio, f))
  {
    if chart == [] then [] else [WeekValue(chart[0].week, FeatureValue(chart[0].audio, f))] + FeatureColumn(chart[1..], f)
  }

  /** The weeks of a feature column are exactly the chart's weeks. */
  lemma FeatureColumnWeeks(chart: seq<ChartRow>, f: AudioFeature)
    ensures forall k :: k in Weeks(FeatureColumn(chart, f)) <==> exists i :: 0 <= i < |chart| && chart[i].week == k
  {
    var col := FeatureColumn(chart, f);
    forall k ensures k in Weeks(col) <==> exists i :: 0 <= i < |chart| && chart[i].week == k {
      if k in Weeks(col) {
        var i :| 0 <= i < |col| && Weeks(col)[i] == k;
        assert chart[i].week == k;
      }
      if exists i :: 0 <= i < |chart| && chart[i].week == k {
        var i :| 0 <= i < |chart| && chart[i].week == k;
        assert Weeks(col)[i] == k;
      }
    }
  }
}
