/**
 * The computations of the chart-data exploration page
 * (`2_spotify_eda.py`): the ten best-ranked tracks of a chosen week, and
 * the weekly mean of every audio feature rescaled onto [0, 1] for the
 * time-series chart.
 */
module SpotifyEda {
  import opened WeekKeys
  import opened Stats
  import opened Frames
  import opened Sorting
  import opened Aggregate

  // ---- display_top_tracks_by_week: the week filter, sort and head ----

  /** `df[df['report_date_YW'] == week]`: the chart rows of one week, in frame order. */
  function WeekRows(chart: seq<ChartRow>, week: WeekKey): (rows: seq<ChartRow>)
    ensures forall r :: multiset(rows)[r] == if r.week == week then multiset(chart)[r] else 0
  {
    if chart == [] then []
    else
      var rest := WeekRows(chart[1..], week);
      assert chart == [chart[0]] + chart[1..];
      if chart[0].week == week then [chart[0]] + rest else rest
  }

  function RankOf(r: ChartRow): real
  {
    r.rank as real
  }

  /** How many tracks the week view lists. */
  const TopTracks: nat := 10

  /** `weekly_data.sort_values('rank').head(10)`. */
  function TopTracksOfWeek(chart: seq<ChartRow>, week: WeekKey): (top: seq<ChartRow>)
    ensures |top| <= TopTracks
    ensures SortedBy(top, RankOf)
  {
    Take(SortBy(WeekRows(chart, week), RankOf), TopTracks)
  }

  /**
   * The listed tracks belong to the chosen week, are chart rows (each at
   * most as often as in the chart), ascend by rank and number ten, or all
   * the week's rows when it has fewer.
   */
  lemma TopTracksOfWeekShape(chart: seq<ChartRow>, week: WeekKey)
    ensures var top := TopTracksOfWeek(chart, week);
      && (forall r :: r in top ==> r.week == week)
      && multiset(top) <= multiset(chart)
      && SortedBy(top, RankOf)
      && |top| == if |WeekRows(chart, week)| < TopTracks then |WeekRows(chart, week)| else TopTracks
  {
    var rows := WeekRows(chart, week);
    var sorted := SortBy(rows, RankOf);
    PrefixMultiset(sorted, TopTracks);
    WeekRowsMembers(chart, week);
  }

  /** The first rows of a frame are some of its rows. */
  lemma PrefixMultiset<T>(s: seq<T>, k: nat)
    ensures multiset(Take(s, k)) <= multiset(s)
  {
    var top := Take(s, k);
    assert s == top + s[|top|..];
    assert multiset(s) == multiset(top) + multiset(s[|top|..]);
  }

  /** The rows of a week are chart rows of that week. */
  lemma WeekRowsMembers(chart: seq<ChartRow>, week: WeekKey)
    ensures multiset(WeekRows(chart, week)) <= multiset(chart)
    ensures forall r :: r in multiset(WeekRows(chart, week)) ==> r.week == week
  {
  }

  /** No row of the week left out of the list has a better (smaller) rank than a listed one. */
  lemma TopTracksOfWeekBest(chart: seq<ChartRow>, week: WeekKey)
    ensures var top := TopTracksOfWeek(chart, week);
      forall x, y :: x in multiset(WeekRows(chart, week)) - multiset(top) && y in top ==> y.rank <= x.rank
  {
    var sorted := SortBy(WeekRows(chart, week), RankOf);
    TakeSmallest(sorted, RankOf, TopTracks);
  }

  // ---- plot_audio_features_time_series: weekly means rescaled onto [0, 1] ----

  /**
   * `(v - min) / (max - min)` over a column when its maximum exceeds its
   * minimum, and the constant 0.5 otherwise (including the empty column,
   * whose NaN minimum and maximum fail the comparison).
   */
  function MinMaxNormalize(values: seq<real>): (r: seq<real>)
    ensures |r| == |values|
  {
    if values != [] && Maximum(values) > Minimum(values) then
      seq(|values|, i requires 0 <= i < |values| => Rescaled(values[i], Minimum(values), Maximum(values)))
    else
      seq(|values|, i => 0.5)
  }

  /** `(v - lo) / (hi - lo)`: where `v` falls between `lo` and `hi`. */
  function Rescaled(v: real, lo: real, hi: real): (r: real)
    requires lo < hi
    ensures lo <= v <= hi ==> 0.0 <= r <= 1.0
    ensures lo <= v <= hi ==> (r == 0.0 <==> v == lo) && (r == 1.0 <==> v == hi)
  {
    Rescale(v, lo, hi);
    (v - lo) / (hi - lo)
  }

  /**
   * With a spread of values, every rescaled value is in [0, 1], exactly the
   * minima map to 0 and the maxima to 1, and the order of values is kept.
   */
  lemma MinMaxNormalizeSpread(values: seq<real>)
    requires values != [] && Minimum(values) < Maximum(values)
    ensures var r := MinMaxNormalize(values);
      forall i :: 0 <= i < |values| ==>
        && 0.0 <= r[i] <= 1.0
        && (r[i] == 0.0 <==> values[i] == Minimum(values))
        && (r[i] == 1.0 <==> values[i] == Maximum(values))
  {
    forall i | 0 <= i < |values| {
      MinMaxNormalizeAt(values, i);
    }
  }

  lemma MinMaxNormalizeAt(values: seq<real>, i: int)
    requires 0 <= i < |values| && Minimum(values) < Maximum(values)
    ensures var r := MinMaxNormalize(values)[i];
      && 0.0 <= r <= 1.0
      && (r == 0.0 <==> values[i] == Minimum(values))
      && (r == 1.0 <==> values[i] == Maximum(values))
  {
    assert Minimum(values) <= values[i] <= Maximum(values);
  }

  lemma Rescale(v: real, lo: real, hi: real)
    requires lo < hi
    ensures lo <= v <= hi ==> 0.0 <= (v - lo) / (hi - lo) <= 1.0
    ensures lo <= v <= hi ==> ((v - lo) / (hi - lo) == 0.0 <==> v == lo)
    ensures lo <= v <= hi ==> ((v - lo) / (hi - lo) == 1.0 <==> v == hi)
  {
    if lo <= v <= hi {
      DivMonotone(0.0, v - lo, hi - lo);
      DivMonotone(v - lo, hi - lo, hi - lo);
      DivSelf(hi - lo);
      if v != lo {
        DivStrict(0.0, v - lo, hi - lo);
      }
      if v != hi {
        DivStrict(v - lo, hi - lo, hi - lo);
      }
    }
  }

  /** Rescaling keeps the order of the values. */
  lemma MinMaxNormalizeMonotone(values: seq<real>, i: int, j: int)
    requires 0 <= i < |values| && 0 <= j < |values|
    requires values[i] <= values[j]
    ensures MinMaxNormalize(values)[i] <= MinMaxNormalize(values)[j]
  {
    if values != [] && Maximum(values) > Minimum(values) {
      RescaledMonotone(values[i], values[j], Minimum(values), Maximum(values));
    }
  }

  lemma RescaledMonotone(v: real, w: real, lo: real, hi: real)
    requires lo < hi && v <= w
    ensures Rescaled(v, lo, hi) <= Rescaled(w, lo, hi)
  {
    DivMonotone(v - lo, w - lo, hi - lo);
  }

  /** Every rescaled value lies in [0, 1], whether the values are spread or flat. */
  lemma MinMaxNormalizeUnit(values: seq<real>)
    ensures forall i :: 0 <= i < |values| ==> 0.0 <= MinMaxNormalize(values)[i] <= 1.0
  {
    if values != [] && Minimum(values) < Maximum(values) {
      MinMaxNormalizeSpread(values);
    } else {
      MinMaxNormalizeFlat(values);
    }
  }

  /** Without a spread, every value is 0.5. */
  lemma MinMaxNormalizeFlat(values: seq<real>)
    requires values == [] || Minimum(values) == Maximum(values)
    ensures forall i :: 0 <= i < |values| ==> MinMaxNormalize(values)[i] == 0.5
  {
  }

  /** One row of a `weekly_avg` frame: week, the feature's weekly mean and its rescaled value. */
  datatype WeeklyAverage = WeeklyAverage(week: WeekKey, mean: real, normalized: real)

  /** The `weekly_avg` frame built for one feature. */
  function WeeklyAverageFrame(chart: seq<ChartRow>, f: AudioFeature): (frame: seq<WeeklyAverage>)
    ensures |frame| == |GroupByMean(FeatureColumn(chart, f))|
    ensures forall i :: 0 <= i < |frame| ==> 0.0 <= frame[i].normalized <= 1.0
  {
    AverageFrame(GroupByMean(FeatureColumn(chart, f)))
  }

  /** The weekly means with their rescaled values beside them. */
  function AverageFrame(weekly: seq<WeekValue>): (frame: seq<WeeklyAverage>)
    ensures |frame| == |weekly|
    ensures forall i :: 0 <= i < |frame| ==> 0.0 <= frame[i].normalized <= 1.0
  {
    var normalized := MinMaxNormalize(Values(weekly));
    MinMaxNormalizeUnit(Values(weekly));
    seq(|weekly|, i requires 0 <= i < |weekly| => WeeklyAverage(weekly[i].week, weekly[i].value, normalized[i]))
  }

  function AverageWeeks(frame: seq<WeeklyAverage>): (ks: seq<WeekKey>)
    ensures |ks| == |frame|
    ensures forall i :: 0 <= i < |frame| ==> ks[i] == frame[i].week
  {
    seq(|frame|, i requires 0 <= i < |frame| => frame[i].week)
  }

  /**
   * A feature's weekly frame has one row per week of the chart data, in
   * ascending week order, holding the week's mean of the feature and a
   * rescaled value in [0, 1].
   */
  lemma WeeklyAverageFrameRows(chart: seq<ChartRow>, f: AudioFeature)
    ensures var frame := WeeklyAverageFrame(chart, f);
      && StrictlySorted(AverageWeeks(frame))
      && (forall k :: k in AverageWeeks(frame) <==> exists i :: 0 <= i < |chart| && chart[i].week == k)
      && (forall i :: 0 <= i < |frame| ==>
            && Group(FeatureColumn(chart, f), frame[i].week) != []
            && frame[i].mean == Mean(Group(FeatureColumn(chart, f), frame[i].week))
            && 0.0 <= frame[i].normalized <= 1.0)
  {
    FrameWeeks(chart, f);
    FrameValues(chart, f);
  }

  lemma FrameWeeks(chart: seq<ChartRow>, f: AudioFeature)
    ensures var frame := WeeklyAverageFrame(chart, f);
      && StrictlySorted(AverageWeeks(frame))
      && (forall k :: k in AverageWeeks(frame) <==> exists i :: 0 <= i < |chart| && chart[i].week == k)
  {
    assert AverageWeeks(WeeklyAverageFrame(chart, f)) == Weeks(GroupByMean(FeatureColumn(chart, f)));
    FeatureColumnWeeks(chart, f);
  }

  lemma FrameValues(chart: seq<ChartRow>, f: AudioFeature)
    ensures var frame := WeeklyAverageFrame(chart, f);
      forall i :: 0 <= i < |frame| ==>
        && Group(FeatureColumn(chart, f), frame[i].week) != []
        && frame[i].mean == Mean(Group(FeatureColumn(chart, f), frame[i].week))
        && 0.0 <= frame[i].normalized <= 1.0
  {
    var col := FeatureColumn(chart, f);
    var weekly := GroupByMean(col);
    var vs := Values(weekly);
    var normalized := MinMaxNormalize(vs);
    var frame := WeeklyAverageFrame(chart, f);
    forall i | 0 <= i < |frame|
      ensures Group(col, frame[i].week) != []
      ensures frame[i].mean == Mean(Group(col, frame[i].week))
      ensures 0.0 <= frame[i].normalized <= 1.0
    {
      assert frame[i] == WeeklyAverage(weekly[i].week, weekly[i].value, normalized[i]);
      if vs != [] && Minimum(vs) < Maximum(vs) {
        MinMaxNormalizeAt(vs, i);
      }
    }
  }

  /** The features plotted, in the order the page lists them. */
  const FeatureOrder: seq<AudioFeature> :=
    [Danceability, Energy, Loudness, Speechiness, Acousticness, Liveness, Valence, Tempo]

  /**
   * Fills `weekly_averages` one feature at a time. (The page's check that
   * a feature is not the week column always holds for these eight.)
   */
  method WeeklyAverages(chart: seq<ChartRow>) returns (averages: map<AudioFeature, seq<WeeklyAverage>>)
    ensures forall f: AudioFeature :: f in averages
    ensures forall f :: f in averages ==> averages[f] == WeeklyAverageFrame(chart, f)
  {
    averages := map[];
    for i := 0 to |FeatureOrder|
      invariant forall f :: f in averages <==> f in FeatureOrder[..i]
      invariant forall f :: f in averages ==> averages[f] == WeeklyAverageFrame(chart, f)
    {
      var feature := FeatureOrder[i];
      var weekly := GroupByMean(FeatureColumn(chart, feature));
      var normalized := MinMaxNormalize(Values(weekly));
      var frame := seq(|weekly|, j requires 0 <= j < |weekly| => WeeklyAverage(weekly[j].week, weekly[j].value, normalized[j]));
      assert frame == WeeklyAverageFrame(chart, feature);
      PrefixStep(FeatureOrder, i);
      averages := averages[feature := frame];
    }
    FeatureOrderComplete();
    assert FeatureOrder[..|FeatureOrder|] == FeatureOrder;
  }

  lemma PrefixStep<T>(s: seq<T>, i: int)
    requires 0 <= i < |s|
    ensures forall x :: x in s[..i + 1] <==> x in s[..i] || x == s[i]
  {
    assert s[..i + 1] == s[..i] + [s[i]];
  }

  lemma FeatureOrderComplete()
    ensures forall f: AudioFeature :: f in FeatureOrder
  {
    forall f: AudioFeature ensures f in FeatureOrder {
      match f
      case Danceability => assert FeatureOrder[0] == f;
      case Energy => assert FeatureOrder[1] == f;
      case Loudness => assert FeatureOrder[2] == f;
      case Speechiness => assert FeatureOrder[3] == f;
      case Acousticness => assert FeatureOrder[4] == f;
      case Liveness => assert FeatureOrder[5] == f;
      case Valence => assert FeatureOrder[6] == f;
      case Tempo => assert FeatureOrder[7] == f;
    }
  }
}
