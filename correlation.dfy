/**
 * The weekly aggregation and the joins of the correlation page:
 * `merge_weather_spotify` (chart rows joined with the three weekly weather
 * means) and the group-by/join part of `calculate_weather_audio_correlation`
 * (weekly means of one audio feature joined with the same three series).
 */
module Correlation {
  import opened WeekKeys
  import opened Stats
  import opened Frames
  import opened Aggregate
  import opened Join
  import opened Subsequences

  /** The `YW` and `normalizedValue` columns of a weather series. */
  function NormalizedColumn(rows: seq<WeatherRow>): (col: seq<WeekValue>)
    ensures |col| == |rows|
    ensures forall i :: 0 <= i < |rows| ==> col[i] == WeekValue(rows[i].yw, rows[i].normalizedValue)
  {
    if rows == [] then [] else [WeekValue(rows[0].yw, rows[0].normalizedValue)] + NormalizedColumn(rows[1..])
  }

  /** `groupby('YW')['normalizedValue'].mean().reset_index()` with its columns renamed. */
  function WeeklyWeather(rows: seq<WeatherRow>): (w: seq<WeekValue>)
    ensures StrictlySorted(Weeks(w))
    ensures forall k :: k in Weeks(w) <==> HasWeek(rows, k)
  {
    GroupByMean(NormalizedColumn(rows))
  }

  /** The series reports at least one reading in week `k`. */
  predicate HasWeek(rows: seq<WeatherRow>, k: WeekKey)
  {
    k in Weeks(NormalizedColumn(rows))
  }

  /** The mean `normalizedValue` of a series over week `k`. */
  function WeekMean(rows: seq<WeatherRow>, k: WeekKey): real
    requires HasWeek(rows, k)
  {
    Mean(Group(NormalizedColumn(rows), k))
  }

  /** Looking a week up in the weekly aggregate finds that week's mean. */
  lemma LookupWeekly(rows: seq<WeatherRow>, k: WeekKey)
    requires HasWeek(rows, k)
    ensures k in Weeks(WeeklyWeather(rows))
    ensures Lookup(WeeklyWeather(rows), k).value == WeekMean(rows, k)
  {
    var agg := WeeklyWeather(rows);
    var v := Lookup(agg, k).value;
    var i :| 0 <= i < |agg| && agg[i] == WeekValue(k, v);
  }

  // ---- merge_weather_spotify ----

  function ChartFrame(chart: seq<ChartRow>): (rows: seq<Row<ChartRow>>)
    ensures |rows| == |chart|
    ensures forall i :: 0 <= i < |chart| ==> rows[i] == Row(chart[i].week, chart[i], [])
  {
    if chart == [] then [] else [Row(chart[0].week, chart[0], [])] + ChartFrame(chart[1..])
  }

  /** Reads the three joined columns as `avg_heat`, `avg_rainfall`, `avg_humidity`. */
  function ToMerged(rows: seq<Row<ChartRow>>): (merged: seq<MergedRow>)
    requires forall i :: 0 <= i < |rows| ==> |rows[i].added| == 3
    ensures |merged| == |rows|
  {
    if rows == [] then []
    else
      var r := rows[0];
      [MergedRow(r.left, r.added[0], r.added[1], r.added[2])] + ToMerged(rows[1..])
  }

  /** The chart rows whose week every aggregate covers, each with the three values: `Covered` read as merged rows. */
  function CoveredRows(chart: seq<ChartRow>, a: seq<WeekValue>, b: seq<WeekValue>, c: seq<WeekValue>): seq<MergedRow>
  {
    if chart == [] then []
    else
      var x := chart[0];
      var rest := CoveredRows(chart[1..], a, b, c);
      if x.week in Weeks(a) && x.week in Weeks(b) && x.week in Weeks(c) then
        [MergedRow(x, Lookup(a, x.week).value, Lookup(b, x.week).value, Lookup(c, x.week).value)] + rest
      else rest
  }

  lemma {:induction false} CoveredChartFrame(chart: seq<ChartRow>, a: seq<WeekValue>, b: seq<WeekValue>, c: seq<WeekValue>)
    ensures var cov := Covered(ChartFrame(chart), a, b, c);
      (forall i :: 0 <= i < |cov| ==> |cov[i].added| == 3) && ToMerged(cov) == CoveredRows(chart, a, b, c)
  {
    if chart != [] {
      assert ChartFrame(chart)[1..] == ChartFrame(chart[1..]);
      CoveredChartFrame(chart[1..], a, b, c);
    }
  }

  /** `merge_weather_spotify`: three successive inner joins of the chart rows with the weekly weather means. */
  function MergeWeatherSpotify(chart: seq<ChartRow>, heat: seq<WeatherRow>, rain: seq<WeatherRow>, humidity: seq<WeatherRow>): (m: seq<MergedRow>)
    ensures IsSubsequence(Charts(m), chart)
  {
    var weeklyHeat, weeklyRain, weeklyHumidity := WeeklyWeather(heat), WeeklyWeather(rain), WeeklyWeather(humidity);
    var joined := InnerJoin(InnerJoin(InnerJoin(ChartFrame(chart), weeklyHeat), weeklyRain), weeklyHumidity);
    ThreeJoins(ChartFrame(chart), weeklyHeat, weeklyRain, weeklyHumidity);
    CoveredChartFrame(chart, weeklyHeat, weeklyRain, weeklyHumidity);
    CoveredRowsOrder(chart, weeklyHeat, weeklyRain, weeklyHumidity);
    ToMerged(joined)
  }

  /** The three joins amount to one pass over the chart rows that keeps the fully covered weeks. */
  lemma MergeIsCoveredRows(chart: seq<ChartRow>, heat: seq<WeatherRow>, rain: seq<WeatherRow>, humidity: seq<WeatherRow>)
    ensures MergeWeatherSpotify(chart, heat, rain, humidity) ==
      CoveredRows(chart, WeeklyWeather(heat), WeeklyWeather(rain), WeeklyWeather(humidity))
  {
    var a, b, c := WeeklyWeather(heat), WeeklyWeather(rain), WeeklyWeather(humidity);
    ThreeJoins(ChartFrame(chart), a, b, c);
    CoveredChartFrame(chart, a, b, c);
  }

  /** Every weather series reports week `k`: the chart rows of that week survive the merge. */
  predicate Covers(heat: seq<WeatherRow>, rain: seq<WeatherRow>, humidity: seq<WeatherRow>, k: WeekKey)
  {
    HasWeek(heat, k) && HasWeek(rain, k) && HasWeek(humidity, k)
  }

  /** Week `k` has a row in each of the three aggregates. */
  predicate InAll(a: seq<WeekValue>, b: seq<WeekValue>, c: seq<WeekValue>, k: WeekKey)
  {
    k in Weeks(a) && k in Weeks(b) && k in Weeks(c)
  }

  /** The weekly aggregate of a series has exactly the weeks the series reports, each with its mean. */
  lemma WeeklyWeatherLookup(rows: seq<WeatherRow>)
    ensures forall k :: k in Weeks(WeeklyWeather(rows)) <==> HasWeek(rows, k)
    ensures forall k :: HasWeek(rows, k) ==> Lookup(WeeklyWeather(rows), k).value == WeekMean(rows, k)
  {
    forall k | HasWeek(rows, k) ensures Lookup(WeeklyWeather(rows), k).value == WeekMean(rows, k) {
      LookupWeekly(rows, k);
    }
  }

  function Charts(merged: seq<MergedRow>): (chart: seq<ChartRow>)
    ensures |chart| == |merged|
    ensures forall i :: 0 <= i < |merged| ==> chart[i] == merged[i].chart
  {
    if merged == [] then [] else [merged[0].chart] + Charts(merged[1..])
  }

  lemma {:induction false} CoveredRowsFaithful(chart: seq<ChartRow>, a: seq<WeekValue>, b: seq<WeekValue>, c: seq<WeekValue>)
    ensures forall r :: r in CoveredRows(chart, a, b, c) ==>
      && r.chart in chart
      && InAll(a, b, c, r.chart.week)
      && r.avgHeat == Lookup(a, r.chart.week).value
      && r.avgRainfall == Lookup(b, r.chart.week).value
      && r.avgHumidity == Lookup(c, r.chart.week).value
  {
    if chart != [] {
      CoveredRowsFaithful(chart[1..], a, b, c);
    }
  }

  /**
   * Each merged row is a chart row whose week all three series report,
   * unchanged, carrying that week's mean `normalizedValue` of each series.
   */
  lemma MergeRowsFaithful(chart: seq<ChartRow>, heat: seq<WeatherRow>, rain: seq<WeatherRow>, humidity: seq<WeatherRow>)
    ensures forall r :: r in MergeWeatherSpotify(chart, heat, rain, humidity) ==>
      && r.chart in chart
      && Covers(heat, rain, humidity, r.chart.week)
      && r.avgHeat == WeekMean(heat, r.chart.week)
      && r.avgRainfall == WeekMean(rain, r.chart.week)
      && r.avgHumidity == WeekMean(humidity, r.chart.week)
  {
    MergeIsCoveredRows(chart, heat, rain, humidity);
    CoveredRowsFaithful(chart, WeeklyWeather(heat), WeeklyWeather(rain), WeeklyWeather(humidity));
    WeeklyWeatherLookup(heat);
    WeeklyWeatherLookup(rain);
    WeeklyWeatherLookup(humidity);
  }

  lemma {:induction false} CoveredRowsMultiplicity(chart: seq<ChartRow>, a: seq<WeekValue>, b: seq<WeekValue>, c: seq<WeekValue>, x: ChartRow)
    ensures multiset(Charts(CoveredRows(chart, a, b, c)))[x] == if InAll(a, b, c, x.week) then multiset(chart)[x] else 0
  {
    if chart != [] {
      CoveredRowsMultiplicity(chart[1..], a, b, c, x);
      assert chart == [chart[0]] + chart[1..];
      if InAll(a, b, c, chart[0].week) {
        assert Charts(CoveredRows(chart, a, b, c)) == [chart[0]] + Charts(CoveredRows(chart[1..], a, b, c));
      }
    }
  }

  /**
   * A chart row is kept iff all three series report its week, and then
   * exactly as often as it occurs in the chart data: the weekly keys are
   * unique, so no join repeats a row.
   */
  lemma MergeMultiplicity(chart: seq<ChartRow>, heat: seq<WeatherRow>, rain: seq<WeatherRow>, humidity: seq<WeatherRow>, x: ChartRow)
    ensures multiset(Charts(MergeWeatherSpotify(chart, heat, rain, humidity)))[x] ==
      if Covers(heat, rain, humidity, x.week) then multiset(chart)[x] else 0
  {
    MergeIsCoveredRows(chart, heat, rain, humidity);
    CoveredRowsMultiplicity(chart, WeeklyWeather(heat), WeeklyWeather(rain), WeeklyWeather(humidity), x);
    WeeklyWeatherLookup(heat);
    WeeklyWeatherLookup(rain);
    WeeklyWeatherLookup(humidity);
  }

  lemma {:induction false} CoveredRowsOrder(chart: seq<ChartRow>, a: seq<WeekValue>, b: seq<WeekValue>, c: seq<WeekValue>)
    ensures IsSubsequence(Charts(CoveredRows(chart, a, b, c)), chart)
  {
    if chart != [] {
      CoveredRowsOrder(chart[1..], a, b, c);
      var rest := Charts(CoveredRows(chart[1..], a, b, c));
      if InAll(a, b, c, chart[0].week) {
        var all := Charts(CoveredRows(chart, a, b, c));
        assert all == [chart[0]] + rest;
        assert all[1..] == rest;
      } else {
        SubsequenceSkip(rest, chart);
      }
    }
  }

  /** The merged rows keep the chart rows' relative order. */
  lemma MergeKeepsOrder(chart: seq<ChartRow>, heat: seq<WeatherRow>, rain: seq<WeatherRow>, humidity: seq<WeatherRow>)
    ensures IsSubsequence(Charts(MergeWeatherSpotify(chart, heat, rain, humidity)), chart)
  {
    MergeIsCoveredRows(chart, heat, rain, humidity);
    CoveredRowsOrder(chart, WeeklyWeather(heat), WeeklyWeather(rain), WeeklyWeather(humidity));
  }

  lemma {:induction false} CoveredRowsCount(chart: seq<ChartRow>, a: seq<WeekValue>, b: seq<WeekValue>, c: seq<WeekValue>)
    ensures var n := |CoveredRows(chart, a, b, c)|;
      n <= |chart| && (n == |chart| <==> forall x :: x in chart ==> InAll(a, b, c, x.week))
  {
    if chart != [] {
      CoveredRowsCount(chart[1..], a, b, c);
      assert forall x :: x in chart <==> x == chart[0] || x in chart[1..];
    }
  }

  /**
   * The merge never adds rows, and it keeps them all exactly when every
   * chart week has full weather coverage.
   */
  lemma MergeCount(chart: seq<ChartRow>, heat: seq<WeatherRow>, rain: seq<WeatherRow>, humidity: seq<WeatherRow>)
    ensures var n := |MergeWeatherSpotify(chart, heat, rain, humidity)|;
      n <= |chart| && (n == |chart| <==> forall x :: x in chart ==> Covers(heat, rain, humidity, x.week))
  {
    MergeIsCoveredRows(chart, heat, rain, humidity);
    CoveredRowsCount(chart, WeeklyWeather(heat), WeeklyWeather(rain), WeeklyWeather(humidity));
    WeeklyWeatherLookup(heat);
    WeeklyWeatherLookup(rain);
    WeeklyWeatherLookup(humidity);
  }

  /** Series whose `normalizedValue`s lie in [0, 1] give merged weekly means in [0, 1]. */
  lemma MergeWithinUnit(chart: seq<ChartRow>, heat: seq<WeatherRow>, rain: seq<WeatherRow>, humidity: seq<WeatherRow>)
    requires forall i :: 0 <= i < |heat| ==> 0.0 <= heat[i].normalizedValue <= 1.0
    requires forall i :: 0 <= i < |rain| ==> 0.0 <= rain[i].normalizedValue <= 1.0
    requires forall i :: 0 <= i < |humidity| ==> 0.0 <= humidity[i].normalizedValue <= 1.0
    ensures forall r :: r in MergeWeatherSpotify(chart, heat, rain, humidity) ==>
      0.0 <= r.avgHeat <= 1.0 && 0.0 <= r.avgRainfall <= 1.0 && 0.0 <= r.avgHumidity <= 1.0
  {
    MergeRowsFaithful(chart, heat, rain, humidity);
    forall r | r in MergeWeatherSpotify(chart, heat, rain, humidity)
      ensures 0.0 <= r.avgHeat <= 1.0 && 0.0 <= r.avgRainfall <= 1.0 && 0.0 <= r.avgHumidity <= 1.0
    {
      WeekMeanWithinUnit(heat, r.chart.week);
      WeekMeanWithinUnit(rain, r.chart.week);
      WeekMeanWithinUnit(humidity, r.chart.week);
    }
  }

  lemma WeekMeanWithinUnit(rows: seq<WeatherRow>, k: WeekKey)
    requires forall i :: 0 <= i < |rows| ==> 0.0 <= rows[i].normalizedValue <= 1.0
    requires HasWeek(rows, k)
    ensures 0.0 <= WeekMean(rows, k) <= 1.0
  {
    var col := NormalizedColumn(rows);
    forall v | v in Values(col) ensures 0.0 <= v <= 1.0 {
      var i :| 0 <= i < |col| && Values(col)[i] == v;
    }
    GroupMeanWithin(col, k, 0.0, 1.0);
  }

  // ---- calculate_weather_audio_correlation, group-by and joins ----

  /** One row of `weekly_data`: a week, the feature's weekly mean and the three weather means. */
  datatype WeeklyRow = WeeklyRow(week: WeekKey, feature: real, avgHeat: real, avgRainfall: real, avgHumidity: real)

  function WeeklyWeeks(rows: seq<WeeklyRow>): (ks: seq<WeekKey>)
    ensures |ks| == |rows|
    ensures forall i :: 0 <= i < |rows| ==> ks[i] == rows[i].week
  {
    if rows == [] then [] else [rows[0].week] + WeeklyWeeks(rows[1..])
  }

  function WeekFrame(agg: seq<WeekValue>): (rows: seq<Row<real>>)
    ensures |rows| == |agg|
    ensures forall i :: 0 <= i < |agg| ==> rows[i] == Row(agg[i].week, agg[i].value, [])
  {
    if agg == [] then [] else [Row(agg[0].week, agg[0].value, [])] + WeekFrame(agg[1..])
  }

  function ToWeekly(rows: seq<Row<real>>): (weekly: seq<WeeklyRow>)
    requires forall i :: 0 <= i < |rows| ==> |rows[i].added| == 3
    ensures |weekly| == |rows|
  {
    if rows == [] then []
    else
      var r := rows[0];
      [WeeklyRow(r.week, r.left, r.added[0], r.added[1], r.added[2])] + ToWeekly(rows[1..])
  }

  /** The weekly rows whose week every aggregate covers, each with the three values. */
  function CoveredWeeks(agg: seq<WeekValue>, a: seq<WeekValue>, b: seq<WeekValue>, c: seq<WeekValue>): seq<WeeklyRow>
  {
    if agg == [] then []
    else
      var m := agg[0];
      var rest := CoveredWeeks(agg[1..], a, b, c);
      if InAll(a, b, c, m.week) then
        [WeeklyRow(m.week, m.value, Lookup(a, m.week).value, Lookup(b, m.week).value, Lookup(c, m.week).value)] + rest
      else rest
  }

  lemma {:induction false} CoveredWeekFrame(agg: seq<WeekValue>, a: seq<WeekValue>, b: seq<WeekValue>, c: seq<WeekValue>)
    ensures var cov := Covered(WeekFrame(agg), a, b, c);
      (forall i :: 0 <= i < |cov| ==> |cov[i].added| == 3) && ToWeekly(cov) == CoveredWeeks(agg, a, b, c)
  {
    if agg != [] {
      assert WeekFrame(agg)[1..] == WeekFrame(agg[1..]);
      CoveredWeekFrame(agg[1..], a, b, c);
    }
  }

  /**
   * `weekly_data` of `calculate_weather_audio_correlation`: the feature's
   * weekly means joined, in three successive inner joins, with the three
   * weekly weather means.
   */
  function WeeklyFeatureWeather(chart: seq<ChartRow>, f: AudioFeature, heat: seq<WeatherRow>, rain: seq<WeatherRow>, humidity: seq<WeatherRow>): (w: seq<WeeklyRow>)
    ensures StrictlySorted(WeeklyWeeks(w))
    ensures forall k :: k in WeeklyWeeks(w) ==> k in Weeks(FeatureColumn(chart, f))
  {
    var weeklySpotify := GroupByMean(FeatureColumn(chart, f));
    var weeklyHeat, weeklyRain, weeklyHumidity := WeeklyWeather(heat), WeeklyWeather(rain), WeeklyWeather(humidity);
    var joined := InnerJoin(InnerJoin(InnerJoin(WeekFrame(weeklySpotify), weeklyHeat), weeklyRain), weeklyHumidity);
    ThreeJoins(WeekFrame(weeklySpotify), weeklyHeat, weeklyRain, weeklyHumidity);
    CoveredWeekFrame(weeklySpotify, weeklyHeat, weeklyRain, weeklyHumidity);
    CoveredWeeksKeys(weeklySpotify, weeklyHeat, weeklyRain, weeklyHumidity);
    ToWeekly(joined)
  }

  lemma {:induction false} CoveredWeeksKeys(agg: seq<WeekValue>, a: seq<WeekValue>, b: seq<WeekValue>, c: seq<WeekValue>)
    requires StrictlySorted(Weeks(agg))
    ensures forall k :: k in WeeklyWeeks(CoveredWeeks(agg, a, b, c)) <==> k in Weeks(agg) && InAll(a, b, c, k)
    ensures StrictlySorted(WeeklyWeeks(CoveredWeeks(agg, a, b, c)))
  {
    if agg != [] {
      assert Weeks(agg)[1..] == Weeks(agg[1..]);
      StrictlySortedTail(Weeks(agg));
      CoveredWeeksKeys(agg[1..], a, b, c);
      var rest := WeeklyWeeks(CoveredWeeks(agg[1..], a, b, c));
      assert Weeks(agg) == [agg[0].week] + Weeks(agg[1..]);
      if InAll(a, b, c, agg[0].week) {
        var all := WeeklyWeeks(CoveredWeeks(agg, a, b, c));
        assert all == [agg[0].week] + rest;
        forall j | 0 <= j < |rest| ensures Less(agg[0].week, rest[j]) {
          assert rest[j] in Weeks(agg[1..]);
          var m :| 0 <= m < |Weeks(agg[1..])| && Weeks(agg[1..])[m] == rest[j];
          assert Weeks(agg)[m + 1] == rest[j];
        }
      }
    }
  }

  lemma {:induction false} CoveredWeeksValues(agg: seq<WeekValue>, a: seq<WeekValue>, b: seq<WeekValue>, c: seq<WeekValue>)
    ensures forall r :: r in CoveredWeeks(agg, a, b, c) ==>
      && WeekValue(r.week, r.feature) in agg
      && InAll(a, b, c, r.week)
      && r.avgHeat == Lookup(a, r.week).value
      && r.avgRainfall == Lookup(b, r.week).value
      && r.avgHumidity == Lookup(c, r.week).value
  {
    if agg != [] {
      CoveredWeeksValues(agg[1..], a, b, c);
    }
  }

  lemma WeeklyIsCoveredWeeks(chart: seq<ChartRow>, f: AudioFeature, heat: seq<WeatherRow>, rain: seq<WeatherRow>, humidity: seq<WeatherRow>)
    ensures WeeklyFeatureWeather(chart, f, heat, rain, humidity) ==
      CoveredWeeks(GroupByMean(FeatureColumn(chart, f)), WeeklyWeather(heat), WeeklyWeather(rain), WeeklyWeather(humidity))
  {
    var agg := GroupByMean(FeatureColumn(chart, f));
    var a, b, c := WeeklyWeather(heat), WeeklyWeather(rain), WeeklyWeather(humidity);
    ThreeJoins(WeekFrame(agg), a, b, c);
    CoveredWeekFrame(agg, a, b, c);
  }

  /**
   * The per-feature weekly join has one row per week, ascending, for
   * exactly the weeks present both in the chart data and in all three
   * weather series.
   */
  lemma WeeklyFeatureWeeks(chart: seq<ChartRow>, f: AudioFeature, heat: seq<WeatherRow>, rain: seq<WeatherRow>, humidity: seq<WeatherRow>)
    ensures var ks := WeeklyWeeks(WeeklyFeatureWeather(chart, f, heat, rain, humidity));
      && StrictlySorted(ks)
      && forall k :: k in ks <==> (exists i :: 0 <= i < |chart| && chart[i].week == k) && Covers(heat, rain, humidity, k)
  {
    WeeklyFeatureKeys(chart, f, heat, rain, humidity);
    FeatureColumnWeeks(chart, f);
  }

  lemma WeeklyFeatureKeys(chart: seq<ChartRow>, f: AudioFeature, heat: seq<WeatherRow>, rain: seq<WeatherRow>, humidity: seq<WeatherRow>)
    ensures forall k :: k in WeeklyWeeks(WeeklyFeatureWeather(chart, f, heat, rain, humidity)) <==>
      k in Weeks(FeatureColumn(chart, f)) && Covers(heat, rain, humidity, k)
  {
    var agg := GroupByMean(FeatureColumn(chart, f));
    var a, b, c := WeeklyWeather(heat), WeeklyWeather(rain), WeeklyWeather(humidity);
    WeeklyIsCoveredWeeks(chart, f, heat, rain, humidity);
    CoveredWeeksKeys(agg, a, b, c);
    forall k ensures InAll(a, b, c, k) <==> Covers(heat, rain, humidity, k) {
      CoversInAll(heat, rain, humidity, k);
    }
  }

  /** A week is in all three weekly aggregates iff all three series report it. */
  lemma CoversInAll(heat: seq<WeatherRow>, rain: seq<WeatherRow>, humidity: seq<WeatherRow>, k: WeekKey)
    ensures InAll(WeeklyWeather(heat), WeeklyWeather(rain), WeeklyWeather(humidity), k) <==> Covers(heat, rain, humidity, k)
  {
  }

  /**
   * Each row of the per-feature weekly join holds the week's mean of the
   * feature over the chart rows and the week's mean `normalizedValue` of
   * each weather series.
   */
  lemma WeeklyFeatureValues(chart: seq<ChartRow>, f: AudioFeature, heat: seq<WeatherRow>, rain: seq<WeatherRow>, humidity: seq<WeatherRow>)
    ensures forall r :: r in WeeklyFeatureWeather(chart, f, heat, rain, humidity) ==>
      && Group(FeatureColumn(chart, f), r.week) != []
      && r.feature == Mean(Group(FeatureColumn(chart, f), r.week))
      && Covers(heat, rain, humidity, r.week)
      && r.avgHeat == WeekMean(heat, r.week)
      && r.avgRainfall == WeekMean(rain, r.week)
      && r.avgHumidity == WeekMean(humidity, r.week)
  {
    var col := FeatureColumn(chart, f);
    var agg := GroupByMean(col);
    WeeklyIsCoveredWeeks(chart, f, heat, rain, humidity);
    CoveredWeeksValues(agg, WeeklyWeather(heat), WeeklyWeather(rain), WeeklyWeather(humidity));
    WeeklyWeatherLookup(heat);
    WeeklyWeatherLookup(rain);
    WeeklyWeatherLookup(humidity);
    forall r | r in WeeklyFeatureWeather(chart, f, heat, rain, humidity)
      ensures Group(col, r.week) != [] && r.feature == Mean(Group(col, r.week))
    {
      var i :| 0 <= i < |agg| && agg[i] == WeekValue(r.week, r.feature);
    }
  }
}
