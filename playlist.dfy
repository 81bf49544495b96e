/**
 * The weather-matched playlist of `5_spotify_playlist.py`: the
 * piecewise-linear normaliser, the reference-year baseline of each weather
 * series, the target weather vector built from the current readings, and
 * the ranker that scores every merged chart row against that target,
 * keeps the best row of each track and returns the twenty best tracks.
 */
module Playlist {
  import opened Wrappers
  import opened Stats
  import opened Frames
  import opened Sorting

  // ---- normalize_value ----

  /** The branch at or below the mean: `min` maps to 0 and the mean to 0.5. */
  function BelowMean(x: real, mean: real, min: real): (r: real)
    requires mean != min
    ensures x == mean ==> r == 0.5
    ensures x == min ==> r == 0.0
    ensures min < mean && x <= mean ==> r <= 0.5
  {
    HalfOver(mean - min);
    if min < mean && x <= mean then
      DivMonotone(0.5 * (x - min), 0.5 * (mean - min), mean - min);
      0.5 * (x - min) / (mean - min)
    else
      0.5 * (x - min) / (mean - min)
  }

  /** The branch above the mean: `max` maps to 1, and everything above the mean beyond 0.5. */
  function AboveMean(x: real, mean: real, max: real): (r: real)
    requires max != mean
    ensures x == max ==> r == 1.0
    ensures mean < x && mean < max ==> r > 0.5
  {
    HalfOver(max - mean);
    if mean < x && mean < max then
      DivStrict(0.0, 0.5 * (x - mean), max - mean);
      0.5 + 0.5 * (x - mean) / (max - mean)
    else
      0.5 + 0.5 * (x - mean) / (max - mean)
  }

  /**
   * `normalize_value`: maps a reading onto a scale on which the baseline's
   * minimum is 0, its mean 0.5 and its maximum 1, linearly on each side of
   * the mean. The branch taken must not divide by zero; nothing clips the
   * result.
   */
  function NormalizeValue(x: real, mean: real, min: real, max: real): (r: real)
    requires x <= mean ==> mean != min
    requires x > mean ==> max != mean
    ensures x == mean ==> r == 0.5
    ensures x == min && min < mean ==> r == 0.0
    ensures x == max && mean < max ==> r == 1.0
    ensures min < mean < max ==> (r <= 0.5 <==> x <= mean)
  {
    if x <= mean then BelowMean(x, mean, min) else AboveMean(x, mean, max)
  }

  /** On a proper baseline the normaliser never decreases. */
  lemma NormalizeMonotone(x: real, y: real, mean: real, min: real, max: real)
    requires min < mean < max
    requires x <= y
    ensures NormalizeValue(x, mean, min, max) <= NormalizeValue(y, mean, min, max)
  {
    if y <= mean {
      DivMonotone(0.5 * (x - min), 0.5 * (y - min), mean - min);
    } else if mean < x {
      DivMonotone(0.5 * (x - mean), 0.5 * (y - mean), max - mean);
    }
  }

  /** On a proper baseline, readings in [min, max] map into [0, 1]. */
  lemma NormalizeUnitRange(x: real, mean: real, min: real, max: real)
    requires min < mean < max
    requires min <= x <= max
    ensures 0.0 <= NormalizeValue(x, mean, min, max) <= 1.0
  {
    NormalizeMonotone(min, x, mean, min, max);
    NormalizeMonotone(x, max, mean, min, max);
  }

  /** Readings outside [min, max] leave [0, 1]: the normaliser does not clip. */
  lemma NormalizeNotClipped(x: real, mean: real, min: real, max: real)
    requires min < mean < max
    ensures x < min ==> NormalizeValue(x, mean, min, max) < 0.0
    ensures max < x ==> NormalizeValue(x, mean, min, max) > 1.0
  {
    if x < min {
      DivStrict(0.5 * (x - min), 0.0, mean - min);
    } else if max < x {
      DivStrict(0.5 * (max - mean), 0.5 * (x - mean), max - mean);
      HalfOver(max - mean);
    }
  }

  // ---- get_value_mean_of_years ----

  /**
   * `df[df['Year'].isin(years)]`: the rows whose `Year` is one of `years`,
   * each as often as the frame holds it, and no other row.
   */
  function YearRows(rows: seq<WeatherRow>, years: seq<string>): (sel: seq<WeatherRow>)
    ensures forall r :: multiset(sel)[r] == if r.year in years then multiset(rows)[r] else 0
  {
    if rows == [] then []
    else
      assert rows == [rows[0]] + rows[1..];
      var rest := YearRows(rows[1..], years);
      if rows[0].year in years then [rows[0]] + rest else rest
  }

  /** The `Value` column of the rows whose `Year` is one of `years`, in row order. */
  function YearValues(rows: seq<WeatherRow>, years: seq<string>): (vs: seq<real>)
    ensures vs == [] <==> forall i :: 0 <= i < |rows| ==> rows[i].year !in years
    ensures forall i :: 0 <= i < |rows| && rows[i].year in years ==> rows[i].value in vs
    ensures forall v :: v in vs ==> exists i :: 0 <= i < |rows| && rows[i].year in years && rows[i].value == v
  {
    if rows == [] then []
    else
      var rest := YearValues(rows[1..], years);
      assert forall i :: 1 <= i < |rows| ==> rows[i] == rows[1..][i - 1];
      if rows[0].year in years then [rows[0].value] + rest else rest
  }

  /** The `Value` column of a frame of weather rows. */
  function ValueColumn(rows: seq<WeatherRow>): (vs: seq<real>)
    ensures |vs| == |rows|
    ensures forall j :: 0 <= j < |rows| ==> vs[j] == rows[j].value
  {
    if rows == [] then [] else [rows[0].value] + ValueColumn(rows[1..])
  }

  /**
   * The selected values are the `Value` column of `YearRows`, position by
   * position, so each value occurs as often as the selected rows hold it.
   */
  lemma {:induction false} YearValuesColumn(rows: seq<WeatherRow>, years: seq<string>)
    ensures YearValues(rows, years) == ValueColumn(YearRows(rows, years))
  {
    if rows != [] {
      YearValuesColumn(rows[1..], years);
      var sel' := YearRows(rows[1..], years);
      if rows[0].year in years {
        assert ([rows[0]] + sel')[1..] == sel';
      }
    }
  }

  /** The `(mean, max, min)` triple `get_value_mean_of_years` returns. */
  datatype Baseline = Baseline(mean: real, max: real, min: real)

  /**
   * Mean, maximum and minimum of the selected `Value`s; `None` stands for
   * the NaNs pandas returns when no row is selected.
   */
  function MeanOfYears(rows: seq<WeatherRow>, years: seq<string>): (b: Option<Baseline>)
    ensures b.None? <==> forall i :: 0 <= i < |rows| ==> rows[i].year !in years
    ensures b.Some? ==> b.value.mean == Mean(YearValues(rows, years))
    ensures b.Some? ==> b.value.max == Maximum(YearValues(rows, years))
    ensures b.Some? ==> b.value.min == Minimum(YearValues(rows, years))
    ensures b.Some? ==> b.value.min <= b.value.mean <= b.value.max
    ensures b.Some? ==> forall i :: 0 <= i < |rows| && rows[i].year in years ==>
      b.value.min <= rows[i].value <= b.value.max
    ensures b.Some? ==> exists i :: 0 <= i < |rows| && rows[i].year in years && rows[i].value == b.value.min
    ensures b.Some? ==> exists i :: 0 <= i < |rows| && rows[i].year in years && rows[i].value == b.value.max
  {
    var vs := YearValues(rows, years);
    if vs == [] then None
    else
      MeanBetweenMinAndMax(vs);
      Some(Baseline(Mean(vs), Maximum(vs), Minimum(vs)))
  }

  lemma {:induction false} YearValuesSkip(rows: seq<WeatherRow>, extra: WeatherRow, i: nat, years: seq<string>)
    requires i <= |rows|
    requires extra.year !in years
    ensures YearValues(rows[..i] + [extra] + rows[i..], years) == YearValues(rows, years)
  {
    var s := rows[..i] + [extra] + rows[i..];
    if i == 0 {
      assert s == [extra] + rows;
      assert s[1..] == rows;
    } else {
      assert s[0] == rows[0];
      assert s[1..] == rows[1..][..i - 1] + [extra] + rows[1..][i - 1..];
      YearValuesSkip(rows[1..], extra, i - 1, years);
    }
  }

  /** A row from outside the reference years, wherever it sits, does not change the baseline. */
  lemma MeanOfYearsIgnoresOtherYears(rows: seq<WeatherRow>, extra: WeatherRow, i: nat, years: seq<string>)
    requires i <= |rows|
    requires extra.year !in years
    ensures MeanOfYears(rows[..i] + [extra] + rows[i..], years) == MeanOfYears(rows, years)
  {
    YearValuesSkip(rows, extra, i, years);
  }

  // ---- the target weather vector (the caller's wiring) ----

  /** The years whose readings form every baseline. */
  const ReferenceYears: seq<string> := ["2021", "2022"]

  /** The current temperature, rainfall and humidity readings, all present. */
  datatype Readings = Readings(temperature: real, rainfall: real, humidity: real)

  datatype Target = Target(heat: real, rainfall: real, humidity: real)

  /** A baseline exists and the branch of the normaliser `x` takes does not divide by zero. */
  predicate Normalizable(b: Option<Baseline>, x: real)
  {
    b.Some? && (x <= b.value.mean ==> b.value.mean != b.value.min) && (x > b.value.mean ==> b.value.max != b.value.mean)
  }

  /** A proper baseline (min < mean < max) whose range holds `x`. */
  predicate WithinBaseline(b: Option<Baseline>, x: real)
  {
    b.Some? && b.value.min < b.value.mean < b.value.max && b.value.min <= x <= b.value.max
  }

  function Normalize(b: Option<Baseline>, x: real): real
    requires Normalizable(b, x)
  {
    NormalizeValue(x, b.value.mean, b.value.min, b.value.max)
  }

  lemma NormalizeWithinBaseline(b: Option<Baseline>, x: real)
    requires Normalizable(b, x)
    ensures WithinBaseline(b, x) ==> 0.0 <= Normalize(b, x) <= 1.0
  {
    if WithinBaseline(b, x) {
      NormalizeUnitRange(x, b.value.mean, b.value.min, b.value.max);
    }
  }

  /**
   * Each current reading normalised against the reference-year baseline of
   * its own series: temperature against heat, rainfall against rainfall,
   * humidity against humidity.
   */
  function TargetWeather(now: Readings, heat: seq<WeatherRow>, rain: seq<WeatherRow>, humidity: seq<WeatherRow>): (t: Target)
    requires Normalizable(MeanOfYears(heat, ReferenceYears), now.temperature)
    requires Normalizable(MeanOfYears(rain, ReferenceYears), now.rainfall)
    requires Normalizable(MeanOfYears(humidity, ReferenceYears), now.humidity)
    ensures t.heat == Normalize(MeanOfYears(heat, ReferenceYears), now.temperature)
    ensures t.rainfall == Normalize(MeanOfYears(rain, ReferenceYears), now.rainfall)
    ensures t.humidity == Normalize(MeanOfYears(humidity, ReferenceYears), now.humidity)
    ensures WithinBaseline(MeanOfYears(heat, ReferenceYears), now.temperature) ==> 0.0 <= t.heat <= 1.0
    ensures WithinBaseline(MeanOfYears(rain, ReferenceYears), now.rainfall) ==> 0.0 <= t.rainfall <= 1.0
    ensures WithinBaseline(MeanOfYears(humidity, ReferenceYears), now.humidity) ==> 0.0 <= t.humidity <= 1.0
    ensures now.temperature == MeanOfYears(heat, ReferenceYears).value.mean ==> t.heat == 0.5
    ensures now.rainfall == MeanOfYears(rain, ReferenceYears).value.mean ==> t.rainfall == 0.5
    ensures now.humidity == MeanOfYears(humidity, ReferenceYears).value.mean ==> t.humidity == 0.5
  {
    var bh, br, bu := MeanOfYears(heat, ReferenceYears), MeanOfYears(rain, ReferenceYears), MeanOfYears(humidity, ReferenceYears);
    NormalizeWithinBaseline(bh, now.temperature);
    NormalizeWithinBaseline(br, now.rainfall);
    NormalizeWithinBaseline(bu, now.humidity);
    Target(Normalize(bh, now.temperature), Normalize(br, now.rainfall), Normalize(bu, now.humidity))
  }

  // ---- calculate_and_get_top_20 ----

  /** A merged row together with its `score` column. */
  datatype ScoredRow = ScoredRow(row: MergedRow, score: real)

  function Abs(x: real): real
  {
    if x < 0.0 then -x else x
  }

  /** Distance of a row's weekly weather from the target: zero exactly on a perfect match. */
  function Score(r: MergedRow, t: Target): (s: real)
    ensures s >= 0.0
    ensures s == 0.0 <==> r.avgHeat == t.heat && r.avgRainfall == t.rainfall && r.avgHumidity == t.humidity
  {
    Abs(r.avgHeat - t.heat) + Abs(r.avgRainfall - t.rainfall) + Abs(r.avgHumidity - t.humidity)
  }

  /** The `score` column written into the frame. */
  function ScoreColumn(rows: seq<MergedRow>, t: Target): (col: seq<real>)
    ensures |col| == |rows|
  {
    seq(|rows|, i requires 0 <= i < |rows| => Score(rows[i], t))
  }

  /** The frame's rows seen together with a score column. */
  function WithScores(rows: seq<MergedRow>, col: seq<real>): (s: seq<ScoredRow>)
    requires |col| == |rows|
    ensures |s| == |rows|
  {
    seq(|rows|, i requires 0 <= i < |rows| => ScoredRow(rows[i], col[i]))
  }

  function ScoreOf(x: ScoredRow): real
  {
    x.score
  }

  function UriOf(x: ScoredRow): string
  {
    x.row.chart.uri
  }

  function Uris(s: seq<ScoredRow>): set<string>
  {
    set x | x in s :: UriOf(x)
  }

  /** The track URIs of a merged frame. */
  function RowUris(rows: seq<MergedRow>): set<string>
  {
    set r | r in rows :: r.chart.uri
  }

  /**
   * `drop_duplicates('uri', keep='first')`: the first row of each URI not
   * in `seen`, in frame order.
   */
  function DropDuplicateUris(s: seq<ScoredRow>, seen: set<string>): (r: seq<ScoredRow>)
    ensures forall x :: x in r ==> x in s && UriOf(x) !in seen
    ensures forall i, j :: 0 <= i < j < |r| ==> UriOf(r[i]) != UriOf(r[j])
    ensures Uris(r) == Uris(s) - seen
  {
    if s == [] then []
    else
      var u := UriOf(s[0]);
      assert Uris(s) == {u} + Uris(s[1..]) by {
        assert forall x :: x in s <==> x == s[0] || x in s[1..];
      }
      if u in seen then DropDuplicateUris(s[1..], seen)
      else
        var rest := DropDuplicateUris(s[1..], seen + {u});
        assert Uris([s[0]] + rest) == {u} + Uris(rest) by {
          assert forall x :: x in [s[0]] + rest <==> x == s[0] || x in rest;
        }
        [s[0]] + rest
  }

  /** Dropping rows keeps a frame sorted by score. */
  lemma {:induction false} DropDuplicatesSorted(s: seq<ScoredRow>, seen: set<string>)
    requires SortedBy(s, ScoreOf)
    ensures SortedBy(DropDuplicateUris(s, seen), ScoreOf)
  {
    if s != [] {
      var u := UriOf(s[0]);
      assert SortedBy(s[1..], ScoreOf);
      if u in seen {
        DropDuplicatesSorted(s[1..], seen);
      } else {
        var rest := DropDuplicateUris(s[1..], seen + {u});
        DropDuplicatesSorted(s[1..], seen + {u});
        var r := [s[0]] + rest;
        forall j | 0 < j < |r| ensures ScoreOf(r[0]) <= ScoreOf(r[j]) {
          assert r[j] in rest;
          var k :| 0 <= k < |s[1..]| && s[1..][k] == r[j];
          assert s[k + 1] == r[j];
        }
      }
    }
  }

  /** On a frame sorted by score, the row kept for a URI has the smallest score among that URI's rows. */
  lemma {:induction false} DropDuplicatesKeepsBest(s: seq<ScoredRow>, seen: set<string>)
    requires SortedBy(s, ScoreOf)
    ensures forall x, y :: x in DropDuplicateUris(s, seen) && y in s && UriOf(y) == UriOf(x) ==> x.score <= y.score
  {
    if s != [] {
      var u := UriOf(s[0]);
      assert SortedBy(s[1..], ScoreOf);
      var seen' := if u in seen then seen else seen + {u};
      DropDuplicatesKeepsBest(s[1..], seen');
      forall x, y | x in DropDuplicateUris(s, seen) && y in s && UriOf(y) == UriOf(x)
        ensures x.score <= y.score
      {
        var k :| 0 <= k < |s| && s[k] == y;
        if x == s[0] {
          assert ScoreOf(s[0]) <= ScoreOf(s[k]);
        } else {
          assert x in DropDuplicateUris(s[1..], seen');
          if k > 0 {
            assert y in s[1..];
          }
        }
      }
    }
  }

  /** A frame whose URIs are pairwise distinct has one row per URI. */
  lemma {:induction false} DistinctUrisCount(r: seq<ScoredRow>)
    requires forall i, j :: 0 <= i < j < |r| ==> UriOf(r[i]) != UriOf(r[j])
    ensures |Uris(r)| == |r|
  {
    if r != [] {
      DistinctUrisCount(r[1..]);
      assert Uris(r) == {UriOf(r[0])} + Uris(r[1..]) by {
        assert forall x :: x in r <==> x == r[0] || x in r[1..];
      }
      assert UriOf(r[0]) !in Uris(r[1..]) by {
        forall x | x in r[1..] ensures UriOf(x) != UriOf(r[0]) {
          var k :| 0 <= k < |r[1..]| && r[1..][k] == x;
          assert r[k + 1] == x;
        }
      }
    }
  }

  /** How many rows the ranker returns at most. */
  const TopCount: nat := 20

  /** The scored frame sorted by score (ascending, ties in no promised order). */
  function RankedRows(rows: seq<MergedRow>, t: Target): (r: seq<ScoredRow>)
    ensures SortedBy(r, ScoreOf)
    ensures |r| == |rows|
  {
    var scored := WithScores(rows, ScoreColumn(rows, t));
    var sorted := SortBy(scored, ScoreOf);
    assert |multiset(sorted)| == |multiset(scored)|;
    sorted
  }

  /** The rows `calculate_and_get_top_20` returns: sort, keep each URI's first row, take twenty. */
  function Top20(rows: seq<MergedRow>, t: Target): (top: seq<ScoredRow>)
    ensures |top| <= TopCount
    ensures forall i, j :: 0 <= i < j < |top| ==> UriOf(top[i]) != UriOf(top[j])
  {
    Take(DropDuplicateUris(RankedRows(rows, t), {}), TopCount)
  }

  /** A ranked row is an input row with its score; every input row is ranked. */
  lemma RankedRowsMembers(rows: seq<MergedRow>, t: Target)
    ensures forall x :: x in RankedRows(rows, t) <==> x.row in rows && x.score == Score(x.row, t)
    ensures Uris(RankedRows(rows, t)) == RowUris(rows)
  {
    var scored := WithScores(rows, ScoreColumn(rows, t));
    var ranked := RankedRows(rows, t);
    assert forall x :: x in ranked <==> x in scored by {
      forall x ensures x in ranked <==> x in scored {
        assert x in ranked <==> x in multiset(ranked);
        assert x in scored <==> x in multiset(scored);
      }
    }
    forall x ensures x in scored <==> x.row in rows && x.score == Score(x.row, t) {
      if x.row in rows && x.score == Score(x.row, t) {
        var i :| 0 <= i < |rows| && rows[i] == x.row;
        assert scored[i] == x;
      }
    }
    forall u ensures u in Uris(ranked) <==> u in RowUris(rows) {
      if u in RowUris(rows) {
        var r :| r in rows && r.chart.uri == u;
        assert ScoredRow(r, Score(r, t)) in ranked;
      }
    }
  }

  /** The de-duplicated ranking, from which the playlist is the first twenty rows. */
  function UniqueRanked(rows: seq<MergedRow>, t: Target): seq<ScoredRow>
  {
    DropDuplicateUris(RankedRows(rows, t), {})
  }

  /** The playlist is ascending by score. */
  lemma Top20Sorted(rows: seq<MergedRow>, t: Target)
    ensures SortedBy(Top20(rows, t), ScoreOf)
  {
    DropDuplicatesSorted(RankedRows(rows, t), {});
    assert Top20(rows, t) <= UniqueRanked(rows, t);
  }

  /** No two rows of the playlist share a track URI. */
  lemma Top20DistinctUris(rows: seq<MergedRow>, t: Target)
    ensures var top := Top20(rows, t);
      forall i, j :: 0 <= i < j < |top| ==> UriOf(top[i]) != UriOf(top[j])
  {
    assert Top20(rows, t) <= UniqueRanked(rows, t);
  }

  /** Every URI of the input survives the de-duplication. */
  lemma DropDuplicatesKeepsEveryUri(rows: seq<MergedRow>, t: Target)
    ensures Uris(UniqueRanked(rows, t)) == RowUris(rows)
  {
    RankedRowsMembers(rows, t);
  }

  /** The playlist has one row per distinct URI of the input, up to twenty. */
  lemma Top20Size(rows: seq<MergedRow>, t: Target)
    ensures |Top20(rows, t)| == if |RowUris(rows)| < TopCount then |RowUris(rows)| else TopCount
  {
    DropDuplicatesKeepsEveryUri(rows, t);
    DistinctUrisCount(UniqueRanked(rows, t));
  }

  /** Each row of the playlist is an input row carrying its own score. */
  lemma Top20FromInput(rows: seq<MergedRow>, t: Target)
    ensures forall x :: x in Top20(rows, t) ==> x.row in rows && x.score == Score(x.row, t)
  {
    RankedRowsMembers(rows, t);
    assert Top20(rows, t) <= UniqueRanked(rows, t);
    assert forall x :: x in Top20(rows, t) ==> x in UniqueRanked(rows, t);
  }

  /** Each track of the playlist comes with the best score any of its rows achieves. */
  lemma Top20BestPerUri(rows: seq<MergedRow>, t: Target)
    ensures forall x, r :: x in Top20(rows, t) && r in rows && r.chart.uri == UriOf(x) ==> x.score <= Score(r, t)
  {
    var ranked := RankedRows(rows, t);
    var unique := UniqueRanked(rows, t);
    RankedRowsMembers(rows, t);
    DropDuplicatesKeepsBest(ranked, {});
    forall x, r | x in Top20(rows, t) && r in rows && r.chart.uri == UriOf(x) ensures x.score <= Score(r, t) {
      assert Top20(rows, t) <= unique;
      assert x in unique;
      assert ScoredRow(r, Score(r, t)) in ranked;
    }
  }

  /** On a sorted frame, no row whose URI the first `n` rows miss scores below any of them. */
  lemma TakeOptimal(unique: seq<ScoredRow>, n: nat)
    requires SortedBy(unique, ScoreOf)
    ensures forall x, d :: x in Take(unique, n) && d in unique && UriOf(d) !in Uris(Take(unique, n)) ==> x.score <= d.score
  {
    var top := Take(unique, n);
    forall x, d | x in top && d in unique && UriOf(d) !in Uris(top) ensures x.score <= d.score {
      var k :| 0 <= k < |unique| && unique[k] == d;
      var m :| 0 <= m < |top| && top[m] == x;
      assert forall j :: 0 <= j < |top| ==> unique[j] == top[j] && UriOf(unique[j]) in Uris(top);
      assert ScoreOf(unique[m]) <= ScoreOf(unique[k]);
    }
  }

  /** No track left out of the playlist has a row scoring below any track in it. */
  lemma Top20Optimal(rows: seq<MergedRow>, t: Target)
    ensures forall x, r :: x in Top20(rows, t) && r in rows && r.chart.uri !in Uris(Top20(rows, t)) ==> x.score <= Score(r, t)
  {
    var ranked := RankedRows(rows, t);
    var unique := UniqueRanked(rows, t);
    var top := Top20(rows, t);
    RankedRowsMembers(rows, t);
    DropDuplicatesSorted(ranked, {});
    DropDuplicatesKeepsBest(ranked, {});
    TakeOptimal(unique, TopCount);
    forall x, r | x in top && r in rows && r.chart.uri !in Uris(top) ensures x.score <= Score(r, t) {
      assert ScoredRow(r, Score(r, t)) in ranked;
      assert r.chart.uri in Uris(unique);
      var d :| d in unique && UriOf(d) == r.chart.uri;
    }
  }

  /**
   * The merged frame the ranker works on. The ranker writes the `score`
   * column into it in place, so the caller's frame carries the scores of
   * the last target it was ranked against.
   */
  class WeatherSpotifyFrame {
    var rows: seq<MergedRow>
    var score: Option<seq<real>>

    constructor (rows: seq<MergedRow>)
      ensures this.rows == rows && score == None
    {
      this.rows := rows;
      score := None;
    }

    /** Writes the `score` column, then sorts, de-duplicates by URI and keeps the twenty best rows. */
    method CalculateAndGetTop20(target: Target) returns (top: seq<ScoredRow>)
      modifies this
      ensures rows == old(rows)
      ensures score == Some(ScoreColumn(rows, target))
      ensures top == Top20(rows, target)
    {
      var col := ScoreColumn(rows, target);
      score := Some(col);
      var ranked := SortBy(WithScores(rows, col), ScoreOf);
      var unique := DropDuplicateUris(ranked, {});
      top := Take(unique, TopCount);
    }
  }
}
