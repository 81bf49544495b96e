# Weather-matched Spotify playlist: the data core in Dafny

This project models the data handling of a small Streamlit app. The app
puts the weekly Hong Kong Spotify chart next to Hong Kong weather records
and uses them to suggest a playlist for the current weather. Only the parts
that compute something are modelled, each as a Dafny module:

- **The playlist page** (`5_spotify_playlist.py`, module `Playlist`).
  - `normalize_value` places a reading on a scale where the baseline
    minimum is 0, its mean 0.5 and its maximum 1. The scale is linear on
    each side of the mean.
  - `get_value_mean_of_years` computes a baseline (mean, max, min) from the
    rows of the reference years.
  - The caller turns the three current readings into a target weather
    vector.
  - `calculate_and_get_top_20` works in four steps:
    - it writes a `score` column into the merged frame;
    - it sorts the frame by score;
    - it keeps the first row of every track URI;
    - it returns the twenty best rows.
  - The frame is a class, `WeatherSpotifyFrame`, because the ranker
    changes it in place.
- **`format_duration`** (module `Duration`, with `Decimal` for the text of
  numbers). It writes milliseconds as `M:SS`. Both copies in the source
  are identical, so one model covers them.
- **The correlation page** (`4_correlation.py`, modules `Aggregate`, `Join`
  and `Correlation`).
  - The weekly group-by-mean of each weather series.
  - `merge_weather_spotify`: three successive inner joins of the chart rows
    with those weekly means.
  - The group-by and join part of `calculate_weather_audio_correlation`.
- **The chart exploration page** (`2_spotify_eda.py`).
  - `convert_year_week_to_date` (modules `YearWeek` and `Calendar`). The
    model includes Python's `str.split`, `int()` and the proleptic
    Gregorian day arithmetic that `strptime` uses for `%G-%V-%u`.
  - The ten best-ranked tracks of a week (module `SpotifyEda`).
  - The loop that builds each audio feature's weekly means and rescales
    them onto [0, 1] (module `SpotifyEda`).

How the model maps the program:

- A pandas DataFrame is a sequence of records (`Frames`).
- A pandas float is a Dafny `real`.
- A pandas NaN, a `None` result and a caught `ValueError` are the `None`
  of `Option` (`Wrappers`).
- Generic sorting, taking a prefix and the statistics are in the modules
  `Sorting` and `Stats`.
- The order of week keys (string code-point order, as pandas sorts group
  keys) is in `WeekKeys`.

## Model

| member | source | states |
|---|---|---|
| Playlist.NormalizeValue | 5_spotify_playlist.py:58-62 | the mean maps to 0.5; the minimum maps to 0 when it is below the mean; the maximum maps to 1 when it is above the mean; on a proper baseline the result is at most 0.5 exactly for readings at or below the mean; the branch taken must not divide by zero |
| Playlist.NormalizeMonotone | 5_spotify_playlist.py:58-62 | when min < mean < max, a larger reading never gets a smaller value |
| Playlist.NormalizeUnitRange | 5_spotify_playlist.py:58-62 | when min < mean < max, readings in [min, max] map into [0, 1] |
| Playlist.NormalizeNotClipped | 5_spotify_playlist.py:58-62 | nothing clips the result: readings below min map below 0 and readings above max map above 1 |
| Playlist.YearRows | 5_spotify_playlist.py:66 | the year filter keeps each row of a listed year exactly as often as the frame holds it, and no row of another year |
| Playlist.YearValues | 5_spotify_playlist.py:66-67 | the selected `Value`s are exactly the values of rows whose `Year` is in the list; the selection is empty iff no row's year is listed |
| Playlist.ValueColumn | 5_spotify_playlist.py:67 | the `Value` column, row for row |
| Playlist.YearValuesColumn | 5_spotify_playlist.py:66-67 | the selected values are the `Value` column of the filtered rows, position by position, so each value occurs as often as the filter keeps it |
| Playlist.MeanOfYears | 5_spotify_playlist.py:65-70 | no baseline (NaN) iff no row is selected; otherwise the baseline is the mean, maximum and minimum of the selected values, min <= mean <= max, every selected value lies in [min, max], and min and max are values of selected rows |
| Playlist.MeanOfYearsIgnoresOtherYears | 5_spotify_playlist.py:66 | inserting a row of an unlisted year anywhere leaves the baseline unchanged |
| Playlist.NormalizeWithinBaseline | 5_spotify_playlist.py:114-116 | a reading inside a proper baseline normalises into [0, 1] |
| Playlist.TargetWeather | 5_spotify_playlist.py:105-116 | each target component is the normalised reading against the 2021-2022 baseline of its own series (temperature against the heat rows, rainfall against the rainfall rows, humidity against the humidity rows); a reading inside its proper baseline gives a target in [0, 1]; a reading equal to the baseline mean gives 0.5 |
| Playlist.Score | 5_spotify_playlist.py:88-92 | the score is never negative, and it is 0 exactly when all three weekly weather means equal the target |
| Playlist.DropDuplicateUris | 5_spotify_playlist.py:95 | every kept row comes from the frame; no two kept rows share a URI; the kept URIs are exactly the frame's URIs |
| Playlist.RankedRows | 5_spotify_playlist.py:88-95 | the scored frame sorted by score ascends by score and keeps every row |
| Playlist.Top20 | 5_spotify_playlist.py:95-98 | the playlist has at most 20 rows and no two of them share a URI |
| Playlist.DropDuplicatesSorted | 5_spotify_playlist.py:95 | de-duplicating a frame sorted by score leaves it sorted |
| Playlist.DropDuplicatesKeepsBest | 5_spotify_playlist.py:95 | on a frame sorted by score, each kept row scores no worse than any row with the same URI |
| Playlist.DistinctUrisCount | 5_spotify_playlist.py:95 | a frame with pairwise distinct URIs has one row per URI |
| Playlist.RankedRowsMembers | 5_spotify_playlist.py:88-95 | the sorted scored frame holds exactly the input rows, each with its own score, and has the input's URIs |
| Playlist.DropDuplicatesKeepsEveryUri | 5_spotify_playlist.py:95 | every URI of the input survives de-duplication |
| Playlist.Top20Sorted | 5_spotify_playlist.py:95-98 | the playlist ascends by score |
| Playlist.Top20DistinctUris | 5_spotify_playlist.py:95-98 | no two playlist rows share a URI |
| Playlist.Top20Size | 5_spotify_playlist.py:95-98 | the playlist has min(20, number of distinct input URIs) rows |
| Playlist.Top20FromInput | 5_spotify_playlist.py:88-100 | every playlist row is an input row carrying its own score |
| Playlist.Top20BestPerUri | 5_spotify_playlist.py:95-98 | each listed track carries the best score of any of its rows |
| Playlist.TakeOptimal | 5_spotify_playlist.py:98 | on a frame sorted by score, no row whose URI is missing from the first n rows scores below a row among them |
| Playlist.Top20Optimal | 5_spotify_playlist.py:95-98 | no row of a track left out of the playlist scores below any listed row |
| Playlist.WeatherSpotifyFrame.constructor | 5_spotify_playlist.py:120 | the frame given to the ranker holds the merged rows and has no `score` column yet |
| Playlist.WeatherSpotifyFrame.CalculateAndGetTop20 | 5_spotify_playlist.py:73-100 | the rows are unchanged; the frame's `score` column becomes every row's score; the result is the sorted, de-duplicated first twenty rows |
| Sorting.SortBy | 5_spotify_playlist.py:95 | `sort_values`: the result ascends by the key and is a permutation of the input |
| Sorting.Take | 5_spotify_playlist.py:98 | `nsmallest`/`head` on a sorted frame: the first min(k, n) rows |
| Sorting.TakeSmallest | 2_spotify_eda.py:78 | on a sorted frame, no row left after the first k has a smaller key than a kept one |
| Duration.WholeSeconds | 5_spotify_playlist.py:144 | `int(ms / 1000)` truncates toward zero: for ms >= 0 the whole seconds s satisfy 1000s <= ms < 1000s + 1000, and the mirror bound holds for negative ms |
| Duration.FormatDuration | 5_spotify_playlist.py:143-147 | the text is `M:SS`: a ':' before exactly two digits worth less than 60; the minutes are digits only when ms > -1000 |
| Duration.FormatDurationRoundTrip | 5_spotify_playlist.py:143-147 | reading the text back gives minutes * 60 + seconds = the whole seconds of ms |
| Duration.FormatDurationFields | 2_spotify_eda.py:81-85 | the minutes field reads as the whole seconds floor-divided by 60, and the seconds field is their remainder mod 60, in [0, 59] |
| Decimal.NatToString | 5_spotify_playlist.py:147 | `f"{n}"` for n >= 0: digits, no leading zero, whose value is n |
| Decimal.IntToString | 5_spotify_playlist.py:147 | `f"{n}"`: non-empty; all digits iff n >= 0 |
| Decimal.IntToStringRoundTrip | 5_spotify_playlist.py:147 | the text reads back as n |
| Decimal.TwoDigits | 5_spotify_playlist.py:147 | `f"{n:02d}"` for n < 100: exactly two digits whose value is n |
| Aggregate.Group | 4_correlation.py:26 | a week's group is non-empty iff the week occurs; a value is in the group iff some row pairs it with that week, and it occurs in the group exactly as often as that (week, value) row occurs in the frame |
| Aggregate.GroupByMean | 4_correlation.py:26-33 | the aggregate has exactly the input's distinct weeks, each once and ascending, and each row is the mean of its week's group |
| Aggregate.GroupByMeanBetween | 4_correlation.py:26-33 | each weekly mean lies between the smallest and largest value of its week |
| Aggregate.GroupMeanWithin | 4_correlation.py:26-33 | values in [lo, hi] give a group mean in [lo, hi] |
| Aggregate.GroupByMeanWithin | 4_correlation.py:26-33 | values in [lo, hi] give weekly means in [lo, hi], so [0, 1] is kept |
| Aggregate.FeatureColumn | 4_correlation.py:53 | the week column and one audio-feature column, row for row |
| Aggregate.FeatureColumnWeeks | 4_correlation.py:53 | the weeks of a feature column are exactly the chart's weeks |
| WeekKeys.SortedKeys | 4_correlation.py:26 | the distinct keys, strictly ascending, as `groupby` orders them |
| Join.Matches | 4_correlation.py:35 | a left week has matching right values iff the right frame has that week, and every match is a right value of that week |
| Join.InnerJoin | 4_correlation.py:35-37 | `merge(..., how='inner')`: every output row is a left row with one more column, holding a value the right frame has for that row's week |
| Join.Lookup | 4_correlation.py:35-37 | a value is found iff the week occurs, and it is a value of that week |
| Join.MatchesUnique | 4_correlation.py:35-37 | against an aggregate with unique weeks, a week matches at most once |
| Join.InnerJoinUnique | 4_correlation.py:35-37 | against an aggregate with unique weeks, each left row is kept at most once, with its week's value, in left order |
| Join.JoinUniqueThrice | 4_correlation.py:35-37 | three such joins keep exactly the left rows whose week is in all three aggregates |
| Join.ThreeJoins | 4_correlation.py:35-37 | pandas' three successive inner joins equal that reference |
| Correlation.NormalizedColumn | 4_correlation.py:26 | the `YW` and `normalizedValue` columns, row for row |
| Correlation.WeeklyWeather | 4_correlation.py:26-33 | a series' weekly aggregate has exactly the weeks the series reports, strictly ascending |
| Correlation.MergeWeatherSpotify | 4_correlation.py:24-39 | the merged rows are chart rows kept in chart order |
| Correlation.LookupWeekly | 4_correlation.py:26-33 | a week the series reports is in its aggregate, with the mean of that week |
| Correlation.WeeklyWeatherLookup | 4_correlation.py:26-33 | a series' aggregate has exactly the weeks it reports, each with its mean |
| Correlation.MergeIsCoveredRows | 4_correlation.py:24-39 | `merge_weather_spotify` is one pass over the chart rows that keeps each fully covered row with its three weekly means |
| Correlation.MergeRowsFaithful | 4_correlation.py:26-37 | each merged row is an unchanged chart row whose week every series reports, carrying that week's mean `normalizedValue` of each series |
| Correlation.MergeMultiplicity | 4_correlation.py:35-37 | a chart row is kept iff all three series report its week, and then exactly as often as it occurs in the chart |
| Correlation.MergeKeepsOrder | 4_correlation.py:35-37 | the merged rows keep the chart rows' relative order |
| Correlation.MergeCount | 4_correlation.py:35-37 | the merge never has more rows than the chart, and it has as many iff every chart week is fully covered |
| Correlation.MergeWithinUnit | 4_correlation.py:26-37 | series whose `normalizedValue`s lie in [0, 1] give merged weekly means in [0, 1] |
| Correlation.WeekMeanWithinUnit | 4_correlation.py:26-33 | a weekly mean of values in [0, 1] lies in [0, 1] |
| Correlation.CoveredRowsFaithful | 4_correlation.py:35-37 | each row of the reference merge is a chart row whose week is in all three aggregates, with the three looked-up values |
| Correlation.CoveredRowsMultiplicity | 4_correlation.py:35-37 | the reference merge keeps a chart row as often as the chart has it iff its week is covered, and never otherwise |
| Correlation.CoveredRowsOrder | 4_correlation.py:35-37 | the reference merge is a subsequence of the chart |
| Correlation.CoveredRowsCount | 4_correlation.py:35-37 | the reference merge is never longer than the chart, and equally long iff every chart week is covered |
| Correlation.WeeklyIsCoveredWeeks | 4_correlation.py:53-58 | the per-feature weekly joins equal one pass over the feature's weekly means that keeps the covered weeks |
| Correlation.CoveredWeeksKeys | 4_correlation.py:56-58 | the kept weeks are exactly the aggregate's covered weeks, still strictly ascending |
| Correlation.CoveredWeeksValues | 4_correlation.py:56-58 | each kept row has its aggregate value and the three looked-up weather values |
| Correlation.WeeklyFeatureWeeks | 4_correlation.py:53-58 | the per-feature weekly frame has one row per week, ascending, for exactly the weeks found in the chart and in all three series |
| Correlation.WeeklyFeatureWeather | 4_correlation.py:52-58 | the per-feature weekly frame has strictly ascending weeks, all of them chart weeks |
| Correlation.WeeklyFeatureKeys | 4_correlation.py:52-58 | a week is in the per-feature weekly frame iff the feature column has it and all three series report it |
| Correlation.WeeklyFeatureValues | 4_correlation.py:43-58 | each row holds the week's mean of the feature over the chart and the week's mean of each weather series |
| SpotifyEda.WeekRows | 2_spotify_eda.py:75 | the week filter keeps exactly the rows of the chosen week, each as often as in the chart |
| SpotifyEda.WeekRowsMembers | 2_spotify_eda.py:75 | the week's rows are chart rows, and all of them belong to that week |
| SpotifyEda.TopTracksOfWeek | 2_spotify_eda.py:75-78 | at most ten tracks, ascending by rank |
| SpotifyEda.TopTracksOfWeekShape | 2_spotify_eda.py:75-78 | the listed tracks are chart rows of the chosen week; they ascend by rank; there are ten, or all of the week's rows when it has fewer |
| SpotifyEda.TopTracksOfWeekBest | 2_spotify_eda.py:75-78 | no row of the week left out of the list has a smaller rank than a listed one |
| SpotifyEda.MinMaxNormalize | 2_spotify_eda.py:189-196 | one rescaled value per weekly mean |
| SpotifyEda.Rescaled | 2_spotify_eda.py:194 | a value in [lo, hi] rescales into [0, 1]; it gives 0 exactly at lo and 1 exactly at hi |
| SpotifyEda.MinMaxNormalizeSpread | 2_spotify_eda.py:193-194 | when max > min, every rescaled value is in [0, 1], exactly the minima map to 0 and exactly the maxima map to 1 |
| SpotifyEda.MinMaxNormalizeAt | 2_spotify_eda.py:193-194 | the same facts for a single position |
| SpotifyEda.MinMaxNormalizeMonotone | 2_spotify_eda.py:193-196 | rescaling keeps the order of the values |
| SpotifyEda.MinMaxNormalizeUnit | 2_spotify_eda.py:189-196 | every rescaled value lies in [0, 1], whether or not the values are spread |
| SpotifyEda.MinMaxNormalizeFlat | 2_spotify_eda.py:195-196 | when there is no spread, or no value, every value is 0.5 |
| SpotifyEda.WeeklyAverageFrame | 2_spotify_eda.py:186-196 | a feature's frame has one row per weekly mean, each with a rescaled value in [0, 1] |
| SpotifyEda.AverageFrame | 2_spotify_eda.py:189-196 | the weekly means get one rescaled value each, in [0, 1] |
| SpotifyEda.WeeklyAverageFrameRows | 2_spotify_eda.py:186-196 | a feature's frame has one row per chart week, ascending, holding the week's mean of the feature and a rescaled value in [0, 1] |
| SpotifyEda.FrameWeeks | 2_spotify_eda.py:186 | the frame's weeks are the chart's distinct weeks, strictly ascending |
| SpotifyEda.FrameValues | 2_spotify_eda.py:186-196 | each row holds its week's mean of the feature, and a rescaled value in [0, 1] |
| SpotifyEda.FeatureOrderComplete | 2_spotify_eda.py:142-143 | the page's list names every audio feature |
| SpotifyEda.WeeklyAverages | 2_spotify_eda.py:184-198 | after the loop, every audio feature has an entry, and each entry is that feature's weekly frame |
| YearWeek.Split | 2_spotify_eda.py:39 | `split('-')` gives one more piece than there are separators, and no piece holds one |
| YearWeek.SplitJoin | 2_spotify_eda.py:39 | joining the pieces with the separator gives the string back |
| YearWeek.SplitTwo | 2_spotify_eda.py:39-41 | two separator-free pieces joined by '-' split back into exactly those two |
| YearWeek.SplitNone | 2_spotify_eda.py:39-41 | a string without '-' splits into itself alone |
| YearWeek.LStrip | 2_spotify_eda.py:43-44 | `int()` ignores leading white space (tab, line feed, vertical tab, form feed, carriage return, space and the non-ASCII white space; not U+001C to U+001F): the stripped part is all white space and the rest starts with none |
| YearWeek.RStrip | 2_spotify_eda.py:43-44 | `int()` ignores trailing white space, the same characters: the stripped part is all white space and the rest ends with none |
| YearWeek.DropUnderscores | 2_spotify_eda.py:43-44 | removing the underscores of a digit run leaves digits, and changes nothing in plain digits |
| YearWeek.PyInt | 2_spotify_eda.py:43-44 | `int()` accepts a string only when every character is a digit, an underscore, a sign or white space, and gives a negative number only when the string has a '-' |
| YearWeek.ParseStripped | 2_spotify_eda.py:43-44 | once white space is stripped, a number has a digit, and nothing but digits and underscores after an optional leading sign; it is negative only after a '-' |
| YearWeek.StripKeepsAll | 2_spotify_eda.py:43-44 | stripping removes only white space |
| YearWeek.PyIntRejectsSeparator | 2_spotify_eda.py:43-44 | U+001C, white space to `str.isspace()`, is not white space to `int()`: a string starting with it is rejected |
| YearWeek.PyIntOfDigits | 2_spotify_eda.py:43-44 | a plain digit string, leading zeros included, reads as its value |
| YearWeek.ParseRejects | 2_spotify_eda.py:43-44 | once white space is stripped, a character that is no digit, underscore or sign makes the parse fail |
| YearWeek.PyIntRejects | 2_spotify_eda.py:43-44 | a character that is no digit, underscore, sign or white space makes `int()` fail |
| YearWeek.PyIntLeadingSpace | 2_spotify_eda.py:43-44 | leading white space, as `int()` defines it, does not change what `int()` returns |
| YearWeek.PyIntTrailingSpace | 2_spotify_eda.py:43-44 | trailing white space, as `int()` defines it, does not change what `int()` returns |
| YearWeek.YearAndWeek | 2_spotify_eda.py:39-44 | a year and week are read only from a key with exactly one '-', written a-b with `int(a)` the year and `int(b)` the week |
| YearWeek.YearAndWeekAccepts | 2_spotify_eda.py:39-44 | conversely, every key a-b with one '-' whose pieces `int()` reads gives (int(a), int(b)), whatever their spelling |
| YearWeek.YearAndWeekOfDigits | 2_spotify_eda.py:39-44 | digit pieces of any length read as their values, so "2022-5" and "2022-05" both name week 5 of 2022 |
| YearWeek.ConvertYearWeekToDate | 2_spotify_eda.py:27-57 | a date is returned iff YearAndWeek reads a year in [1900, 2100] and a week in [1, 53]; every other key gives `None`; the date text has ten characters (acceptance of every such key: YearWeek.ConvertAccepts) |
| YearWeek.ConvertAccepts | 2_spotify_eda.py:39-53 | every key a-b with one '-' whose pieces `int()` reads as a year in [1900, 2100] and a week in [1, 53] gives a date |
| YearWeek.ConvertNeedsOneDash | 2_spotify_eda.py:39-41 | a key without exactly one '-' gives `None` |
| YearWeek.ConvertNeedsIntegers | 2_spotify_eda.py:43-57 | a key with a piece `int()` rejects gives `None` rather than raising |
| YearWeek.MondayYear | 2_spotify_eda.py:52 | the Monday of a week of ISO year y falls in calendar year y - 1, y or y + 1 |
| YearWeek.ConvertGivesIsoMonday | 2_spotify_eda.py:52-53 | an accepted key gives the `YYYY-MM-DD` text of a valid date that is a Monday; when the ISO year has the requested week, that date is the Monday of exactly that ISO week |
| YearWeek.WeekKeyParts | 2_spotify_eda.py:39-44 | a key written `YYYY-WW` reads back as its year and week |
| YearWeek.KeySplit | 2_spotify_eda.py:39-41 | two digit strings joined by '-' split back into exactly those two pieces |
| YearWeek.ConvertAcceptsWeekKeys | 2_spotify_eda.py:39-53 | every such key with its year and week in range is accepted |
| Calendar.DaysBeforeNextYear | 2_spotify_eda.py:52 | consecutive years are DaysInYear apart in the day count |
| Calendar.MonthStep | 2_spotify_eda.py:53 | consecutive months are DaysInMonth apart, and the year ends after DaysInYear days |
| Calendar.Ordinal | 2_spotify_eda.py:52 | `toordinal` of a valid date lies within its year's days |
| Calendar.FromOrdinal | 2_spotify_eda.py:52 | `fromordinal(n)` is a valid date whose ordinal is n |
| Calendar.FromOrdinalRoundTrip | 2_spotify_eda.py:52 | `fromordinal` inverts `toordinal` on every valid date |
| Calendar.WeekdayAdd | 2_spotify_eda.py:52 | moving on b days moves the weekday on by b, modulo 7 |
| Calendar.IsoWeek1Monday | 2_spotify_eda.py:52 | the Monday of ISO week 1 falls on or in the six days before January 4 (section 4.1.4.2 of ISO 8601-1:2019) |
| Calendar.IsoYearLength | 2_spotify_eda.py:52 | an ISO year lasts 364 or 371 days |
| Calendar.WeeksInYear | 2_spotify_eda.py:52 | an ISO year has 52 or 53 weeks, ending at the next year's week-1 Monday |
| Calendar.CalcJulianFromV | 2_spotify_eda.py:52 | `_calc_julian_from_V` names the day 7(w - 1) + (wd - 1) days after the week-1 Monday of ISO year y, in calendar year y or y - 1, and in y - 1 exactly when that day falls before January 1 of y |
| Calendar.StrptimeIsoMonday | 2_spotify_eda.py:52 | `strptime(f'{y}-{w}-1', '%G-%V-%u').date()` is the valid date w - 1 weeks after the week-1 Monday of ISO year y |
| Calendar.StrptimeIsoWeek | 2_spotify_eda.py:52 | that date is a Monday, and for a week the ISO year has, it is that week's Monday |
| Calendar.WeeklyMondays | 2_spotify_eda.py:52 | whole weeks after a Monday fall on a Monday |
| Calendar.StrptimeWeek53Overflow | 2_spotify_eda.py:52 | week 53 of a 52-week ISO year is counted on into week 1 of the next ISO year |
| Calendar.FormatDate | 2_spotify_eda.py:53 | `strftime('%Y-%m-%d')` of a four-digit year has ten characters, with dashes at 4 and 7 |
| Calendar.FormatDateRoundTrip | 2_spotify_eda.py:53 | the text reads back as the same date |
| Stats.Minimum | 5_spotify_playlist.py:69 | the minimum is one of the values and no value is smaller |
| Stats.Maximum | 5_spotify_playlist.py:68 | the maximum is one of the values and no value is larger |
| Stats.MeanBetweenMinAndMax | 5_spotify_playlist.py:67-69 | the mean lies between the minimum and the maximum |
| Stats.MeanWithin | 4_correlation.py:26 | values in [lo, hi] have a mean in [lo, hi] |

## Left out

- The Streamlit pages are left out: CSS loading, `session_state`
  checks, page switching, headers, charts, the selection boxes and the
  track display loops. They are user interface only.
- `display_df` of `display_top_tracks_by_week` (`2_spotify_eda.py:88-94`)
  is left out. It only copies and reformats columns for display;
  `format_duration` itself is modelled.
- `get_weather_data` (`5_spotify_playlist.py:29-55`) is left out. It is an
  HTTP request and JSON lookup. The three current readings are inputs
  instead.
- Playlist.TargetWeather: takes the current readings as present numbers.
  The source does not handle a `None` response or a missing reading
  (line 114 subscripts the result directly), so that case is a
  precondition and is not modelled.
- Playlist.TargetWeather: requires a baseline for each series. When no
  2021 or 2022 row is selected, pandas gives a NaN baseline and the source
  goes on with a NaN target and NaN scores without raising; that path is
  not modelled.
- Playlist.NormalizeValue: division by zero is a precondition. When the
  mean equals the minimum (for a reading at or below it), or equals the
  maximum (for a reading above it), the source has no fallback.
- The Pearson correlation matrix `.corr()` (`4_correlation.py:62`) is left
  out. It is floating-point statistics; only the group-by and joins feeding
  it are modelled.
- Dafny reals are exact, so floating-point rounding is not modelled.
  pandas NaN appears only as the `None` of an empty selection.
- Playlist.Top20: no tie order is promised for rows of equal score.
  `sort_values` uses a sort that is not stable. The model sorts by
  insertion, but no contract says which of two tied rows comes first.
  The same holds for SpotifyEda.TopTracksOfWeekShape with equal ranks.
- Sorting.Take: `nsmallest(20, 'score')` is modelled as the first twenty
  rows of the already sorted frame.
- Join.InnerJoin: follows the documented pandas (2.2 and later) rule that
  an inner merge keeps the order of the left keys. Older pandas versions
  are not modelled.
- Calendar.StrptimeIsoMonday: follows Python's `_calc_julian_from_V`
  arithmetic. Whether a given Python version rejects week 53 of a 52-week
  ISO year is not modelled. YearWeek.ConvertGivesIsoMonday promises the
  exact ISO week only for weeks the ISO year has; Calendar.StrptimeWeek53Overflow
  states what the arithmetic gives otherwise.
- YearWeek.ConvertYearWeekToDate: its "a date iff the key reads as a year in
  [1900, 2100] and a week in [1, 53]" follows the same `_calc_julian_from_V`
  arithmetic, which accepts week 53 of a 52-week ISO year. A Python version
  whose `strptime` rejects that week raises a `ValueError`, which the
  source turns into `None`; such keys are not modelled.
- Calendar.FormatDate: limited to four-digit years, which is all that the
  accepted range 1900-2100 can produce.
- YearWeek.PyInt: accepts ASCII digits only. Python's `int()` also accepts
  other Unicode decimal digits, and it has a limit on the number of
  digits; neither is modelled.
- Non-string keys of `convert_year_week_to_date` are not modelled: the
  model's input is always a string. For most non-string keys (an int, a
  float NaN, `None`) the source's `year_week.split('-')`
  (`2_spotify_eda.py:39`) raises `AttributeError`. The `except` at line 55
  does not catch that, so the function raises. Only a bytes-like key
  raises the caught `TypeError` and gets `None`.
- SpotifyEda.WeeklyAverages: the test `feature != 'report_date_YW'`
  (`2_spotify_eda.py:189`) always holds for the eight listed features, so
  the model rescales every feature unconditionally.
- The weather-cleaning step that derives week keys and `normalizedValue`
  (including its clipping to [0, 1]) is not part of this model. Weather
  rows are given with those columns already present.
- `3_weather_eda.py`, `app.py` and `ingest_data.py` are not part of this
  model. They hold charts, database access and CSV ingestion.

## Notes

- `normalize_value` does not clip its result (Playlist.NormalizeNotClipped).
- `sort_values` is not a stable sort, so rows with equal scores come in no
  promised order.
