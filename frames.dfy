/**
 * The rows of the four data frames the app reads (chart rows and the
 * three cleaned weather series) and of the frames it builds from them.
 * Only the columns the app reads or carries along are modelled.
 */
module Frames {
  import opened WeekKeys

  /** The audio-feature columns of a chart row, as named in the chart data. */
  datatype AudioFeature =
    | Danceability | Energy | Loudness | Speechiness
    | Acousticness | Liveness | Valence | Tempo

  datatype AudioFeatures = AudioFeatures(
    danceability: real, energy: real, loudness: real, speechiness: real,
    acousticness: real, liveness: real, valence: real, tempo: real)

  /** `row[feature]` for one audio-feature column. */
  function FeatureValue(a: AudioFeatures, f: AudioFeature): real
  {
    match f
    case Danceability => a.danceability
    case Energy => a.energy
    case Loudness => a.loudness
    case Speechiness => a.speechiness
    case Acousticness => a.acousticness
    case Liveness => a.liveness
    case Valence => a.valence
    case Tempo => a.tempo
  }

  /** One row of the chart data frame `df_spotify_hk`; `week` is its `report_date_YW` column. */
  datatype ChartRow = ChartRow(
    week: WeekKey,
    uri: string,
    trackName: string,
    artistNames: string,
    artistIndividual: string,
    releaseDate: string,
    duration: int,
    rank: int,
    audio: AudioFeatures,
    albumCover: string)

  /**
   * One row of a cleaned weather series (`df_hk_heat`, `df_hk_rf`,
   * `df_hk_rh`): its `Year` string, its `YW` week key, the raw `Value` and
   * the `normalizedValue` the cleaning step produced.
   */
  datatype WeatherRow = WeatherRow(year: string, yw: WeekKey, value: real, normalizedValue: real)

  /** One row of `merge_weather_spotify`'s result: a chart row with its week's three weather means. */
  datatype MergedRow = MergedRow(chart: ChartRow, avgHeat: real, avgRainfall: real, avgHumidity: real)
}
