/**
 * `format_duration`, defined identically in `5_spotify_playlist.py` and
 * inside `display_top_tracks_by_week` of `2_spotify_eda.py`: a duration in
 * milliseconds as `M:SS`.
 */
module Duration {
  import opened Wrappers
  import opened Decimal

  /** `int(ms / 1000)`: whole seconds, truncated toward zero. */
  function WholeSeconds(ms: int): (s: int)
    ensures 0 <= ms ==> 0 <= s && s * 1000 <= ms < s * 1000 + 1000
    ensures ms < 0 ==> s <= 0 && s * 1000 - 1000 < ms <= s * 1000
  {
    if ms >= 0 then ms / 1000 else -((-ms) / 1000)
  }

  /**
   * Minutes as Python's `seconds // 60` (floor division) and the rest of
   * the seconds as `seconds % 60` (never negative), written `M:SS`.
   */
  function FormatDuration(ms: int): (text: string)
    ensures |text| >= 4 && text[|text| - 3] == ':'
    ensures AllDigits(text[|text| - 2..]) && DigitsValue(text[|text| - 2..]) < 60
    ensures -1000 < ms <==> AllDigits(text[..|text| - 3])
  {
    var seconds := WholeSeconds(ms);
    var minutes := IntToString(seconds / 60);
    var text := minutes + ":" + TwoDigits(seconds % 60);
    assert text[..|text| - 3] == minutes;
    assert text[|text| - 2..] == TwoDigits(seconds % 60);
    text
  }

  /** Reads `M:SS` back into whole seconds. */
  function ParseDuration(text: string): Option<int>
  {
    if |text| < 4 || text[|text| - 3] != ':' || !AllDigits(text[|text| - 2..]) then None
    else
      match ParseIntString(text[..|text| - 3])
      case None => None
      case Some(m) => Some(m * 60 + DigitsValue(text[|text| - 2..]))
  }

  /** The text holds exactly the whole seconds of the duration: minutes * 60 + seconds. */
  lemma FormatDurationRoundTrip(ms: int)
    ensures ParseDuration(FormatDuration(ms)) == Some(WholeSeconds(ms))
  {
    var seconds := WholeSeconds(ms);
    var minutes := IntToString(seconds / 60);
    var text := FormatDuration(ms);
    assert text[..|text| - 3] == minutes;
    assert text[|text| - 2..] == TwoDigits(seconds % 60);
    IntToStringRoundTrip(seconds / 60);
  }

  /**
   * The minutes field is the floor of the whole seconds over 60 and the
   * seconds field, two digits, is the remainder in [0, 59].
   */
  lemma FormatDurationFields(ms: int)
    ensures var text := FormatDuration(ms);
      && ParseIntString(text[..|text| - 3]) == Some(WholeSeconds(ms) / 60)
      && DigitsValue(text[|text| - 2..]) == WholeSeconds(ms) % 60
      && 0 <= DigitsValue(text[|text| - 2..]) < 60
  {
    var seconds := WholeSeconds(ms);
    var text := FormatDuration(ms);
    assert text[..|text| - 3] == IntToString(seconds / 60);
    assert text[|text| - 2..] == TwoDigits(seconds % 60);
    IntToStringRoundTrip(seconds / 60);
  }
}
