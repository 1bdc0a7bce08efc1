/**
 * The timing core shared by both renderers (src/components/lyrics/Lyrics.tsx): the
 * status of one timed unit (a line, a word) at a clock reading, and the choice of
 * renderer for a resolved document.
 */
module LyricStatus {
  import opened Wrappers
  import opened JsNumber
  import opened LyricDoc

  /** The built-in perceptual offset added to every caller's offset. */
  const PerceptualOffset: real := 0.1

  /**
   * `currentTimePlusOffset` is the adjusted clock every comparison uses; `percentage`
   * is how far through the unit it is (0 when inactive); `secondsAfterActive` is the
   * time elapsed since the start while active, the time past the end once over, and
   * 0 otherwise; `secondsBeforeActive` is the time left before the start.
   */
  datatype Status = Status(
    currentTimePlusOffset: real, isActive: bool, percentage: real,
    secondsAfterActive: real, secondsBeforeActive: real)

  /** The share of `[lyricStart, lyricEnd]` elapsed at `t`, in percent, before rounding. */
  function ElapsedPercent(t: real, lyricStart: real, lyricEnd: real): (p: real)
    requires lyricStart < t < lyricEnd
    ensures 0.0 < p < 100.0
  {
    var duration := lyricEnd - lyricStart;
    var elapsed := t - lyricStart;
    ShareBounds(elapsed, duration);
    elapsed / duration * 100.0
  }

  lemma ShareBounds(elapsed: real, duration: real)
    requires 0.0 < elapsed < duration
    ensures 0.0 < elapsed / duration < 1.0
  {
    DivStrict(0.0, elapsed, duration);
    DivStrict(elapsed, duration, duration);
    assert duration / duration == 1.0;
  }

  /**
   * `getLyricStatus(currentTime, lyricStart, lyricEnd, offset)`: the clock is rounded to
   * three decimals and shifted by `offset` plus the perceptual offset; the unit is active
   * strictly inside its interval; the percentage is rounded to two decimals.
   */
  function GetLyricStatus(currentTime: real, lyricStart: real, lyricEnd: real, offset: real): (s: Status)
    ensures s.currentTimePlusOffset == ToFixed(currentTime, 3) + offset + PerceptualOffset
    ensures s.isActive <==> lyricStart < s.currentTimePlusOffset < lyricEnd
    ensures lyricEnd <= lyricStart ==> !s.isActive
    ensures 0.0 <= s.percentage <= 100.0
    ensures !s.isActive ==> s.percentage == 0.0
    ensures s.secondsAfterActive >= 0.0
    ensures s.secondsBeforeActive == lyricStart - s.currentTimePlusOffset
    ensures s.secondsBeforeActive > 0.0 <==> s.currentTimePlusOffset < lyricStart
  {
    var offset' := offset + PerceptualOffset;
    var t := ToFixed(currentTime, 3) + offset';
    var isActive := t > lyricStart && t < lyricEnd;
    if isActive then
      var raw := ElapsedPercent(t, lyricStart, lyricEnd);
      PercentRoundingBounds(raw);
      Status(t, true, ToFixed(raw, 2), t - lyricStart, lyricStart - t)
    else
      ToFixedOnGrid(0, 2);
      Status(t, false, ToFixed(0.0, 2), if t > lyricEnd then t - lyricEnd else 0.0, lyricStart - t)
  }

  /** A percentage strictly between 0 and 100 stays within [0, 100] once rounded. */
  lemma PercentRoundingBounds(raw: real)
    requires 0.0 < raw < 100.0
    ensures 0.0 <= ToFixed(raw, 2) <= 100.0
  {
    ToFixedOnGrid(0, 2);
    ToFixedOnGrid(10000, 2);
    ToFixedMonotone(0.0, raw, 2);
    ToFixedMonotone(raw, 100.0, 2);
  }

  /** While active, the percentage is the rounded share elapsed and the elapsed time is reported. */
  lemma StatusWhileActive(currentTime: real, lyricStart: real, lyricEnd: real, offset: real)
    requires GetLyricStatus(currentTime, lyricStart, lyricEnd, offset).isActive
    ensures var s := GetLyricStatus(currentTime, lyricStart, lyricEnd, offset);
            var t := s.currentTimePlusOffset;
            && s.secondsAfterActive == t - lyricStart > 0.0
            && s.secondsBeforeActive < 0.0
            && s.percentage == ToFixed(100.0 * (t - lyricStart) / (lyricEnd - lyricStart), 2)
  {
    var s := GetLyricStatus(currentTime, lyricStart, lyricEnd, offset);
    var t := s.currentTimePlusOffset;
    var d := lyricEnd - lyricStart;
    assert (t - lyricStart) / d * 100.0 == 100.0 * (t - lyricStart) / d;
  }

  /** Once the adjusted clock is past the end, the time past the end is reported. */
  lemma StatusAfterEnd(currentTime: real, lyricStart: real, lyricEnd: real, offset: real)
    requires GetLyricStatus(currentTime, lyricStart, lyricEnd, offset).currentTimePlusOffset > lyricEnd
    ensures var s := GetLyricStatus(currentTime, lyricStart, lyricEnd, offset);
            !s.isActive && s.percentage == 0.0 &&
            s.secondsAfterActive == s.currentTimePlusOffset - lyricEnd > 0.0
  {
  }

  /** Before the interval, and exactly at its start or end, nothing has elapsed. */
  lemma StatusBeforeOrAtBoundary(currentTime: real, lyricStart: real, lyricEnd: real, offset: real)
    requires lyricStart <= lyricEnd
    requires var t := GetLyricStatus(currentTime, lyricStart, lyricEnd, offset).currentTimePlusOffset;
             t <= lyricStart || t == lyricEnd
    ensures var s := GetLyricStatus(currentTime, lyricStart, lyricEnd, offset);
            !s.isActive && s.percentage == 0.0 && s.secondsAfterActive == 0.0
  {
  }

  /**
   * An inverted interval (end before start) is never active, and a clock between its end
   * and its start is already reported as past the end while its start still lies ahead.
   */
  lemma StatusInvertedInterval(currentTime: real, lyricStart: real, lyricEnd: real, offset: real)
    requires lyricEnd < lyricStart
    requires var t := GetLyricStatus(currentTime, lyricStart, lyricEnd, offset).currentTimePlusOffset;
             lyricEnd < t <= lyricStart
    ensures var s := GetLyricStatus(currentTime, lyricStart, lyricEnd, offset);
            && !s.isActive && s.percentage == 0.0
            && s.secondsAfterActive == s.currentTimePlusOffset - lyricEnd > 0.0
            && s.secondsBeforeActive >= 0.0
  {
  }

  /** The adjusted clock is the reading plus both offsets, up to the three-decimal rounding. */
  lemma AdjustedTimeClose(currentTime: real, lyricStart: real, lyricEnd: real, offset: real)
    ensures var t := GetLyricStatus(currentTime, lyricStart, lyricEnd, offset).currentTimePlusOffset;
            var exact := currentTime + offset + PerceptualOffset;
            exact - 0.0005 <= t <= exact + 0.0005
  {
    ToFixedError(currentTime, 3);
  }

  /** A clock reading of 5000 in a unit spanning 4000..6000: active, 50.01% through. */
  lemma ExampleActive()
    ensures GetLyricStatus(5000.0, 4000.0, 6000.0, 0.0) ==
            Status(5000.1, true, 50.01, 1000.1, -1000.1)
  {
    ToFixedOnGrid(5000000, 3);
    assert ToFixed(5000.0, 3) == 5000.0;
    var raw := ElapsedPercent(5000.1, 4000.0, 6000.0);
    assert raw == 50.005;
    assert Units(50.005, 100.0) == 5001;
  }

  /** A clock reading of 7100 in a unit spanning 4000..6000: over, 1100.1 past its end. */
  lemma ExampleAfterEnd()
    ensures GetLyricStatus(7100.0, 4000.0, 6000.0, 0.0) ==
            Status(7100.1, false, 0.0, 1100.1, -3100.1)
  {
    ToFixedOnGrid(7100000, 3);
    assert ToFixed(7100.0, 3) == 7100.0;
  }

  /** What the lyrics panel shows. */
  datatype Panel = Loading | NoLyricsFound(error: string) | Rich(doc: Jlf) | Basic(doc: Jlf) | Instrumental

  /**
   * The panel for the resolver's state: loading first, then a (non-empty) error, then a
   * document with `lines` goes to the rich renderer when it also has `richsync` and to the
   * line renderer otherwise; no document, or one without `lines`, shows "Instrumental".
   */
  function ChoosePanel(isLoading: bool, error: Option<string>, lyrics: Option<Jlf>): (p: Panel)
    ensures p == Loading <==> isLoading
    ensures p.NoLyricsFound? <==> !isLoading && error.Some? && error.value != ""
    ensures p.NoLyricsFound? ==> p.error == error.value
    ensures p.Rich? ==> lyrics == Some(p.doc) && p.doc.lines.Some? && p.doc.richsync.Some?
    ensures p.Basic? ==> lyrics == Some(p.doc) && p.doc.lines.Some? && p.doc.richsync.None?
    ensures !isLoading && (error.None? || error.value == "") && lyrics.Some? && lyrics.value.lines.Some? ==>
              p == (if lyrics.value.richsync.Some? then Rich(lyrics.value) else Basic(lyrics.value))
    ensures p.Instrumental? <==>
              !isLoading && (error.None? || error.value == "") &&
              (lyrics.None? || lyrics.value.lines.None?)
  {
    if isLoading then Loading
    else if error.Some? && error.value != "" then NoLyricsFound(error.value)
    else if lyrics.Some? && lyrics.value.lines.Some? then
      if lyrics.value.richsync.Some? then Rich(lyrics.value) else Basic(lyrics.value)
    else Instrumental
  }
}
