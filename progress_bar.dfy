/**
 * The playback progress bar: the filled share of the bar and the `m:ss` clock
 * labels for the playhead and the track length, both in seconds.
 */
module ProgressBar {
  import opened Wrappers
  import opened JsNumber
  import opened JsString

  /**
   * The bar's width in percent, `currentTime / duration * 100`; a zero duration
   * gives no finite number (NaN or an infinity), modelled as `None`.
   */
  function Progress(currentTime: real, duration: real): (p: Option<real>)
    ensures p.None? <==> duration == 0.0
    ensures duration > 0.0 && 0.0 <= currentTime <= duration ==> p.Some? && 0.0 <= p.value <= 100.0
    ensures duration > 0.0 && currentTime == duration ==> p == Some(100.0)
  {
    if duration == 0.0 then None
    else
      ShareOfDuration(currentTime, duration);
      Some(currentTime / duration * 100.0)
  }

  lemma ShareOfDuration(currentTime: real, duration: real)
    requires duration != 0.0
    ensures duration > 0.0 && 0.0 <= currentTime <= duration ==> 0.0 <= currentTime / duration <= 1.0
    ensures currentTime == duration ==> currentTime / duration * 100.0 == 100.0
  {
    if currentTime == duration {
      assert currentTime / duration == 1.0;
    }
    if duration > 0.0 && 0.0 <= currentTime <= duration {
      DivMono(0.0, currentTime, duration);
      DivMono(currentTime, duration, duration);
    }
  }

  /** The bar never shrinks while the playhead moves forward. */
  lemma ProgressMonotone(t1: real, t2: real, duration: real)
    requires duration > 0.0 && t1 <= t2
    ensures Progress(t1, duration).value <= Progress(t2, duration).value
  {
    DivMono(t1, t2, duration);
  }

  /** `m:ss`: whole minutes, then whole seconds of the minute padded to two digits. */
  function FormatTime(seconds: real): string
  {
    Label(Minutes(seconds), SecondsOfMinute(seconds))
  }

  /** `Math.floor(seconds / 60)`. */
  function Minutes(seconds: real): int
  {
    (seconds / 60.0).Floor
  }

  /** `Math.floor(seconds % 60)`. */
  function SecondsOfMinute(seconds: real): int
  {
    Rem(seconds, 60.0).Floor
  }

  /** The template `${mins}:${secs.toString().padStart(2, "0")}`. */
  function Label(mins: int, secs: int): string
  {
    IntToString(mins) + ":" + PadStart(IntToString(secs), 2, '0')
  }

  /** The floor of a quotient by a whole number is the quotient of the floor. */
  lemma FloorDiv(s: real, m: nat)
    requires m > 0
    ensures (s / m as real).Floor == s.Floor / m
  {
    var n := s.Floor;
    var q := n / m;
    var mr := m as real;
    var lo := q as real;
    var hi := lo + 1.0;
    assert q * m <= n < (q + 1) * m;
    assert lo * mr == (q * m) as real;
    assert hi * mr == ((q + 1) * m) as real;
    assert lo * mr <= s < hi * mr;
    DivMono(lo * mr, s, mr);
    DivStrict(s, hi * mr, mr);
    DivOfProduct(lo, mr);
    DivOfProduct(hi, mr);
    assert lo <= s / mr < hi;
  }

  /** For a non-negative time: the whole minutes and the whole seconds within the minute. */
  lemma MinutesAndSeconds(seconds: real)
    requires seconds >= 0.0
    ensures Minutes(seconds) == seconds.Floor / 60
    ensures SecondsOfMinute(seconds) == seconds.Floor % 60
  {
    var n := seconds.Floor;
    FloorDiv(seconds, 60);
    var q := Minutes(seconds);
    var rem := Rem(seconds, 60.0);
    assert rem == seconds - q as real * 60.0;
    assert (q * 60) as real == q as real * 60.0;
    assert rem.Floor == n - q * 60;
  }

  /** Two digits for a number of seconds below a minute. */
  lemma TwoDigitField(r: nat)
    requires r < 60
    ensures PadStart(IntToString(r), 2, '0') == [DigitChar(r / 10), DigitChar(r % 10)]
  {
    var d := NatToString(r);
    var p := PadStart(d, 2, '0');
    if r < 10 {
      assert d == [DigitChar(r)];
      assert |p| == 2 && p[1..] == d && p[0] == '0';
      assert p == [p[0]] + p[1..];
    } else {
      assert NatToString(r / 10) == [DigitChar(r / 10)];
      assert d == [DigitChar(r / 10), DigitChar(r % 10)];
    }
  }

  /**
   * For a non-negative time the label is the whole minutes, a colon and exactly two
   * digits giving the whole seconds within the minute; fractions of a second are dropped.
   */
  lemma FormatTimeShape(seconds: real)
    requires seconds >= 0.0
    ensures var n := seconds.Floor;
            FormatTime(seconds) == NatToString(n / 60) + ":" + [DigitChar(n % 60 / 10), DigitChar(n % 60 % 10)]
  {
    MinutesAndSeconds(seconds);
    LabelShape(seconds.Floor / 60, seconds.Floor % 60);
  }

  /** A label of whole minutes and seconds below a minute: minutes, a colon and two digits. */
  lemma LabelShape(mins: nat, secs: nat)
    requires secs < 60
    ensures Label(mins, secs) == NatToString(mins) + ":" + [DigitChar(secs / 10), DigitChar(secs % 10)]
  {
    TwoDigitField(secs);
  }

  /** The label only depends on the whole seconds. */
  lemma FormatTimeWholeSeconds(seconds: real)
    requires seconds >= 0.0
    ensures FormatTime(seconds) == FormatTime(seconds.Floor as real)
  {
    MinutesAndSeconds(seconds);
    MinutesAndSeconds(seconds.Floor as real);
    assert (seconds.Floor as real).Floor == seconds.Floor;
  }

  /** 125.7 seconds reads "2:05". */
  lemma ExampleFormat(t: real)
    requires t == 125.7
    ensures FormatTime(t) == "2:05"
  {
    assert t.Floor == 125;
    MinutesAndSeconds(t);
    assert Minutes(t) == 2 && SecondsOfMinute(t) == 5;
    LabelShape(2, 5);
    assert NatToString(2) == "2";
  }
}
