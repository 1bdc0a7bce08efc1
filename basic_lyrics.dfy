/**
 * The line-by-line lyrics view: one row per synced line, the row whose window
 * holds the playhead highlighted, and the scroll anchor that keeps the upcoming
 * or current line in view. Times of lines are milliseconds; the playhead
 * `currentTime` is seconds.
 */
module BasicLyrics {
  import opened Wrappers
  import opened JsNumber
  import opened LyricDoc
  import opened LyricStatus
  import UseLyrics

  /** Lines are shown half a second early. */
  const LeadOffset: real := 500.0

  /** What an empty line is shown as. */
  const Placeholder: string := "· · ·"

  /** Where line `i` ends: where the next line starts, or at `linesEnd` for the last one. */
  function LineEnd(lines: SyncedLines, i: nat): (e: real)
    requires i < |lines.lines|
  {
    if i + 1 < |lines.lines| then lines.lines[i + 1].time else lines.linesEnd
  }

  /** The status of line `i` at playhead `currentTime` (seconds). */
  function LineStatus(lines: SyncedLines, i: nat, currentTime: real): (s: Status)
    requires i < |lines.lines|
    ensures s.isActive <==>
              lines.lines[i].time < ToFixed(currentTime * 1000.0, 3) + LeadOffset + PerceptualOffset
              && ToFixed(currentTime * 1000.0, 3) + LeadOffset + PerceptualOffset < LineEnd(lines, i)
    ensures s.isActive && i + 1 < |lines.lines| ==>
              ToFixed(currentTime * 1000.0, 3) + LeadOffset + PerceptualOffset < lines.lines[i + 1].time
    ensures s.isActive && i + 1 == |lines.lines| ==>
              ToFixed(currentTime * 1000.0, 3) + LeadOffset + PerceptualOffset < lines.linesEnd
  {
    GetLyricStatus(currentTime * 1000.0, lines.lines[i].time, LineEnd(lines, i), LeadOffset)
  }

  /** A line holds the scroll anchor when it starts within the next half second or is in its first half. */
  predicate IsAnchor(s: Status)
  {
    (s.secondsBeforeActive < 500.0 && s.secondsBeforeActive > 0.0) || (s.isActive && s.percentage < 50.0)
  }

  /**
   * The lead-in anchor above the first line, as the component computes it: the
   * playhead in seconds is compared with the first line's start in milliseconds.
   */
  predicate LeadInAnchorAsWritten(lines: SyncedLines, currentTime: real)
  {
    currentTime * 1000.0 > 5.0 && |lines.lines| > 0 && currentTime < lines.lines[0].time
  }

  /** The lead-in anchor with both sides in milliseconds: playback has not reached the first line. */
  predicate LeadInAnchor(lines: SyncedLines, currentTime: real)
  {
    currentTime * 1000.0 > 5.0 && |lines.lines| > 0 && currentTime * 1000.0 < lines.lines[0].time
  }

  /** The text a row shows: the line's text, or the placeholder for an empty line. */
  function DisplayText(text: string): (r: string)
    ensures r != ""
    ensures text != "" ==> r == text
  {
    if text == "" then Placeholder else text
  }

  datatype LineView = LineView(text: string, isActive: bool, anchor: bool)

  datatype View = View(leadInAnchor: bool, lines: seq<LineView>)

  function ViewLines(lines: SyncedLines, currentTime: real, n: nat): (vs: seq<LineView>)
    requires n <= |lines.lines|
    ensures |vs| == n
    ensures forall i :: 0 <= i < n ==>
              vs[i] == LineView(DisplayText(lines.lines[i].text), LineStatus(lines, i, currentTime).isActive,
                                IsAnchor(LineStatus(lines, i, currentTime)))
    decreases n
  {
    if n == 0 then []
    else
      var s := LineStatus(lines, n - 1, currentTime);
      ViewLines(lines, currentTime, n - 1) + [LineView(DisplayText(lines.lines[n - 1].text), s.isActive, IsAnchor(s))]
  }

  /** The rows of a document that carries lines, below the given lead-in flag. */
  function ViewOf(lines: SyncedLines, leadIn: bool, currentTime: real): (v: View)
    ensures v.leadInAnchor == leadIn
    ensures |v.lines| == |lines.lines|
    ensures forall i :: 0 <= i < |lines.lines| ==>
              && v.lines[i].text == DisplayText(lines.lines[i].text)
              && v.lines[i].isActive == LineStatus(lines, i, currentTime).isActive
              && v.lines[i].anchor == IsAnchor(LineStatus(lines, i, currentTime))
  {
    View(leadIn, ViewLines(lines, currentTime, |lines.lines|))
  }

  /**
   * The rendered view as the component draws it: nothing without a document, otherwise
   * the lead-in anchor (with its seconds-against-milliseconds test) and one row per
   * line. The caller only hands over documents that carry lines.
   */
  function Render(lyrics: Option<Jlf>, currentTime: real): (v: Option<View>)
    requires lyrics.Some? ==> lyrics.value.lines.Some?
    ensures v.None? <==> lyrics.None?
    ensures v.Some? ==>
              var lines := lyrics.value.lines.value;
              && v.value.leadInAnchor == LeadInAnchorAsWritten(lines, currentTime)
              && |v.value.lines| == |lines.lines|
              && forall i :: 0 <= i < |lines.lines| ==>
                   && v.value.lines[i].text == DisplayText(lines.lines[i].text)
                   && v.value.lines[i].isActive == LineStatus(lines, i, currentTime).isActive
                   && v.value.lines[i].anchor == IsAnchor(LineStatus(lines, i, currentTime))
  {
    if lyrics.None? then None
    else
      var lines := lyrics.value.lines.value;
      Some(ViewOf(lines, LeadInAnchorAsWritten(lines, currentTime), currentTime))
  }

  /** The same view with the lead-in test in milliseconds on both sides. */
  function RenderCorrected(lyrics: Option<Jlf>, currentTime: real): (v: Option<View>)
    requires lyrics.Some? ==> lyrics.value.lines.Some?
    ensures v.None? <==> lyrics.None?
    ensures v.Some? ==>
              var lines := lyrics.value.lines.value;
              && v.value.leadInAnchor == LeadInAnchor(lines, currentTime)
              && v.value.lines == Render(lyrics, currentTime).value.lines
  {
    if lyrics.None? then None
    else
      var lines := lyrics.value.lines.value;
      Some(ViewOf(lines, LeadInAnchor(lines, currentTime), currentTime))
  }

  /** The element that ends up holding the scroll ref. */
  datatype Anchor = LeadIn | AtLine(index: nat)

  /** The last of the first `n` rows that asks for the anchor. */
  function LastAnchor(rows: seq<LineView>, n: nat): (k: Option<nat>)
    requires n <= |rows|
    ensures k.Some? ==> k.value < n && rows[k.value].anchor
    ensures k.Some? ==> forall j :: k.value < j < n ==> !rows[j].anchor
    ensures k.None? <==> forall j :: 0 <= j < n ==> !rows[j].anchor
    decreases n
  {
    if n == 0 then None
    else if rows[n - 1].anchor then Some(n - 1)
    else LastAnchor(rows, n - 1)
  }

  /**
   * Where a freshly mounted view scrolls: on mount refs are attached in document
   * order, so the last row asking for the anchor wins, and the lead-in element
   * only when no row asks. Later re-renders re-attach only changed refs.
   */
  function ScrollTarget(leadIn: bool, rows: seq<LineView>): (t: Option<Anchor>)
    ensures t.Some? && t.value.AtLine? ==> t.value.index < |rows| && rows[t.value.index].anchor
    ensures t == Some(LeadIn) <==> leadIn && forall j :: 0 <= j < |rows| ==> !rows[j].anchor
    ensures t.None? <==> !leadIn && forall j :: 0 <= j < |rows| ==> !rows[j].anchor
  {
    var k := LastAnchor(rows, |rows|);
    if k.Some? then Some(AtLine(k.value)) else if leadIn then Some(LeadIn) else None
  }

  /** With lines in time order at most one line is highlighted: every line after a highlighted one is not. */
  lemma AtMostOneLineActive(lines: SyncedLines, currentTime: real, i: nat, j: nat)
    requires UseLyrics.NonDecreasing(lines.lines)
    requires i < j < |lines.lines|
    requires LineStatus(lines, i, currentTime).isActive
    ensures !LineStatus(lines, j, currentTime).isActive
  {
    var t := ToFixed(currentTime * 1000.0, 3) + LeadOffset + PerceptualOffset;
    assert t < lines.lines[i + 1].time <= lines.lines[j].time;
  }

  /** A line whose successor starts at the same time is never highlighted. */
  lemma EmptyWindowNeverActive(lines: SyncedLines, i: nat, currentTime: real)
    requires i < |lines.lines|
    requires LineEnd(lines, i) <= lines.lines[i].time
    ensures !LineStatus(lines, i, currentTime).isActive
  {
  }

  /**
   * In a document parsed from LRC text whose tags are in time order, the last line
   * ends where it starts (`linesEnd` is its own time), so it is never highlighted.
   */
  lemma ParsedLastLineNeverActive(lrcContent: string, metadata: Metadata, source: string, currentTime: real)
    requires var s := UseLyrics.LrcDocument(lrcContent, metadata, source).lines.value;
             |s.lines| > 0 && UseLyrics.NonDecreasing(s.lines)
    ensures var s := UseLyrics.LrcDocument(lrcContent, metadata, source).lines.value;
            !LineStatus(s, |s.lines| - 1, currentTime).isActive
  {
    var s := UseLyrics.LrcDocument(lrcContent, metadata, source).lines.value;
    UseLyrics.ParsedTimesWithinLinesEnd(lrcContent, metadata, source);
    UseLyrics.SortedMaxIsLast(s.lines);
    EmptyWindowNeverActive(s, |s.lines| - 1, currentTime);
  }

  /**
   * With lines in time order, the corrected lead-in anchor is set exactly while playback,
   * past its first 5 ms, has not reached any line.
   */
  lemma LeadInBeforeEveryLine(lines: SyncedLines, currentTime: real)
    requires UseLyrics.NonDecreasing(lines.lines)
    ensures LeadInAnchor(lines, currentTime) <==>
              && currentTime * 1000.0 > 5.0 && |lines.lines| > 0
              && forall i :: 0 <= i < |lines.lines| ==> currentTime * 1000.0 < lines.lines[i].time
  {
    if LeadInAnchor(lines, currentTime) {
      forall i | 0 < i < |lines.lines|
        ensures currentTime * 1000.0 < lines.lines[i].time
      {
        assert lines.lines[0].time <= lines.lines[i].time;
      }
    }
  }

  /** A line in the first half of its window holds the anchor unless a later row also asks. */
  lemma ActiveFirstHalfIsAnchor(lines: SyncedLines, i: nat, currentTime: real)
    requires i < |lines.lines|
    requires LineStatus(lines, i, currentTime).isActive
    requires LineStatus(lines, i, currentTime).percentage < 50.0
    ensures var v := Render(Some(Jlf(Some(lines), None, "", Metadata("", "", ""))), currentTime).value;
            var t := ScrollTarget(v.leadInAnchor, v.lines);
            t.Some? && t.value.AtLine? && t.value.index >= i
  {
    var v := Render(Some(Jlf(Some(lines), None, "", Metadata("", "", ""))), currentTime).value;
    assert v.lines[i].anchor;
    var k := LastAnchor(v.lines, |v.lines|);
    assert k.Some?;
  }

  /** Two lines, at 10 s and 20 s, with the song at 25 s: the second line is 55% through. */
  function TwoLines(): SyncedLines
  {
    SyncedLines([SyncedLine(10000.0, "a"), SyncedLine(20000.0, "b")], 30000.0)
  }

  lemma TwoLinesStatus()
    ensures LineStatus(TwoLines(), 0, 25.0) == Status(25500.1, false, 0.0, 5500.1, -15500.1)
    ensures LineStatus(TwoLines(), 1, 25.0) == Status(25500.1, true, 55.0, 5500.1, -5500.1)
  {
    ToFixedOnGrid(25000000, 3);
    assert ToFixed(25000.0, 3) == 25000.0;
    var raw := ElapsedPercent(25500.1, 20000.0, 30000.0);
    assert raw == 55.001;
    assert Units(55.001, 100.0) == 5500;
  }

  /**
   * The unit mix-up in the lead-in test: 15 s after the first line started, with the
   * second line highlighted past its middle, the lead-in element takes the anchor and
   * the view scrolls back to the top; with both sides in milliseconds nothing is anchored.
   */
  lemma LeadInAsWrittenScrollsToTop()
    ensures LeadInAnchorAsWritten(TwoLines(), 25.0)
    ensures !LeadInAnchor(TwoLines(), 25.0)
    ensures var v := Render(Some(Jlf(Some(TwoLines()), None, "", Metadata("", "", ""))), 25.0).value;
            && v.lines[1].isActive
            && ScrollTarget(v.leadInAnchor, v.lines) == Some(LeadIn)
    ensures var v := RenderCorrected(Some(Jlf(Some(TwoLines()), None, "", Metadata("", "", ""))), 25.0).value;
            ScrollTarget(v.leadInAnchor, v.lines) == None
  {
    TwoLinesStatus();
    var v := Render(Some(Jlf(Some(TwoLines()), None, "", Metadata("", "", ""))), 25.0).value;
    assert !v.lines[0].anchor && !v.lines[1].anchor;
  }
}
