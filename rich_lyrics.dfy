/**
 * The word-synced lyrics view: sections of lines, each line split into timed
 * segments (words or syllables) and optional background vocals. The line text is
 * consumed segment by segment to decide where a space follows a segment. All
 * times here, the playhead included, are seconds.
 */
module RichLyrics {
  import opened Wrappers
  import opened JsNumber
  import opened JsString
  import opened LyricDoc
  import opened LyricStatus

  /** The view's extra timing offset (zero: statuses use only the built-in 0.1 s). */
  const Offset: real := 0.0

  /** How a section's lines are aligned. */
  datatype Position = Center | Left

  /** The index of the first agent with the given id. */
  function FindAgent(agents: seq<Agent>, id: string): (k: Option<nat>)
    ensures k.Some? ==> k.value < |agents| && agents[k.value].id == id
    ensures k.Some? ==> forall j :: 0 <= j < k.value ==> agents[j].id != id
    ensures k.None? <==> forall j :: 0 <= j < |agents| ==> agents[j].id != id
  {
    FindAgentFrom(agents, id, 0)
  }

  function FindAgentFrom(agents: seq<Agent>, id: string, from: nat): (k: Option<nat>)
    requires from <= |agents|
    ensures k.Some? ==> from <= k.value < |agents| && agents[k.value].id == id
    ensures k.Some? ==> forall j :: from <= j < k.value ==> agents[j].id != id
    ensures k.None? <==> forall j :: from <= j < |agents| ==> agents[j].id != id
    decreases |agents| - from
  {
    if from == |agents| then None
    else if agents[from].id == id then Some(from)
    else FindAgentFrom(agents, id, from + 1)
  }

  /** A section is centred when the first agent matching its first line's singer is a group. */
  function SectionPosition(agents: seq<Agent>, section: Section): Position
    requires |section.lines| > 0
  {
    var k := FindAgent(agents, section.lines[0].agent);
    if k.Some? && agents[k.value].kind == "group" then Center else Left
  }

  /** Centred exactly when some agent carries the singer's id, and the first such is a group. */
  lemma CenteredIffFirstMatchIsGroup(agents: seq<Agent>, section: Section)
    requires |section.lines| > 0
    ensures var id := section.lines[0].agent;
            SectionPosition(agents, section) == Center <==>
              exists k :: 0 <= k < |agents| && agents[k].id == id && agents[k].kind == "group" &&
                          forall j :: 0 <= j < k ==> agents[j].id != id
  {
    var id := section.lines[0].agent;
    var f := FindAgent(agents, id);
    if f.Some? {
      forall k | 0 <= k < |agents| && agents[k].id == id && forall j :: 0 <= j < k ==> agents[j].id != id
        ensures k == f.value
      {
      }
    }
  }

  /** With distinct agent ids, a section is centred exactly when its singer is a group. */
  lemma CenteredIffGroup(agents: seq<Agent>, section: Section)
    requires |section.lines| > 0
    requires forall i, j :: 0 <= i < j < |agents| ==> agents[i].id != agents[j].id
    ensures SectionPosition(agents, section) == Center <==>
            exists k :: 0 <= k < |agents| && agents[k].id == section.lines[0].agent && agents[k].kind == "group"
  {
    var id := section.lines[0].agent;
    var f := FindAgent(agents, id);
    if f.Some? {
      forall k | 0 <= k < |agents| && agents[k].id == id
        ensures k == f.value
      {
      }
    }
  }

  /** The status of an interval in seconds at playhead `currentTime` (seconds). */
  function IntervalStatus(currentTime: real, timeStart: real, timeEnd: real): (s: Status)
    ensures s.isActive <==> timeStart < ToFixed(currentTime, 3) + PerceptualOffset - Offset < timeEnd
  {
    GetLyricStatus(currentTime, timeStart, timeEnd, -Offset)
  }

  /** A line holds the scroll anchor when it starts within half a second or is in its first half. */
  predicate IsAnchor(s: Status)
  {
    (s.secondsBeforeActive < 0.5 + Offset && s.secondsBeforeActive > 0.0) || (s.isActive && s.percentage < 50.0)
  }

  /** The anchor is only ever on a line that starts within half a second or has not ended. */
  lemma AnchorOnlyNearLine(line: RichLine, currentTime: real)
    requires line.timeStart <= line.timeEnd
    requires IsAnchor(IntervalStatus(currentTime, line.timeStart, line.timeEnd))
    ensures var t := ToFixed(currentTime, 3) + PerceptualOffset - Offset;
            line.timeStart - 0.5 < t < line.timeEnd
  {
  }

  /** Whether a space follows a segment of `|seg|` characters at the front of `rest`. */
  predicate SpaceAfter(rest: string, seg: string)
  {
    |seg| < |rest| && rest[|seg|] == ' '
  }

  /** `rest.slice(n)` after a segment: the segment and its space, if any, are removed. */
  function Consume(rest: string, seg: string): (r: string)
    ensures |r| <= |rest|
    ensures |seg| < |rest| ==> r == rest[|seg| + (if SpaceAfter(rest, seg) then 1 else 0)..]
    ensures |seg| >= |rest| ==> r == ""
  {
    var n := |seg| + (if SpaceAfter(rest, seg) then 1 else 0);
    if n <= |rest| then rest[n..] else ""
  }

  /** Whether a space is shown after each segment, consuming `text` from the front. */
  function SpaceFlags(text: string, segs: seq<Segment>): (flags: seq<bool>)
    ensures |flags| == |segs|
    decreases |segs|
  {
    if segs == [] then []
    else [SpaceAfter(text, segs[0].text)] + SpaceFlags(Consume(text, segs[0].text), segs[1..])
  }

  /** The per-segment loop over the line text (the remainder is updated after each segment). */
  method ConsumeSegments(text: string, segs: seq<Segment>) returns (flags: seq<bool>)
    ensures flags == SpaceFlags(text, segs)
  {
    var currentLine := text;
    flags := [];
    for k := 0 to |segs|
      invariant flags + SpaceFlags(currentLine, segs[k..]) == SpaceFlags(text, segs)
    {
      var seg := segs[k];
      ConsumeStep(text, segs, k, flags, currentLine);
      var spaceAfter := |seg.text| < |currentLine| && currentLine[|seg.text|] == ' ';
      var n := |seg.text| + (if spaceAfter then 1 else 0);
      ghost var before := currentLine;
      currentLine := if n <= |currentLine| then currentLine[n..] else "";
      assert spaceAfter == SpaceAfter(before, seg.text) && currentLine == Consume(before, seg.text);
      flags := flags + [spaceAfter];
    }
    assert segs[|segs|..] == [];
  }

  /** Consuming segment `k` appends its flag and leaves the rest of the text for the segments after it. */
  lemma ConsumeStep(text: string, segs: seq<Segment>, k: nat, flags: seq<bool>, rest: string)
    requires k < |segs|
    requires flags + SpaceFlags(rest, segs[k..]) == SpaceFlags(text, segs)
    ensures (flags + [SpaceAfter(rest, segs[k].text)]) + SpaceFlags(Consume(rest, segs[k].text), segs[k + 1..])
            == SpaceFlags(text, segs)
  {
    assert segs[k..][1..] == segs[k + 1..];
    var tail := SpaceFlags(Consume(rest, segs[k].text), segs[k + 1..]);
    assert SpaceFlags(rest, segs[k..]) == [SpaceAfter(rest, segs[k].text)] + tail;
    assert (flags + [SpaceAfter(rest, segs[k].text)]) + tail == flags + ([SpaceAfter(rest, segs[k].text)] + tail);
  }

  /** The background line may have no text: then no segment is followed by a space. */
  function BgSpaceFlags(text: Option<string>, segs: seq<Segment>): (flags: seq<bool>)
    ensures |flags| == |segs|
    ensures text.None? ==> forall k :: 0 <= k < |segs| ==> !flags[k]
  {
    match text
    case None => seq(|segs|, _ => false)
    case Some(t) => SpaceFlags(t, segs)
  }

  /** The background-vocal loop, where the remainder itself may be absent. */
  method ConsumeBackgroundSegments(text: Option<string>, segs: seq<Segment>) returns (flags: seq<bool>)
    ensures flags == BgSpaceFlags(text, segs)
  {
    var bgline := text;
    flags := [];
    for k := 0 to |segs|
      invariant bgline.None? <==> text.None?
      invariant text.None? ==> flags == seq(k, _ => false)
      invariant text.Some? ==> flags + SpaceFlags(bgline.value, segs[k..]) == SpaceFlags(text.value, segs)
    {
      var seg := segs[k];
      var spaceAfter := bgline.Some? && |seg.text| < |bgline.value| && bgline.value[|seg.text|] == ' ';
      if bgline.Some? {
        ConsumeStep(text.value, segs, k, flags, bgline.value);
        var n := |seg.text| + (if spaceAfter then 1 else 0);
        ghost var before := bgline.value;
        bgline := Some(if n <= |bgline.value| then bgline.value[n..] else "");
        assert spaceAfter == SpaceAfter(before, seg.text) && bgline.value == Consume(before, seg.text);
      }
      flags := flags + [spaceAfter];
    }
    assert segs[|segs|..] == [];
  }

  /** The texts of the segments, in order. */
  function Texts(segs: seq<Segment>): (ts: seq<string>)
    ensures |ts| == |segs|
    ensures forall k :: 0 <= k < |segs| ==> ts[k] == segs[k].text
  {
    seq(|segs|, k requires 0 <= k < |segs| => segs[k].text)
  }

  /** What the spans of a line spell: each segment followed by a space where flagged. */
  function Spelled(segs: seq<Segment>, flags: seq<bool>): string
    requires |flags| == |segs|
    decreases |segs|
  {
    if segs == [] then ""
    else segs[0].text + (if flags[0] then " " else "") + Spelled(segs[1..], flags[1..])
  }

  /**
   * When the line text is its segments joined by single spaces, a space follows every
   * segment but the last, and the spans spell the line text back.
   */
  lemma {:induction false} JoinedSegments(segs: seq<Segment>)
    ensures var flags := SpaceFlags(Join(Texts(segs), ' '), segs);
            && (forall k :: 0 <= k < |segs| ==> (flags[k] <==> k + 1 < |segs|))
            && Spelled(segs, flags) == Join(Texts(segs), ' ')
    decreases |segs|
  {
    if |segs| == 1 {
      assert Texts(segs) == [segs[0].text];
    } else if |segs| > 1 {
      var s0 := segs[0].text;
      var rest := Join(Texts(segs[1..]), ' ');
      assert Texts(segs)[1..] == Texts(segs[1..]);
      var text := Join(Texts(segs), ' ');
      assert text == s0 + [' '] + rest;
      assert text[|s0|] == ' ';
      assert SpaceAfter(text, s0);
      assert text[|s0| + 1..] == rest;
      JoinedSegments(segs[1..]);
    }
  }

  /** Whether a silence marker follows section `i`: the next section starts over 5 s after it ends. */
  function SilenceAfter(sections: seq<Section>, i: nat): (r: bool)
    requires i < |sections| && |sections[i].lines| > 0
    ensures r ==> i + 1 < |sections|
    ensures i + 1 < |sections| && |sections[i + 1].lines| > 0 ==>
              (r <==> sections[i + 1].lines[0].timeStart - sections[i].lines[|sections[i].lines| - 1].timeEnd > 5.0)
  {
    var last := sections[i].lines[|sections[i].lines| - 1];
    i + 1 < |sections| && |sections[i + 1].lines| > 0 && last.timeEnd + 5.0 < sections[i + 1].lines[0].timeStart
  }

  /** Every section has a line (the view reads each section's first and last line). */
  predicate WellFormed(rich: RichSync)
  {
    forall i :: 0 <= i < |rich.sections| ==> |rich.sections[i].lines| > 0
  }

  datatype SegmentView = SegmentView(text: string, spaceAfter: bool, status: Status)

  datatype BgView = BgView(isActive: bool, segments: seq<SegmentView>)

  datatype LineView = LineView(
    position: Position, isActive: bool, anchor: bool, segments: seq<SegmentView>, bg: Option<BgView>)

  datatype SectionView = SectionView(lines: seq<LineView>, silenceAfter: bool)

  function SegmentViews(segs: seq<Segment>, flags: seq<bool>, currentTime: real): (vs: seq<SegmentView>)
    requires |flags| == |segs|
    ensures |vs| == |segs|
    ensures forall k :: 0 <= k < |segs| ==> vs[k].text == segs[k].text && vs[k].spaceAfter == flags[k]
    ensures forall k :: 0 <= k < |segs| ==> vs[k].status == IntervalStatus(currentTime, segs[k].timeStart, segs[k].timeEnd)
  {
    seq(|segs|, k requires 0 <= k < |segs| =>
      SegmentView(segs[k].text, flags[k], IntervalStatus(currentTime, segs[k].timeStart, segs[k].timeEnd)))
  }

  /**
   * One line: its alignment, whether it is highlighted, whether it takes the scroll
   * anchor, its word spans and, when it has background vocals, their highlight and spans.
   */
  function RenderLine(position: Position, line: RichLine, currentTime: real): (v: LineView)
    ensures v.position == position
    ensures v.isActive == IntervalStatus(currentTime, line.timeStart, line.timeEnd).isActive
    ensures v.anchor == IsAnchor(IntervalStatus(currentTime, line.timeStart, line.timeEnd))
    ensures v.segments == SegmentViews(line.segments, SpaceFlags(line.text, line.segments), currentTime)
    ensures v.bg.Some? <==> line.bgVox.Some?
    ensures line.bgVox.Some? ==>
              var b := line.bgVox.value;
              v.bg.value == BgView(IntervalStatus(currentTime, b.timeStart, b.timeEnd).isActive,
                                   SegmentViews(b.segments, BgSpaceFlags(b.text, b.segments), currentTime))
  {
    var s := IntervalStatus(currentTime, line.timeStart, line.timeEnd);
    var bg := match line.bgVox
      case None => None
      case Some(b) =>
        Some(BgView(IntervalStatus(currentTime, b.timeStart, b.timeEnd).isActive,
                    SegmentViews(b.segments, BgSpaceFlags(b.text, b.segments), currentTime)));
    LineView(position, s.isActive, IsAnchor(s),
             SegmentViews(line.segments, SpaceFlags(line.text, line.segments), currentTime), bg)
  }

  /** One section: each of its lines with the section's alignment, then the silence marker. */
  function RenderSection(rich: RichSync, i: nat, currentTime: real): (v: SectionView)
    requires i < |rich.sections| && WellFormed(rich)
    ensures |v.lines| == |rich.sections[i].lines|
    ensures forall j :: 0 <= j < |rich.sections[i].lines| ==>
              v.lines[j] == RenderLine(SectionPosition(rich.agents, rich.sections[i]), rich.sections[i].lines[j], currentTime)
    ensures v.silenceAfter == SilenceAfter(rich.sections, i)
  {
    var section := rich.sections[i];
    var position := SectionPosition(rich.agents, section);
    SectionView(seq(|section.lines|, j requires 0 <= j < |section.lines| => RenderLine(position, section.lines[j], currentTime)),
                SilenceAfter(rich.sections, i))
  }

  /** The rendered view: nothing without word-level timing, otherwise one view per section. */
  function Render(lyrics: Jlf, currentTime: real): (v: Option<seq<SectionView>>)
    requires lyrics.richsync.Some? ==> WellFormed(lyrics.richsync.value)
    ensures v.None? <==> lyrics.richsync.None?
    ensures v.Some? ==>
              var rich := lyrics.richsync.value;
              && |v.value| == |rich.sections|
              && (forall i :: 0 <= i < |rich.sections| ==> |v.value[i].lines| == |rich.sections[i].lines|)
              && (forall i :: 0 <= i < |rich.sections| ==> v.value[i].silenceAfter == SilenceAfter(rich.sections, i))
              && (|rich.sections| > 0 ==> !v.value[|rich.sections| - 1].silenceAfter)
              && (forall i :: 0 <= i < |rich.sections| ==> v.value[i] == RenderSection(rich, i, currentTime))
  {
    match lyrics.richsync
    case None => None
    case Some(rich) =>
      Some(seq(|rich.sections|, i requires 0 <= i < |rich.sections| => RenderSection(rich, i, currentTime)))
  }

  /** What a rendered line spells with its spans. */
  function SpelledView(vs: seq<SegmentView>): string
    decreases |vs|
  {
    if vs == [] then "" else vs[0].text + (if vs[0].spaceAfter then " " else "") + SpelledView(vs[1..])
  }

  lemma {:induction false} SpelledViewOfSegments(segs: seq<Segment>, flags: seq<bool>, currentTime: real)
    requires |flags| == |segs|
    ensures SpelledView(SegmentViews(segs, flags, currentTime)) == Spelled(segs, flags)
    decreases |segs|
  {
    if segs != [] {
      var vs := SegmentViews(segs, flags, currentTime);
      assert vs[1..] == SegmentViews(segs[1..], flags[1..], currentTime);
      SpelledViewOfSegments(segs[1..], flags[1..], currentTime);
    }
  }

  /**
   * A line whose text is its segments joined by single spaces is shown word for word:
   * its spans spell exactly the line text, with no trailing space.
   */
  lemma RenderedLineSpellsText(position: Position, line: RichLine, currentTime: real)
    requires line.text == Join(Texts(line.segments), ' ')
    ensures SpelledView(RenderLine(position, line, currentTime).segments) == line.text
    ensures var vs := RenderLine(position, line, currentTime).segments;
            |vs| > 0 ==> !vs[|vs| - 1].spaceAfter
  {
    JoinedSegments(line.segments);
    SpelledViewOfSegments(line.segments, SpaceFlags(line.text, line.segments), currentTime);
  }

  /** A word span is highlighted exactly while the adjusted playhead is strictly inside the word. */
  lemma WordActiveIffInside(position: Position, line: RichLine, currentTime: real, k: nat)
    requires k < |line.segments|
    ensures var seg := line.segments[k];
            var t := ToFixed(currentTime, 3) + PerceptualOffset - Offset;
            RenderLine(position, line, currentTime).segments[k].status.isActive <==> seg.timeStart < t < seg.timeEnd
  {
  }

  /** Of two words where the first ends before the second starts, at most one is highlighted. */
  lemma AtMostOneWordActive(position: Position, line: RichLine, currentTime: real, k: nat, l: nat)
    requires k < l < |line.segments|
    requires line.segments[k].timeEnd <= line.segments[l].timeStart
    ensures var vs := RenderLine(position, line, currentTime).segments;
            !(vs[k].status.isActive && vs[l].status.isActive)
  {
    WordActiveIffInside(position, line, currentTime, k);
    WordActiveIffInside(position, line, currentTime, l);
  }

  /**
   * Every rendered line of a section is centred exactly when the first agent carrying
   * the section's first singer is a group.
   */
  lemma {:induction false} RenderedAlignment(lyrics: Jlf, currentTime: real, i: nat, j: nat)
    requires lyrics.richsync.Some? && WellFormed(lyrics.richsync.value)
    requires i < |lyrics.richsync.value.sections| && j < |lyrics.richsync.value.sections[i].lines|
    ensures var rich := lyrics.richsync.value;
            var id := rich.sections[i].lines[0].agent;
            Render(lyrics, currentTime).value[i].lines[j].position == Center <==>
              exists k :: 0 <= k < |rich.agents| && rich.agents[k].id == id && rich.agents[k].kind == "group" &&
                          forall m :: 0 <= m < k ==> rich.agents[m].id != id
  {
    var rich := lyrics.richsync.value;
    CenteredIffFirstMatchIsGroup(rich.agents, rich.sections[i]);
  }
}
