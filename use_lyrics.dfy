/**
 * The lyrics source resolver (src/hooks/useLyrics.ts): the LRC parser `lrcToJlf`, the
 * LRCLib success rule, and the choice between the two providers' outcomes once both
 * fetches have settled.
 */
module UseLyrics {
  import opened Wrappers
  import opened JsString
  import opened LyricDoc

  /** The length of a `[mm:ss.hh]` tag. */
  const TagLength: nat := 10

  predicate IsDigit(c: char)
  {
    '0' <= c <= '9'
  }

  function DigitValue(c: char): (d: nat)
    requires IsDigit(c)
    ensures d < 10
  {
    c as int - '0' as int
  }

  /** A `[dd:dd.dd]` tag (the pattern `\[\d{2}:\d{2}\.\d{2}\]`) starts at index `i`. */
  predicate IsTagAt(line: string, i: nat)
  {
    && i + TagLength <= |line|
    && line[i] == '[' && IsDigit(line[i + 1]) && IsDigit(line[i + 2])
    && line[i + 3] == ':' && IsDigit(line[i + 4]) && IsDigit(line[i + 5])
    && line[i + 6] == '.' && IsDigit(line[i + 7]) && IsDigit(line[i + 8])
    && line[i + 9] == ']'
  }

  /** The leftmost tag at or after `from`, as a regular-expression search finds it. */
  function FindTagFrom(line: string, from: nat): (r: Option<nat>)
    requires from <= |line|
    ensures r.Some? ==> from <= r.value && IsTagAt(line, r.value)
    decreases |line| - from
  {
    if IsTagAt(line, from) then Some(from)
    else if from == |line| then None
    else FindTagFrom(line, from + 1)
  }

  /** `line.match(/\[(\d{2}):(\d{2}\.\d{2})\]/)`: where the first tag of the line starts. */
  function FindTag(line: string): (r: Option<nat>)
    ensures r.Some? ==> IsTagAt(line, r.value)
  {
    FindTagFrom(line, 0)
  }

  /** The search finds the leftmost tag, and finds none only when the line has none. */
  lemma {:induction false} FindTagFromIsLeftmost(line: string, from: nat)
    requires from <= |line|
    ensures var r := FindTagFrom(line, from);
            && (r.Some? ==> forall j :: from <= j < r.value ==> !IsTagAt(line, j))
            && (r.None? ==> forall j :: from <= j <= |line| ==> !IsTagAt(line, j))
    decreases |line| - from
  {
    if !IsTagAt(line, from) && from < |line| {
      FindTagFromIsLeftmost(line, from + 1);
    }
  }

  lemma FindTagIsLeftmost(line: string)
    ensures FindTag(line).Some? ==> forall j :: 0 <= j < FindTag(line).value ==> !IsTagAt(line, j)
    ensures FindTag(line).None? <==> forall j :: 0 <= j <= |line| ==> !IsTagAt(line, j)
  {
    FindTagFromIsLeftmost(line, 0);
  }

  /** The two-digit number at `line[i..i + 2]`. */
  function TwoDigits(line: string, i: nat): (n: nat)
    requires i + 2 <= |line| && IsDigit(line[i]) && IsDigit(line[i + 1])
    ensures n < 100
  {
    10 * DigitValue(line[i]) + DigitValue(line[i + 1])
  }

  /**
   * The tag's time in milliseconds: `(minutes * 60 + seconds) * 1000` where `seconds` is
   * the decimal `ss.hh`, i.e. mm*60000 + ss*1000 + hh*10.
   */
  function TagTime(line: string, i: nat): (ms: real)
    requires IsTagAt(line, i)
    ensures ms == ((TwoDigits(line, i + 1) * 60) as real
                   + (TwoDigits(line, i + 4) as real + TwoDigits(line, i + 7) as real / 100.0)) * 1000.0
    ensures 0.0 <= ms
  {
    (TwoDigits(line, i + 1) * 60000 + TwoDigits(line, i + 4) * 1000 + TwoDigits(line, i + 7) * 10) as real
  }

  /** `line.replace(tag, "").trim()`: the line without its first tag, trimmed. */
  function LineText(line: string, i: nat): string
    requires IsTagAt(line, i)
  {
    Trim(line[..i] + line[i + TagLength..])
  }

  /** The entry one LRC line contributes: none without a tag, else its time and text. */
  function ParseLine(line: string): (e: Option<SyncedLine>)
    ensures e.Some? <==> FindTag(line).Some?
    ensures e.Some? ==> (e.value.time == TagTime(line, FindTag(line).value) &&
                         e.value.text == LineText(line, FindTag(line).value))
  {
    match FindTag(line)
    case None => None
    case Some(i) => Some(SyncedLine(TagTime(line, i), LineText(line, i)))
  }

  /** The values `f` gives to the elements of `xs`, in order, skipping those it maps to `None`. */
  function FilterMap<A, B>(f: A -> Option<B>, xs: seq<A>): seq<B>
    decreases |xs|
  {
    if xs == [] then []
    else
      var y := f(xs[|xs| - 1]);
      FilterMap(f, xs[..|xs| - 1]) + (if y.Some? then [y.value] else [])
  }

  /** The entries of a list of lines, in order (the specification of the `forEach` loop). */
  function ParseLines(lines: seq<string>): seq<SyncedLine>
  {
    FilterMap(ParseLine, lines)
  }

  function Max(a: real, b: real): real
  {
    if a >= b then a else b
  }

  /** `linesEnd`: `Math.max` folded over the entries' times, starting from 0. */
  function MaxTime(entries: seq<SyncedLine>): real
    decreases |entries|
  {
    if entries == [] then 0.0
    else Max(MaxTime(entries[..|entries| - 1]), entries[|entries| - 1].time)
  }

  /** The document `lrcToJlf` builds: line timing only, no rich sync. */
  function LrcDocument(lrcContent: string, metadata: Metadata, source: string): Jlf
  {
    var entries := ParseLines(Split(lrcContent, '\n'));
    Jlf(Some(SyncedLines(entries, MaxTime(entries))), None, source, metadata)
  }

  /**
   * `lrcToJlf`: walk the lines of the content, push an entry for each line carrying a
   * tag, and keep `linesEnd` as the running maximum of the entries' times.
   */
  method LrcToJlf(lrcContent: string, metadata: Metadata, source: string) returns (doc: Jlf)
    ensures doc == LrcDocument(lrcContent, metadata, source)
  {
    var lines := Split(lrcContent, '\n');
    var syncedLines: seq<SyncedLine> := [];
    var linesEnd: real := 0.0;
    for k := 0 to |lines|
      invariant syncedLines == ParseLines(lines[..k])
      invariant linesEnd == MaxTime(syncedLines)
    {
      var line := lines[k];
      var timeMatch := FindTag(line);
      if timeMatch.Some? {
        var i := timeMatch.value;
        var timeInMs := TagTime(line, i);
        var text := Trim(line[..i] + line[i + TagLength..]);
        syncedLines := syncedLines + [SyncedLine(timeInMs, text)];
        linesEnd := Max(linesEnd, timeInMs);
      }
      assert lines[..k + 1][..k] == lines[..k];
    }
    assert lines[..|lines|] == lines;
    doc := Jlf(Some(SyncedLines(syncedLines, linesEnd)), None, source, metadata);
  }

  /** FilterMap distributes over concatenation: results keep the order of their inputs. */
  lemma {:induction false} FilterMapAppend<A, B>(f: A -> Option<B>, a: seq<A>, b: seq<A>)
    ensures FilterMap(f, a + b) == FilterMap(f, a) + FilterMap(f, b)
    decreases |b|
  {
    if b == [] {
      assert a + b == a;
    } else {
      var b' := b[..|b| - 1];
      FilterMapAppend(f, a, b');
      var ab := a + b;
      assert ab[..|ab| - 1] == a + b';
      assert ab[|ab| - 1] == b[|b| - 1];
    }
  }

  /** Parsing the lines of two chunks is parsing each chunk, in order. */
  lemma ParseLinesAppend(a: seq<string>, b: seq<string>)
    ensures ParseLines(a + b) == ParseLines(a) + ParseLines(b)
  {
    FilterMapAppend(ParseLine, a, b);
  }

  /** The lines that carry a tag, in order. */
  function Tagged(lines: seq<string>): seq<string>
    decreases |lines|
  {
    if lines == [] then []
    else Tagged(lines[..|lines| - 1]) +
         (if FindTag(lines[|lines| - 1]).Some? then [lines[|lines| - 1]] else [])
  }

  /** Exactly one entry per tagged line, in the order of the lines; untagged lines are skipped. */
  lemma {:induction false} OneEntryPerTaggedLine(lines: seq<string>)
    ensures |ParseLines(lines)| == |Tagged(lines)|
    ensures forall k :: 0 <= k < |Tagged(lines)| ==> ParseLine(Tagged(lines)[k]) == Some(ParseLines(lines)[k])
    decreases |lines|
  {
    if lines != [] {
      OneEntryPerTaggedLine(lines[..|lines| - 1]);
      assert ParseLines(lines) == ParseLines(lines[..|lines| - 1]) +
        (if ParseLine(lines[|lines| - 1]).Some? then [ParseLine(lines[|lines| - 1]).value] else []);
    }
  }

  /** `linesEnd` bounds every entry's time, and is 0 or one of those times. */
  lemma {:induction false} MaxTimeIsMaximum(entries: seq<SyncedLine>)
    ensures forall k :: 0 <= k < |entries| ==> entries[k].time <= MaxTime(entries)
    ensures MaxTime(entries) >= 0.0
    ensures MaxTime(entries) == 0.0 || exists k :: 0 <= k < |entries| && MaxTime(entries) == entries[k].time
    decreases |entries|
  {
    if entries != [] {
      var init := entries[..|entries| - 1];
      MaxTimeIsMaximum(init);
      if MaxTime(entries) != 0.0 && MaxTime(entries) == MaxTime(init) {
        var k :| 0 <= k < |init| && MaxTime(init) == init[k].time;
        assert entries[k] == init[k];
      }
    }
  }

  predicate NonDecreasing(entries: seq<SyncedLine>)
  {
    forall i, j :: 0 <= i < j < |entries| ==> entries[i].time <= entries[j].time
  }

  /** For entries in time order with non-negative times, `linesEnd` is the last entry's time. */
  lemma SortedMaxIsLast(entries: seq<SyncedLine>)
    requires |entries| > 0 && NonDecreasing(entries) && entries[0].time >= 0.0
    ensures MaxTime(entries) == entries[|entries| - 1].time
  {
    MaxTimeIsMaximum(entries[..|entries| - 1]);
    assert forall k :: 0 <= k < |entries| - 1 ==> entries[..|entries| - 1][k] == entries[k];
  }

  /** Every entry of a parsed document lies at or before its `linesEnd`. */
  lemma ParsedTimesWithinLinesEnd(lrcContent: string, metadata: Metadata, source: string)
    ensures var s := LrcDocument(lrcContent, metadata, source).lines.value;
            forall k :: 0 <= k < |s.lines| ==> 0.0 <= s.lines[k].time <= s.linesEnd
  {
    var entries := ParseLines(Split(lrcContent, '\n'));
    MaxTimeIsMaximum(entries);
    EntryTimesNonNegative(Split(lrcContent, '\n'));
  }

  lemma {:induction false} EntryTimesNonNegative(lines: seq<string>)
    ensures forall k :: 0 <= k < |ParseLines(lines)| ==> ParseLines(lines)[k].time >= 0.0
    decreases |lines|
  {
    if lines != [] {
      EntryTimesNonNegative(lines[..|lines| - 1]);
      assert ParseLines(lines) == ParseLines(lines[..|lines| - 1]) +
        (if ParseLine(lines[|lines| - 1]).Some? then [ParseLine(lines[|lines| - 1]).value] else []);
    }
  }

  /** "[00:01.50]Hello\n[00:03.00]World" parses to two entries ending at 3000 ms. */
  lemma ExampleParse(content: string, metadata: Metadata)
    requires content == "[00:01.50]Hello\n[00:03.00]World"
    ensures LrcDocument(content, metadata, "LRCLib").lines ==
            Some(SyncedLines([SyncedLine(1500.0, "Hello"), SyncedLine(3000.0, "World")], 3000.0))
  {
    var a, b := "[00:01.50]Hello", "[00:03.00]World";
    ExampleSplit(content, a, b);
    ExampleLine(a, 1500.0, "Hello");
    ExampleLine(b, 3000.0, "World");
    ParseTwo(a, b, SyncedLine(1500.0, "Hello"), SyncedLine(3000.0, "World"));
  }

  /** Two lines that each parse to one entry parse to both, and the later time ends the document. */
  lemma ParseTwo(a: string, b: string, e1: SyncedLine, e2: SyncedLine)
    requires ParseLines([a]) == [e1] && ParseLines([b]) == [e2]
    requires 0.0 <= e1.time <= e2.time
    ensures ParseLines([a, b]) == [e1, e2]
    ensures MaxTime([e1, e2]) == e2.time
  {
    ParseLinesAppend([a], [b]);
    assert [a] + [b] == [a, b];
    assert [e1, e2][..1] == [e1];
    assert [e1][..0] == [];
    assert MaxTime([e1]) == Max(MaxTime([]), e1.time) == e1.time;
  }

  lemma ExampleSplit(content: string, a: string, b: string)
    requires content == "[00:01.50]Hello\n[00:03.00]World"
    requires a == "[00:01.50]Hello" && b == "[00:03.00]World"
    ensures Split(content, '\n') == [a, b]
  {
    assert a + ['\n'] + b == content;
    NoNewline(a);
    NoNewline(b);
    SplitTwo(content, a, b);
  }

  /** Two newline-free lines joined by one newline split back into those lines. */
  lemma SplitTwo(content: string, a: string, b: string)
    requires '\n' !in a && '\n' !in b
    requires content == a + ['\n'] + b
    ensures Split(content, '\n') == [a, b]
  {
    SplitAtFirst(a, '\n', b);
    SplitNoSep(b, '\n');
  }

  lemma NoNewline(line: string)
    requires line == "[00:01.50]Hello" || line == "[00:03.00]World"
    ensures '\n' !in line
  {
    assert forall i :: 0 <= i < |line| ==> line[i] != '\n';
  }

  lemma ExampleLine(line: string, time: real, text: string)
    requires || (line == "[00:01.50]Hello" && time == 1500.0 && text == "Hello")
             || (line == "[00:03.00]World" && time == 3000.0 && text == "World")
    ensures ParseLine(line) == Some(SyncedLine(time, text))
    ensures ParseLines([line]) == [SyncedLine(time, text)]
  {
    var rest := line[TagLength..];
    assert rest == text;
    ParseLineTaggedAtStart(line);
    assert TagTime(line, 0) == time;
    TrimOfWord(rest);
    assert ParseLines([line]) == FilterMap(ParseLine, [line][..0]) + [SyncedLine(time, text)];
  }

  lemma TrimOfWord(w: string)
    requires w == "Hello" || w == "World"
    ensures Trim(w) == w
  {
  }

  /** A line that starts with a tag is parsed by that tag. */
  lemma ParseLineTaggedAtStart(line: string)
    requires IsTagAt(line, 0)
    ensures ParseLine(line) == Some(SyncedLine(TagTime(line, 0), Trim(line[TagLength..])))
  {
    assert FindTag(line) == Some(0);
    assert line[..0] + line[TagLength..] == line[TagLength..];
  }

  /** The fields of the LRCLib answer the model reads; `syncedLyrics` may be missing. */
  datatype LrcLibResponse = LrcLibResponse(
    ok: bool, syncedLyrics: Option<string>, trackName: string, artistName: string, albumName: string)

  /**
   * `fetchLRCLib`: a failed request or an answer without synced lyrics (missing or
   * empty) is a rejection; otherwise the synced lyrics are parsed with `lrcToJlf`.
   */
  function LrcLibOutcome(response: LrcLibResponse): (r: Option<Jlf>)
    ensures r.None? <==> !response.ok || response.syncedLyrics.None? || response.syncedLyrics.value == ""
    ensures r.Some? ==> r.value == LrcDocument(
              response.syncedLyrics.value,
              Metadata(response.albumName, response.artistName, response.trackName), "LRCLib")
  {
    if !response.ok then None
    else if response.syncedLyrics.Some? && response.syncedLyrics.value != "" then
      Some(LrcDocument(response.syncedLyrics.value,
                       Metadata(response.albumName, response.artistName, response.trackName), "LRCLib"))
    else None
  }

  predicate HasRichSync(doc: Option<Jlf>)
  {
    doc.Some? && doc.value.richsync.Some?
  }

  predicate HasLines(doc: Option<Jlf>)
  {
    doc.Some? && doc.value.lines.Some? && |doc.value.lines.value.lines| > 0
  }

  /**
   * The decision once both fetches have settled (`None` is a rejected fetch): UMI with
   * rich sync, else LRCLib with at least one line, else UMI, else LRCLib, else nothing.
   */
  function SelectLyrics(umi: Option<Jlf>, lrcLib: Option<Jlf>): (r: Option<Jlf>)
    ensures HasRichSync(umi) ==> r == umi
    ensures !HasRichSync(umi) && HasLines(lrcLib) ==> r == lrcLib
    ensures !HasRichSync(umi) && !HasLines(lrcLib) && umi.Some? ==> r == umi
    ensures umi.None? && !HasLines(lrcLib) ==> r == lrcLib
    ensures r.None? <==> umi.None? && lrcLib.None?
  {
    if HasRichSync(umi) then umi
    else if HasLines(lrcLib) then lrcLib
    else if umi.Some? then umi
    else if lrcLib.Some? then lrcLib
    else None
  }

  /**
   * An independent reading of the policy: each outcome has a rank (UMI with rich sync 4,
   * LRCLib with lines 3, other UMI 2, other LRCLib 1, a rejection 0).
   */
  function UmiRank(umi: Option<Jlf>): nat
  {
    if HasRichSync(umi) then 4 else if umi.Some? then 2 else 0
  }

  function LrcLibRank(lrcLib: Option<Jlf>): nat
  {
    if HasLines(lrcLib) then 3 else if lrcLib.Some? then 1 else 0
  }

  /** The selection takes the outcome of strictly higher rank, and nothing when both rank 0. */
  lemma SelectionTakesHighestRank(umi: Option<Jlf>, lrcLib: Option<Jlf>)
    ensures UmiRank(umi) > LrcLibRank(lrcLib) ==> SelectLyrics(umi, lrcLib) == umi
    ensures LrcLibRank(lrcLib) > UmiRank(umi) ==> SelectLyrics(umi, lrcLib) == lrcLib
    ensures UmiRank(umi) == LrcLibRank(lrcLib) ==> UmiRank(umi) == 0 && SelectLyrics(umi, lrcLib).None?
  {
  }

  /** The hook's visible state. */
  datatype LyricsState = LyricsState(lyrics: Option<Jlf>, isLoading: bool, error: Option<string>)

  const NoLyricsFound: string := "No lyrics found"

  /**
   * The state after the effect for (artist, track) has run to completion, given the two
   * settled outcomes. A missing artist or track name only clears the lyrics.
   */
  function ResolveLyrics(prev: LyricsState, artistName: string, trackName: string,
                         umi: Option<Jlf>, lrcLib: Option<Jlf>): (s: LyricsState)
    ensures artistName == "" || trackName == "" ==> s == prev.(lyrics := None)
    ensures artistName != "" && trackName != "" ==>
              !s.isLoading && s.lyrics == SelectLyrics(umi, lrcLib) &&
              (s.error.Some? <==> s.lyrics.None?) &&
              (s.error.Some? ==> s.error.value == NoLyricsFound)
  {
    if artistName == "" || trackName == "" then prev.(lyrics := None)
    else
      match SelectLyrics(umi, lrcLib)
      case Some(doc) => LyricsState(Some(doc), false, None)
      case None => LyricsState(None, false, Some(NoLyricsFound))
  }
}
