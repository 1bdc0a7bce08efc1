/**
 * The older single-list lyrics component: a flat list of timed lines, the index of
 * the line being sung, and the message shown while loading, on error or when the
 * list is empty.
 */
module LegacyLyrics {
  import opened Wrappers

  /** A timed line of the flat list. */
  datatype ParsedLyric = ParsedLyric(time: real, text: string)

  /** Line `i` is current when it has started and the next line (if any) has not. */
  predicate IsCurrent(lyrics: seq<ParsedLyric>, i: nat, currentTime: real)
    requires i < |lyrics|
  {
    currentTime >= lyrics[i].time && (i + 1 == |lyrics| || currentTime < lyrics[i + 1].time)
  }

  predicate Sorted(lyrics: seq<ParsedLyric>)
  {
    forall i, j :: 0 <= i < j < |lyrics| ==> lyrics[i].time <= lyrics[j].time
  }

  /** `findIndex`: the first current line, or -1 when there is none. */
  function CurrentIndex(lyrics: seq<ParsedLyric>, currentTime: real): (r: int)
    ensures -1 <= r < |lyrics|
    ensures r >= 0 ==> IsCurrent(lyrics, r, currentTime)
    ensures r >= 0 ==> forall j :: 0 <= j < r ==> !IsCurrent(lyrics, j, currentTime)
    ensures r == -1 <==> forall j :: 0 <= j < |lyrics| ==> !IsCurrent(lyrics, j, currentTime)
  {
    CurrentIndexFrom(lyrics, currentTime, 0)
  }

  function CurrentIndexFrom(lyrics: seq<ParsedLyric>, currentTime: real, from: nat): (r: int)
    requires from <= |lyrics|
    ensures r == -1 || from <= r < |lyrics|
    ensures r >= 0 ==> IsCurrent(lyrics, r, currentTime)
    ensures r >= 0 ==> forall j :: from <= j < r ==> !IsCurrent(lyrics, j, currentTime)
    ensures r == -1 <==> forall j :: from <= j < |lyrics| ==> !IsCurrent(lyrics, j, currentTime)
    decreases |lyrics| - from
  {
    if from == |lyrics| then -1
    else if IsCurrent(lyrics, from, currentTime) then from
    else CurrentIndexFrom(lyrics, currentTime, from + 1)
  }

  /** Once any line has started, some line is current (whatever the order of the lines). */
  lemma {:induction false} SomeLineCurrentFrom(lyrics: seq<ParsedLyric>, currentTime: real, i: nat)
    requires i < |lyrics| && lyrics[i].time <= currentTime
    ensures exists j :: i <= j < |lyrics| && IsCurrent(lyrics, j, currentTime)
    decreases |lyrics| - i
  {
    if !IsCurrent(lyrics, i, currentTime) {
      SomeLineCurrentFrom(lyrics, currentTime, i + 1);
    }
  }

  /** No line is current before the first line of a sorted list, or in an empty list. */
  lemma NoneBeforeFirst(lyrics: seq<ParsedLyric>, currentTime: real)
    requires Sorted(lyrics)
    requires |lyrics| == 0 || currentTime < lyrics[0].time
    ensures CurrentIndex(lyrics, currentTime) == -1
  {
    forall j | 0 <= j < |lyrics|
      ensures !IsCurrent(lyrics, j, currentTime)
    {
      assert lyrics[0].time <= lyrics[j].time;
    }
  }

  /** From the first line's start on, a line is highlighted. */
  lemma FoundOnceStarted(lyrics: seq<ParsedLyric>, currentTime: real)
    requires |lyrics| > 0 && lyrics[0].time <= currentTime
    ensures CurrentIndex(lyrics, currentTime) >= 0
  {
    SomeLineCurrentFrom(lyrics, currentTime, 0);
  }

  /** In a sorted list a current line is the only one: after it no line is current. */
  lemma CurrentIsUnique(lyrics: seq<ParsedLyric>, currentTime: real, i: nat, j: nat)
    requires Sorted(lyrics)
    requires i < j < |lyrics| && IsCurrent(lyrics, i, currentTime)
    ensures !IsCurrent(lyrics, j, currentTime)
  {
    assert currentTime < lyrics[i + 1].time <= lyrics[j].time;
  }

  /** In a sorted list the highlighted index is exactly the current line. */
  lemma CurrentIndexIff(lyrics: seq<ParsedLyric>, currentTime: real, i: nat)
    requires Sorted(lyrics) && i < |lyrics|
    ensures CurrentIndex(lyrics, currentTime) == i <==> IsCurrent(lyrics, i, currentTime)
  {
    if IsCurrent(lyrics, i, currentTime) {
      forall j | 0 <= j < i
        ensures !IsCurrent(lyrics, j, currentTime)
      {
        if IsCurrent(lyrics, j, currentTime) {
          CurrentIsUnique(lyrics, currentTime, j, i);
        }
      }
    }
  }

  /** Past the last line's start, the last line stays highlighted in a sorted list. */
  lemma LastAfterEnd(lyrics: seq<ParsedLyric>, currentTime: real)
    requires Sorted(lyrics) && |lyrics| > 0
    requires currentTime >= lyrics[|lyrics| - 1].time
    ensures CurrentIndex(lyrics, currentTime) == |lyrics| - 1
  {
    CurrentIndexIff(lyrics, currentTime, |lyrics| - 1);
  }

  /** What the component shows. */
  datatype LegacyView = LoadingLyrics | NoLyricsFound | NoLyricsAvailable | Lines(lyrics: seq<ParsedLyric>, currentIndex: int)

  /** Loading first, then a (non-empty) error, then an empty list, then the lines. */
  function LegacyPanel(isLoading: bool, error: Option<string>, lyrics: seq<ParsedLyric>, currentTime: real): (v: LegacyView)
    ensures v == LoadingLyrics <==> isLoading
    ensures v == NoLyricsFound <==> !isLoading && error.Some? && error.value != ""
    ensures v == NoLyricsAvailable <==> !isLoading && (error.None? || error.value == "") && |lyrics| == 0
    ensures v.Lines? <==> !isLoading && (error.None? || error.value == "") && |lyrics| > 0
    ensures v.Lines? ==> v.lyrics == lyrics && v.currentIndex == CurrentIndex(lyrics, currentTime)
    ensures v.Lines? ==> -1 <= v.currentIndex < |lyrics|
  {
    if isLoading then LoadingLyrics
    else if error.Some? && error.value != "" then NoLyricsFound
    else if |lyrics| == 0 then NoLyricsAvailable
    else Lines(lyrics, CurrentIndex(lyrics, currentTime))
  }

  /** In a sorted list, the panel highlights line `i` exactly when line `i` is the one playing. */
  lemma HighlightIsPlayingLine(isLoading: bool, error: Option<string>, lyrics: seq<ParsedLyric>, currentTime: real, i: nat)
    requires Sorted(lyrics) && i < |lyrics|
    requires LegacyPanel(isLoading, error, lyrics, currentTime).Lines?
    ensures LegacyPanel(isLoading, error, lyrics, currentTime).currentIndex == i <==> IsCurrent(lyrics, i, currentTime)
  {
    CurrentIndexIff(lyrics, currentTime, i);
  }
}
