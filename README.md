# eddyplayer lyric timing, in Dafny

eddyplayer is a "now playing" web view: it shows the current track, a progress
bar, an animated background drawn from the album art and synchronised lyrics.
This project models the parts of it that decide *what* is shown and *when*, and
proves properties of that model:

- **Lyric status** (`LyricStatus`): `getLyricStatus`, the clock arithmetic both lyric
  views share. It covers the adjusted time, whether a line or word is active, the
  percentage elapsed and the time before and after activation. It also models the
  choice between the rich view, the line view and "Instrumental".
- **Lyric sources** (`UseLyrics`): the LRC parser `lrcToJlf`, an imperative loop proved
  against a specification function. It also has the LRCLib success rule and the
  priority chain that picks between the UMI and LRCLib outcomes once both fetches
  have settled.
- **Line view** (`BasicLyrics`): each line's end time and status in milliseconds, the
  scroll-anchor predicate, the lead-in anchor and the empty-line placeholder.
- **Word view** (`RichLyrics`): section alignment from the agent list, the
  segment-consumption loops that decide where a space follows a word, the silence
  marker between sections and the anchor predicate in seconds.
- **Older list view** (`LegacyLyrics`): the `findIndex` search for the current line,
  and the loading, error and empty messages.
- **Progress bar** (`ProgressBar`): the filled percentage and the `m:ss` labels.
- **Album colours** (`AlbumColors`): the hex/RGB codec and colour interpolation. It
  also has the in-place Durstenfeld shuffle, an array method proved against a
  functional specification.
- **Breathing value** (`Breathe`): a class whose `Step` performs one timer tick.
- **Settings** (`Config`): the default record and the two record updates.
- **JavaScript helpers** (`JsNumber`, `JsString`): `Number(x.toFixed(d))`,
  `Math.round`, `%`, `toString` in base 10 and 16, `split`, `trim` and `padStart`, over
  exact reals and character sequences.
- **Data** (`LyricDoc`, `Wrappers`): the lyric document ("JLF") datatypes and `Option`.

The clock (`currentTime`), the network answers and `Math.random()` are parameters of
the model. Line times are milliseconds and rich-sync times are seconds, as in the
program.

Three behaviours of the program that are easy to misread:

- `getLyricStatus(7100, 4000, 6000)` reports 1100.1 after the end, in the input's unit,
  not in seconds (`LyricStatus.ExampleAfterEnd`).
- A zero track duration gives no finite progress value (NaN or an infinity), not 0%
  (`ProgressBar.Progress`).
- The default API URL is a single space. So `isConfigured` starts out true when
  nothing is stored (`Config.DefaultIsConfigured`).

## Model

| member | source | states |
|---|---|---|
| JsNumber.ToFixedMonotone | src/components/lyrics/Lyrics.tsx:28 | rounding to `d` decimals never reverses the order of two numbers |
| JsNumber.ToFixedError | src/components/lyrics/Lyrics.tsx:28 | rounding to `d` decimals moves a number by at most half a unit of the last digit |
| JsNumber.ToFixedOnGrid | src/components/lyrics/Lyrics.tsx:47 | a number already on the 10^-d grid is left unchanged by rounding |
| JsNumber.ToFixedSign | src/components/lyrics/Lyrics.tsx:47 | rounding keeps a non-negative number non-negative and a non-positive one non-positive |
| JsNumber.Round | src/hooks/useAlbumColors.ts:24 | `Math.round` gives an integer within half a unit, ties going up |
| JsNumber.Rem | src/components/ProgressBar.tsx:23 | `%` takes the sign of the dividend, is smaller than the divisor in magnitude and differs from the dividend by a whole number of divisors |
| JsNumber.RemUnique | src/components/ProgressBar.tsx:23 | those three facts determine the remainder: any number with all of them is `x % m` |
| JsNumber.NatToString | src/components/ProgressBar.tsx:24 | decimal `toString` is decimal digits whose value is n, without a leading zero, one digit exactly below 10 |
| JsNumber.NatToHex | src/hooks/useAlbumColors.ts:24 | hexadecimal `toString` is lower-case hex digits whose value is n, without a leading zero, one digit exactly below 16 |
| JsString.JoinSplit | src/hooks/useLyrics.ts:26 | joining the parts of `split("\n")` with the separator gives the content back |
| JsString.SplitJoin | src/hooks/useLyrics.ts:26 | splitting separator-free parts joined by the separator gives the parts back |
| JsString.TrimDropsOnlySpace | src/hooks/useLyrics.ts:38 | `trim` keeps a contiguous part with no white space at either end and drops only white space |
| JsString.TrimKeepsTrimmed | src/hooks/useLyrics.ts:38 | a string without white space at its ends is its own trim |
| JsString.PadStart | src/components/ProgressBar.tsx:24 | `padStart(n, c)` reaches length `n`, ends with the input and is `c` in front |
| JsString.ToLowerAsciiString | src/hooks/useAlbumColors.ts:12 | lower-casing keeps the length and maps each letter A-Z to a-z, nothing else |
| LyricStatus.GetLyricStatus | src/components/lyrics/Lyrics.tsx:18-51 | adjusted time = time rounded to 3 decimals + offset + 0.1; active iff start < adjusted < end, never when end <= start; percentage in [0, 100] and 0 when inactive; time after activation never negative; time before activation = start - adjusted, positive iff before the start |
| LyricStatus.ElapsedPercent | src/components/lyrics/Lyrics.tsx:36-39 | the share elapsed inside the interval lies strictly between 0 and 100 before rounding |
| LyricStatus.PercentRoundingBounds | src/components/lyrics/Lyrics.tsx:47 | the rounded percentage of an active unit stays within [0, 100] |
| LyricStatus.StatusWhileActive | src/components/lyrics/Lyrics.tsx:36-39 | while active: time after activation = adjusted - start > 0, time before is negative, percentage = 100 * (adjusted - start) / (end - start) rounded to 2 decimals |
| LyricStatus.StatusAfterEnd | src/components/lyrics/Lyrics.tsx:40-41 | past the end: inactive, 0%, and the time after activation is the positive time past the end |
| LyricStatus.StatusBeforeOrAtBoundary | src/components/lyrics/Lyrics.tsx:31-34 | before the start, exactly at the start or exactly at the end: inactive, 0% and nothing elapsed |
| LyricStatus.StatusInvertedInterval | src/components/lyrics/Lyrics.tsx:31-49 | for an interval ending before it starts, a time between end and start is inactive, reported as past the end and still before the start |
| LyricStatus.AdjustedTimeClose | src/components/lyrics/Lyrics.tsx:25-28 | the adjusted time is within 0.0005 of time + offset + 0.1 |
| LyricStatus.ExampleActive | src/components/lyrics/Lyrics.tsx:18-51 | at 5000 in 4000..6000: active, 50.01%, 1000.1 elapsed, -1000.1 before |
| LyricStatus.ExampleAfterEnd | src/components/lyrics/Lyrics.tsx:40-49 | at 7100 in 4000..6000: inactive, 0%, 1100.1 past the end, -3100.1 before |
| LyricStatus.ChoosePanel | src/components/lyrics/Lyrics.tsx:80-141 | the loading panel iff loading; the error panel, with the error's text, iff not loading and the error is non-empty; otherwise a document with lines gets the rich view when it has richsync and the line view when not; "Instrumental" iff no document or no lines |
| UseLyrics.FindTagIsLeftmost | src/hooks/useLyrics.ts:33 | the tag search returns the leftmost `[dd:dd.dd]` tag, and none iff the line has none |
| UseLyrics.TagTime | src/hooks/useLyrics.ts:35-37 | a tag's time is (minutes * 60 + seconds.hundredths) * 1000 ms, never negative |
| UseLyrics.ParseLine | src/hooks/useLyrics.ts:33-40 | a line yields an entry iff it has a tag; its time is the first tag's and its text the line without that tag, trimmed |
| UseLyrics.ParseLineTaggedAtStart | src/hooks/useLyrics.ts:33-38 | a line starting with a tag is timed by it and its text is the rest of the line, trimmed |
| UseLyrics.LrcToJlf | src/hooks/useLyrics.ts:21-50 | the loop builds exactly the document of the entries of the split lines, with `linesEnd` their running maximum and no rich sync |
| UseLyrics.FilterMapAppend | src/hooks/useLyrics.ts:32-43 | collecting entries distributes over concatenation of the input lines |
| UseLyrics.ParseLinesAppend | src/hooks/useLyrics.ts:32-43 | the entries of two chunks of lines are those of the first chunk followed by those of the second |
| UseLyrics.OneEntryPerTaggedLine | src/hooks/useLyrics.ts:26-43 | exactly one entry per tagged line, in line order, each the parse of its line; untagged lines are skipped |
| UseLyrics.MaxTimeIsMaximum | src/hooks/useLyrics.ts:29-41 | `linesEnd` is at least every entry's time, non-negative, and 0 or one of the times |
| UseLyrics.EntryTimesNonNegative | src/hooks/useLyrics.ts:35-37 | every parsed entry has a non-negative time |
| UseLyrics.ParsedTimesWithinLinesEnd | src/hooks/useLyrics.ts:37-41 | every entry of a parsed document lies in [0, `linesEnd`] |
| UseLyrics.SortedMaxIsLast | src/hooks/useLyrics.ts:41 | for entries in time order, `linesEnd` is the last entry's time |
| UseLyrics.ExampleParse | src/hooks/useLyrics.ts:21-50 | "[00:01.50]Hello\n[00:03.00]World" gives entries (1500, "Hello"), (3000, "World") and `linesEnd` 3000 |
| UseLyrics.ExampleSplit | src/hooks/useLyrics.ts:26 | that content splits into its two lines |
| UseLyrics.ExampleLine | src/hooks/useLyrics.ts:33-40 | each of those lines parses to its entry |
| UseLyrics.LrcLibOutcome | src/hooks/useLyrics.ts:67-81 | LRCLib fails iff the response is not ok or the synced lyrics are missing or empty; otherwise the result is `lrcToJlf` of them with the response's metadata |
| UseLyrics.SelectLyrics | src/hooks/useLyrics.ts:142-157 | UMI with richsync, else LRCLib with a line, else UMI, else LRCLib; nothing iff both fetches failed |
| UseLyrics.SelectionTakesHighestRank | src/hooks/useLyrics.ts:142-157 | the selection takes the outcome of strictly higher rank (4 rich UMI, 3 LRCLib with lines, 2 UMI, 1 LRCLib, 0 failed); equal ranks only when both failed |
| UseLyrics.ResolveLyrics | src/hooks/useLyrics.ts:118-161 | a missing artist or track only clears the lyrics; otherwise loading ends, the lyrics are the selection, and the error is "No lyrics found" iff nothing was selected |
| BasicLyrics.LineStatus | src/components/lyrics/BasicLyrics.tsx:53-58 | line i is active iff its time < playhead * 1000 (rounded) + 500.1 < the next line's time, or `linesEnd` for the last line |
| BasicLyrics.DisplayText | src/components/lyrics/BasicLyrics.tsx:78 | a row never shows an empty text; a non-empty line shows its own text |
| BasicLyrics.Render | src/components/lyrics/BasicLyrics.tsx:36-78 | nothing iff no document; otherwise the lead-in flag by the test as written (seconds against milliseconds) and one row per line with its text, highlight and anchor flag |
| BasicLyrics.RenderCorrected | src/components/lyrics/BasicLyrics.tsx:44-51 | the same rows, with the lead-in flag by the millisecond test |
| BasicLyrics.LastAnchor | src/components/lyrics/BasicLyrics.tsx:68-75 | the last row asking for the anchor, or none iff no row asks |
| BasicLyrics.ScrollTarget | src/components/lyrics/BasicLyrics.tsx:45-75 | in a freshly mounted view (lyrics opened or loaded at that playhead), the last anchored row holds the scroll ref; the lead-in element only when no row asks; nothing iff neither |
| BasicLyrics.AtMostOneLineActive | src/components/lyrics/BasicLyrics.tsx:52-58 | with lines in time order, no line after an active line is active |
| BasicLyrics.EmptyWindowNeverActive | src/components/lyrics/BasicLyrics.tsx:56 | a line whose end is not after its start is never active |
| BasicLyrics.ParsedLastLineNeverActive | src/components/lyrics/BasicLyrics.tsx:56 | in a parsed document with sorted tags, the last line is never highlighted |
| BasicLyrics.LeadInBeforeEveryLine | src/components/lyrics/BasicLyrics.tsx:44-47 | with lines in time order, the corrected lead-in anchor is set iff the playhead is past 5 ms and before every line |
| BasicLyrics.ActiveFirstHalfIsAnchor | src/components/lyrics/BasicLyrics.tsx:68-75 | in a freshly mounted view (lyrics opened or loaded at that playhead), a line active and less than half through makes the view scroll to it or to a later row |
| BasicLyrics.TwoLinesStatus | src/components/lyrics/BasicLyrics.tsx:53-58 | lines at 10 s and 20 s, song at 25 s: the first line is over, the second is active and 55% through |
| BasicLyrics.LeadInAsWrittenScrollsToTop | src/components/lyrics/BasicLyrics.tsx:45-51 | the lead-in test as written holds 15 s after the first line started, so a view freshly mounted at that playhead scrolls to the top; the corrected view has no scroll target |
| RichLyrics.FindAgent | src/components/lyrics/RichLyrics.tsx:29 | `agents.find` by id: the first agent with that id, none iff no agent has it |
| RichLyrics.CenteredIffFirstMatchIsGroup | src/components/lyrics/RichLyrics.tsx:24-34 | a section is centred iff the first agent with its first line's id is a group; otherwise, no match included, left |
| RichLyrics.CenteredIffGroup | src/components/lyrics/RichLyrics.tsx:28-32 | with distinct agent ids, centred iff the singer is a group |
| RichLyrics.IntervalStatus | src/components/lyrics/RichLyrics.tsx:91-96 | a line, word or background line is active iff start < playhead (rounded) + 0.1 < end, in seconds |
| RichLyrics.AnchorOnlyNearLine | src/components/lyrics/RichLyrics.tsx:122-129 | the anchor is only on a line starting within half a second or not yet over |
| RichLyrics.Consume | src/components/lyrics/RichLyrics.tsx:141-145 | the remainder drops the segment and the following space if any, is "" when the segment is longer, and never grows |
| RichLyrics.ConsumeSegments | src/components/lyrics/RichLyrics.tsx:132-145 | the loop's space flags are the consumption of the line text segment by segment |
| RichLyrics.BgSpaceFlags | src/components/lyrics/RichLyrics.tsx:177-184 | without background text no segment is followed by a space |
| RichLyrics.ConsumeBackgroundSegments | src/components/lyrics/RichLyrics.tsx:168-184 | the background loop's flags are the consumption of the optional background text |
| RichLyrics.JoinedSegments | src/components/lyrics/RichLyrics.tsx:141-145 | for a line that is its segments joined by single spaces, every segment but the last is followed by a space and the spans spell the line |
| RichLyrics.SegmentViews | src/components/lyrics/RichLyrics.tsx:132-158 | one span per segment, with its text, its space flag and its word's status at the playhead |
| RichLyrics.SpelledViewOfSegments | src/components/lyrics/RichLyrics.tsx:150-157 | the rendered spans spell the segments with their flagged spaces |
| RichLyrics.RenderLine | src/components/lyrics/RichLyrics.tsx:90-204 | a line keeps its section's alignment; it is highlighted iff its interval status is active; it takes the anchor iff the anchor predicate holds of that status; its spans are the segments with the line text's space flags; it has a background line iff it has background vocals, highlighted by their own interval and with spans from the background text |
| RichLyrics.WordActiveIffInside | src/components/lyrics/RichLyrics.tsx:132-138 | a word span is highlighted iff the adjusted playhead is strictly inside the word |
| RichLyrics.AtMostOneWordActive | src/components/lyrics/RichLyrics.tsx:132-138 | of two words where the first ends before the second starts, at most one is highlighted |
| RichLyrics.RenderedLineSpellsText | src/components/lyrics/RichLyrics.tsx:132-159 | a line that is its segments joined by spaces is shown word for word, with no trailing space |
| RichLyrics.SilenceAfter | src/components/lyrics/RichLyrics.tsx:208-209 | a silence marker follows section i iff the next section starts more than 5 s after its last line ends; never after the last section |
| RichLyrics.RenderSection | src/components/lyrics/RichLyrics.tsx:85-210 | a section shows each of its lines rendered with the section's alignment, then the silence marker iff the silence rule holds |
| RichLyrics.Render | src/components/lyrics/RichLyrics.tsx:79-211 | nothing iff no richsync; otherwise section i is shown as its rendered section, with the silence rule and none after the last |
| RichLyrics.RenderedAlignment | src/components/lyrics/RichLyrics.tsx:24-34 | every rendered line of a section is centred iff the first agent with the section's singer id is a group |
| LegacyLyrics.CurrentIndex | src/components/Lyrics.tsx:24-27 | the first line that has started while the next has not, or -1 iff there is none |
| LegacyLyrics.SomeLineCurrentFrom | src/components/Lyrics.tsx:24-27 | once some line has started, a current line exists at or after it |
| LegacyLyrics.NoneBeforeFirst | src/components/Lyrics.tsx:24-27 | -1 for an empty list or, in a sorted list, before the first line |
| LegacyLyrics.FoundOnceStarted | src/components/Lyrics.tsx:24-27 | from the first line's start on, some line is current |
| LegacyLyrics.CurrentIsUnique | src/components/Lyrics.tsx:26 | in a sorted list, no line after a current line is current |
| LegacyLyrics.CurrentIndexIff | src/components/Lyrics.tsx:24-27 | in a sorted list, the index is i iff line i is current; its start is included and its end excluded |
| LegacyLyrics.LastAfterEnd | src/components/Lyrics.tsx:24-27 | past the last line's start the last line stays current |
| LegacyLyrics.LegacyPanel | src/components/Lyrics.tsx:24-94 | "Loading lyrics..." iff loading; "No lyrics found" iff not loading and an error; "No lyrics available" iff neither and the list is empty; otherwise the lines with the highlighted index equal to the `findIndex` result |
| LegacyLyrics.HighlightIsPlayingLine | src/components/Lyrics.tsx:24-27 | in a sorted list, the panel highlights line i iff line i has started and the next has not |
| ProgressBar.Progress | src/components/ProgressBar.tsx:19 | no number iff the duration is zero; within [0, 100] while the playhead is inside the track; 100 at the end |
| ProgressBar.ProgressMonotone | src/components/ProgressBar.tsx:19 | the bar never shrinks as the playhead moves forward |
| ProgressBar.FloorDiv | src/components/ProgressBar.tsx:22 | the floor of a quotient by a whole number is the quotient of the floor |
| ProgressBar.MinutesAndSeconds | src/components/ProgressBar.tsx:22-23 | for a non-negative time: minutes = whole seconds / 60 and seconds = whole seconds mod 60, so minutes * 60 + seconds = whole seconds |
| ProgressBar.TwoDigitField | src/components/ProgressBar.tsx:24 | seconds below 60 are written as exactly two digits |
| ProgressBar.FormatTimeShape | src/components/ProgressBar.tsx:21-25 | for a non-negative time the label is the minutes, ":" and exactly two digits of the seconds within the minute |
| ProgressBar.FormatTimeWholeSeconds | src/components/ProgressBar.tsx:21-25 | the label depends only on the whole seconds |
| ProgressBar.ExampleFormat | src/components/ProgressBar.tsx:21-25 | 125.7 s reads "2:05" |
| AlbumColors.HexBody | src/hooks/useAlbumColors.ts:12 | a match is six hex digits of either case, with or without one '#' in front |
| AlbumColors.HexBodyNoMatch | src/hooks/useAlbumColors.ts:12-13 | a string that is not six hex digits, with or without '#', does not match |
| AlbumColors.HexToRgb | src/hooks/useAlbumColors.ts:11-19 | every channel is a whole number in 0..255; anything not matching is black |
| AlbumColors.RgbToHexDigits | src/hooks/useAlbumColors.ts:21-26 | a colour with channels in 0..255 is '#' and two lower-case hex digits per rounded channel |
| AlbumColors.RgbToHexShape | src/hooks/useAlbumColors.ts:21-26 | a colour with channels in 0..255 is written as '#' and six lower-case hex digits |
| AlbumColors.HexRoundTrip | src/hooks/useAlbumColors.ts:11-26 | reading back the hex of a whole-byte colour gives the colour |
| AlbumColors.RgbRoundTrip | src/hooks/useAlbumColors.ts:11-26 | writing back a well-formed hex colour gives '#' and its digits in lower case |
| AlbumColors.BlendBetween | src/hooks/useAlbumColors.ts:30-32 | a blended channel starts at the first value, ends at the second and stays between them |
| AlbumColors.InterpolateBetween | src/hooks/useAlbumColors.ts:28-34 | `interpolateColor` gives the first colour at 0, the second at 1 and stays between them on every channel |
| AlbumColors.InterpolatePalette | src/hooks/useAlbumColors.ts:115-117 | one frame blends every current colour towards the target at the same position |
| AlbumColors.FinalFrameIsTarget | src/hooks/useAlbumColors.ts:115-124 | the frame at progress 1 is the target palette |
| AlbumColors.FrameStaysInRange | src/hooks/useAlbumColors.ts:115-144 | every frame between byte palettes keeps its channels in 0..255 and is written as seven characters |
| AlbumColors.Pick | src/hooks/useAlbumColors.ts:43 | the drawn index for position i is in 0..i |
| AlbumColors.DurstenfeldPermutes | src/hooks/useAlbumColors.ts:40-48 | the shuffle keeps every colour as often as before, for any draws |
| AlbumColors.SettledOncePassed | src/hooks/useAlbumColors.ts:41-47 | a position is not touched again once the loop has passed it |
| AlbumColors.ShuffleArray | src/hooks/useAlbumColors.ts:40-48 | the in-place loop leaves the array as the functional shuffle of its old contents, a permutation of them |
| AlbumColors.NewTarget | src/hooks/useAlbumColors.ts:84-93 | the new target is the shuffled parse of the palette, a permutation of it, every colour whole bytes |
| AlbumColors.Colors | src/hooks/useAlbumColors.ts:144 | one hex string per current colour |
| AlbumColors.ColorsReadBack | src/hooks/useAlbumColors.ts:144 | a palette of whole-byte colours reads back unchanged from its hex strings |
| Breathe.Breathe.constructor | src/hooks/useBreathe.ts:16-17 | starts at the initial value, breathing in |
| Breathe.Breathe.Step | src/hooks/useBreathe.ts:21-40 | one tick moves the state as the tick function says, and keeps the value between grid-aligned bounds and on the grid |
| Breathe.RoundedOnGrid | src/hooks/useBreathe.ts:39 | rounding to two decimals lands on a whole number of hundredths |
| Breathe.GridValueKept | src/hooks/useBreathe.ts:39 | rounding leaves a value on the grid unchanged |
| Breathe.TickStaysInRange | src/hooks/useBreathe.ts:21-39 | from a value between grid-aligned bounds, a tick stays between them |
| Breathe.TickLandsOnGrid | src/hooks/useBreathe.ts:25-39 | with bounds on the grid, every tick lands on the grid |
| Breathe.TurnsOnlyAtBound | src/hooks/useBreathe.ts:25-36 | the direction turns to out iff breathing in reaches the maximum, to in iff breathing out reaches the minimum, and the value is then that bound |
| Breathe.TickFollowsDirection | src/hooks/useBreathe.ts:25-36 | from a value on the grid, a tick never moves against its direction |
| Breathe.TickStepBounded | src/hooks/useBreathe.ts:22-39 | a tick moves the value by at most a twentieth of the draw plus 0.005, so by less than 0.055 |
| Breathe.RunStaysInRange | src/hooks/useBreathe.ts:20-41 | over any run of ticks the value never leaves grid-aligned bounds |
| Config.OrElse | src/hooks/useConfig.ts:18-19 | an absent or empty build-time value falls back, any other is kept |
| Config.DefaultConfig | src/hooks/useConfig.ts:17-22 | the default has a non-empty URL, mode "lyrics" and no full screen |
| Config.InitialConfig | src/hooks/useConfig.ts:13-23 | the stored record when there is one, the default otherwise |
| Config.DefaultIsConfigured | src/hooks/useConfig.ts:18-25 | with nothing stored the player starts out configured |
| Config.StripTrailingSlash | src/hooks/useConfig.ts:46 | the result is the URL or the URL without its last character, and shorter iff the URL ends in '/' |
| Config.StripUndoesSlash | src/hooks/useConfig.ts:46 | stripping undoes appending one '/' |
| Config.StripKeepsOtherUrls | src/hooks/useConfig.ts:46 | a URL not ending in '/' is kept |
| Config.StripOnlyOneSlash | src/hooks/useConfig.ts:46 | only one slash goes: "a//" becomes "a/" |
| Config.UpdateConfig | src/hooks/useConfig.ts:42-50 | URL stripped, key and full-screen flag replaced, mode kept |
| Config.UpdateMode | src/hooks/useConfig.ts:52-57 | only the mode changes |
| Config.UpdatesCommute | src/hooks/useConfig.ts:42-57 | the two updates touch different fields, so their order does not matter |
| Config.LastUpdateWins | src/hooks/useConfig.ts:42-50 | a later `updateConfig` overrides an earlier one completely |

## Findings

| source | as written | input that shows it | evidently intended | confidence | as-written member | corrected member |
|---|---|---|---|---|---|---|
| src/components/lyrics/BasicLyrics.tsx:47 | the lead-in test compares the playhead in seconds with the first line's time in milliseconds, so it holds for most of the song | lines at 10000 ms and 20000 ms, `linesEnd` 30000, lyrics opened or loaded with the playhead at 25 s: the second line is active and 55% through, no row asks for the anchor, and the lead-in element takes it | the lead-in anchor only while playback is before the first line (`currentTime * 1000 < lines[0].time`) | not executed | BasicLyrics.LeadInAsWrittenScrollsToTop | BasicLyrics.LeadInBeforeEveryLine |

## Left out

- The playback clock (`useSmoothTimer`) is not part of this model. The playhead `currentTime` is a parameter.
- Network, JSON and `Promise.allSettled` are left out. Each provider's settled outcome is an `Option` of a document, and the LRCLib answer is a record of the fields read.
- React state, effects, refs, `scrollIntoView` and the scroll timeouts are left out. The views are functions of their inputs, and `BasicLyrics.ScrollTarget` models only which element ends up holding the scroll ref in a freshly mounted view (lyrics opened or loaded at that playhead).
- BasicLyrics.ScrollTarget: on a re-render React attaches a ref callback only to an element whose `ref` prop changed, and first nulls the shared ref when an element stops asking for it; so after updates (for example lines at 10000 ms and 10600 ms, playhead moving from 9.6 s to 9.8 s) the ref can end up null, or keep the lead-in element that attached once near 5 ms. The update-time holder is not modelled.
- BasicLyrics.ActiveFirstHalfIsAnchor: holds for a freshly mounted view only, for the reason given for `BasicLyrics.ScrollTarget`.
- `getLyricStyles` and `mapRange` (colour mixing of active words) are not modelled. `mapRange` is not part of this model.
- The colour extraction (image loading, ColorThief) is not modelled. Line 82 of the colours hook carries a stray `i` expression statement, which would throw a ReferenceError before the palette is read. The model starts from the extracted palette.
- The `requestAnimationFrame` loop and `easeInOut` are not modelled: they need floating `Math.pow` and frame timing. A frame is modelled at any progress in [0, 1].
- localStorage, JSON parsing of the stored settings and the `/health` probe are left out. The stored record is an `Option<Config>`, and `isConfigured` is modelled only before the probe answers.
- Binary floating point is left out. Numbers are exact reals, and `toFixed` is exact rounding to the nearest multiple of 10^-d.
- `Math.random()` is a parameter in [0, 1): the `draws` of the shuffle and the `change` of a breathing tick.
- The timer (`setInterval`) is not modelled. `Breathe.Run` applies ticks one after another. A tick that reads a direction the effect has not yet re-subscribed to is not modelled.
- String lengths in the program count UTF-16 code units, while the model counts characters. This matters only for characters outside the Basic Multilingual Plane in segment texts.
- The copyright block, the full-page layout and the CSS classes are presentation only.
- LegacyLyrics.CurrentIndex: the model takes the list of timed lines the older view evidently expects. With `useLyrics` as shown (its state is `JLF | null`, src/hooks/useLyrics.ts:114 and :170), `lyrics.findIndex` at src/components/Lyrics.tsx:24 is called on an object or on null, so that view throws a TypeError on every render, before its loading check. The throw is not modelled.
- LegacyLyrics.LegacyPanel: takes the same list of timed lines as `LegacyLyrics.CurrentIndex`, so it does not model the throw described there.
- LegacyLyrics.LegacyPanel: the view is modelled only down to which message or list it shows, not the scroll position.
- BasicLyrics.Render: requires a document with `lines`; the dispatcher only passes those, and the component would throw on one without. `BasicLyrics.RenderCorrected` has the same requirement.
- RichLyrics.Render: requires every section to have a line; the component reads each section's first and last line and would throw on an empty one.
- RichLyrics.SectionPosition: requires the section to have a line, for the same reason.
- AlbumColors.InterpolatePalette: requires the target to be at least as long as the current palette; the program would read missing target colours as `undefined` and produce NaN channels.
- Breathe.TickStaysInRange: proves the bounds only for bounds on the 0.01 grid; for other bounds two-decimal rounding can step just past them.
- UseLyrics.TagTime: the time is exact milliseconds; the binary-float error of `(minutes * 60 + seconds) * 1000` is not modelled.
- ProgressBar.Progress: a zero duration gives `None`; NaN and the infinities are not modelled as numbers.
