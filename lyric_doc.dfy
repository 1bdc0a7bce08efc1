/**
 * The unified lyric document ("JLF") both providers are normalised into. A document may
 * carry line-level timing (`lines`), word-level timing (`richsync`), both or neither.
 * Line times are milliseconds; rich-sync times are seconds.
 */
module LyricDoc {
  import opened Wrappers

  /** One line of a line-synced document: its start in milliseconds and its text. */
  datatype SyncedLine = SyncedLine(time: real, text: string)

  /** The line list and `linesEnd`, the effective end of the last line. */
  datatype SyncedLines = SyncedLines(lines: seq<SyncedLine>, linesEnd: real)

  /** A singer or group; `kind` is the provider's `type` field ("person", "group", ...). */
  datatype Agent = Agent(id: string, kind: string)

  /** A word or syllable with its own interval, in seconds. */
  datatype Segment = Segment(text: string, timeStart: real, timeEnd: real)

  /** A background-vocal sub-line; its `text` may be absent from the provider's data. */
  datatype BackgroundVocals = BackgroundVocals(
    text: Option<string>, timeStart: real, timeEnd: real, segments: seq<Segment>)

  datatype RichLine = RichLine(
    text: string, timeStart: real, timeEnd: real, agent: string,
    segments: seq<Segment>, bgVox: Option<BackgroundVocals>)

  datatype Section = Section(lines: seq<RichLine>)

  datatype RichSync = RichSync(agents: seq<Agent>, sections: seq<Section>)

  datatype Metadata = Metadata(album: string, artist: string, title: string)

  datatype Jlf = Jlf(
    lines: Option<SyncedLines>, richsync: Option<RichSync>, source: string, metadata: Metadata)
}
