/** The two persisted records (the live session and a completed log entry)
    and the line codec that stands for `encoding/json`. */
module Records {
  import opened Wrappers
  import opened Clock
  import opened Text

  /** The single live session (`core.Session`). `pausedAt` is `ZeroTime`
      unless the session is paused; `targetDuration` 0 means no target. */
  datatype Session = Session(
    tag: string,
    startTime: Time,
    targetDuration: Duration,
    pausedAt: Time,
    isPaused: bool,
    totalPaused: Duration)

  /** One completed (or abandoned) session, one line of a month partition. */
  datatype LogEntry = LogEntry(
    tag: string,
    startTime: Time,
    endTime: Time,
    duration: Duration,
    totalPaused: Duration)

  /** `json.Marshal` of a `LogEntry` and `json.Unmarshal` of one line; a
      line that does not decode gives `None`. */
  datatype Codec = Codec(encode: LogEntry -> string, decode: string -> Option<LogEntry>)

  /** What `encoding/json` guarantees and the model relies on: a marshalled
      entry reads back as itself, it is one non-blank token with no white
      space around it, blank input never decodes, and white space around a
      decodable line does not change what it decodes to. */
  ghost predicate LawfulCodec(c: Codec)
  {
    && (forall e :: c.decode(c.encode(e)) == Some(e))
    && (forall e :: Tight(c.encode(e)))
    && (forall line :: AllSpace(line) ==> c.decode(line) == None)
    && (forall line {:trigger TrimSpace(line)} :: c.decode(line).Some? ==> c.decode(TrimSpace(line)) == c.decode(line))
  }
}
