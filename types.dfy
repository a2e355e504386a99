/**
  The value types the booth console passes around (types.ts). They carry no
  behaviour of their own; the operations on them live in the modules named
  after the files that define those operations.
 */
module Types {

  /** A value that may be absent: TypeScript's `T | null`, `T | undefined` or an optional field. */
  datatype Option<+T> = None | Some(value: T)

  /** The four screens of the console. */
  datatype Tab = Dashboard | Gallery | Remote | Settings

  /** A JavaScript `Date`, carried through unchanged; only its millisecond count is kept. */
  datatype Timestamp = Timestamp(millis: int)

  /** A JavaScript number holding money; the modelled core only copies it. */
  datatype Money = Money(amount: real)

  /** One captured picture; `aiCaption` and `isPrinting` are optional fields that the core never sets. */
  datatype Photo = Photo(
    id: string,
    url: string,
    timestamp: Timestamp,
    aiCaption: Option<string>,
    isPrinting: Option<bool>)

  datatype PrinterStatus = Ready | Printing | Error | Offline

  /** The telemetry snapshot of the kiosk; `paperLevel` is a percentage, 0 to 100. */
  datatype BoothStatus = BoothStatus(
    isOnline: bool,
    paperLevel: int,
    printerStatus: PrinterStatus,
    sessionCount: int,
    revenue: Money)

  /** What the captioning service returns: a caption and a list of hashtags. */
  datatype AiAnalysisResult = AiAnalysisResult(caption: string, tags: seq<string>)
}
