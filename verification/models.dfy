/** The value types that flow through the pipeline. */
module Models {
  import opened Wrappers

  /** What was read from the lines above the digit grid. */
  datatype MessageHeader = MessageHeader(
    groupCount: Option<string>,  // declared group count, as printed
    timestamp: Option<string>,   // a date or a time found in the header
    rawLines: seq<string>)       // the header lines, in input order

  /** The header of a message with nothing found yet. */
  function EmptyHeader(): MessageHeader {
    MessageHeader(None, None, [])
  }

  /** One group of the grid with its coordinates. */
  datatype MessageGroup = MessageGroup(
    segment: int,     // 1-based segment number
    line: int,        // 1-based line within the segment
    position: int,    // 1-based position within the line
    value: string,    // the group's digits (or a padded partial group)
    globalIndex: int) // 0-based row-major index: the key used to align two grids

  /** A whole parsed message. */
  datatype MessageContent = MessageContent(
    header: MessageHeader,
    groups: seq<MessageGroup>,
    rawText: string)

  /** The kind of a discrepancy; `Other` stands for any kind name other than the three below. */
  datatype ErrorKind = Mismatch | Missing | Extra | Other(name: string)

  /** One discrepancy between a submitted grid and the reference grid. */
  datatype ErrorDetail = ErrorDetail(
    segment: int,
    line: int,
    position: int,
    globalIndex: int,
    submittedValue: string,
    correctValue: string,
    kind: ErrorKind)
}
