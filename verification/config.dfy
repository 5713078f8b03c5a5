/** Shape and scoring constants of the message format. */
module Config {

  /** Digits in one group. */
  const DigitsPerGroup: nat := 4
  /** Groups on one line of the grid. */
  const GroupsPerLine: nat := 10
  /** Lines in one segment of the grid. */
  const LinesPerSegment: nat := 10
  /** Segments in a usual message. */
  const SegmentsCount: nat := 3
  /** Groups in a usual message (300). */
  const TotalGroups: nat := GroupsPerLine * LinesPerSegment * SegmentsCount

  /** Full marks. */
  const TotalScore: real := 100.0
  /** Points deducted per error. */
  const DeductPerError: real := 1.0
}
