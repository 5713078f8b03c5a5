/**
 * The reference-file parser: the first lines up to a dense data line form the header, and
 * every full chunk of four digits in the rest is placed on the grid by its running index alone.
 */
module MessageParserV2 {
  import opened Wrappers
  import opened Text
  import opened Models
  import Config
  import MessageParser

  /** A line with at least this many digits is a data line. */
  const DenseLineDigits: nat := 30

  // ---------------------------------------------------------------------------
  // Values and coordinates
  // ---------------------------------------------------------------------------

  /** The digits cut into full chunks of the group width; a trailing partial chunk is dropped. */
  function FullChunks(d: string): (r: seq<string>)
    ensures forall k :: 0 <= k < |r| ==> |r[k]| == Config.DigitsPerGroup
    ensures AllDigits(d) ==> forall k :: 0 <= k < |r| ==> AllDigits(r[k])
    decreases |d|
  {
    if |d| >= Config.DigitsPerGroup then [d[..Config.DigitsPerGroup]] + FullChunks(d[Config.DigitsPerGroup..])
    else []
  }

  /**
   * Chunk `c` is the slice of the digits starting at `c * DigitsPerGroup`, and there are as many
   * chunks as the digits fill completely: floor(|d| / DigitsPerGroup).
   */
  lemma {:induction false} FullChunksAt(d: string)
    ensures |FullChunks(d)| == |d| / Config.DigitsPerGroup
    ensures forall c :: 0 <= c < |FullChunks(d)| ==>
      FullChunks(d)[c] == d[c * Config.DigitsPerGroup..c * Config.DigitsPerGroup + Config.DigitsPerGroup]
    decreases |d|
  {
    var w := Config.DigitsPerGroup;
    if |d| >= w {
      var rest := d[w..];
      FullChunksAt(rest);
      forall c | 0 < c < |FullChunks(d)|
        ensures FullChunks(d)[c] == d[c * w..c * w + w]
      {
        assert FullChunks(d)[c] == FullChunks(rest)[c - 1];
        assert rest[(c - 1) * w..(c - 1) * w + w] == d[c * w..c * w + w];
      }
    }
  }

  /** The chunks glued together give back the digits except a tail shorter than one chunk. */
  lemma {:induction false} FullChunksCover(d: string)
    ensures |MessageParser.Concat(FullChunks(d))| <= |d| < |MessageParser.Concat(FullChunks(d))| + Config.DigitsPerGroup
    ensures MessageParser.Concat(FullChunks(d)) == d[..|MessageParser.Concat(FullChunks(d))|]
    decreases |d|
  {
    var w := Config.DigitsPerGroup;
    if |d| >= w {
      var rest := d[w..];
      FullChunksCover(rest);
      var gs := FullChunks(d);
      assert gs == [d[..w]] + FullChunks(rest);
      assert gs[1..] == FullChunks(rest);
      assert MessageParser.Concat(gs) == d[..w] + MessageParser.Concat(FullChunks(rest));
      assert d == d[..w] + rest;
    }
  }

  /** The coordinates of the group with running index `gi`, derived from the index alone. */
  function Place(gi: nat, value: string): (g: MessageGroup)
    ensures g.globalIndex == gi && g.value == value
    ensures 1 <= g.position <= Config.GroupsPerLine && 1 <= g.line <= Config.LinesPerSegment && g.segment >= 1
  {
    MessageGroup(
      gi / (Config.GroupsPerLine * Config.LinesPerSegment) + 1,
      (gi / Config.GroupsPerLine) % Config.LinesPerSegment + 1,
      gi % Config.GroupsPerLine + 1,
      value,
      gi)
  }

  /**
   * The coordinates are a bijection with the running index: reading them back row-major gives
   * the index, and two groups with the same coordinates have the same index.
   */
  lemma PlaceCoordinates(gi: nat, value: string)
    ensures var g := Place(gi, value);
      ((g.segment - 1) * Config.LinesPerSegment + (g.line - 1)) * Config.GroupsPerLine + (g.position - 1) == gi
  {
    var q := gi / Config.GroupsPerLine;
    assert gi == q * Config.GroupsPerLine + gi % Config.GroupsPerLine;
    assert q == (q / Config.LinesPerSegment) * Config.LinesPerSegment + q % Config.LinesPerSegment;
    assert gi / (Config.GroupsPerLine * Config.LinesPerSegment) == q / Config.LinesPerSegment;
  }

  /** Distinct running indices land on distinct coordinates. */
  lemma PlaceInjective(i: nat, j: nat, u: string, v: string)
    requires i != j
    ensures var a, b := Place(i, u), Place(j, v);
      (a.segment, a.line, a.position) != (b.segment, b.line, b.position)
  {
    PlaceCoordinates(i, u);
    PlaceCoordinates(j, v);
  }

  /** The values placed in order: value `k` gets running index `k`. */
  function Placed(vals: seq<string>): (r: seq<MessageGroup>)
    ensures |r| == |vals|
  {
    seq(|vals|, k requires 0 <= k < |vals| => Place(k, vals[k]))
  }

  /**
   * The (segment, line, position) of the group placed after `n` others, stepping as the counters
   * do: the position cycles through 1..GroupsPerLine, the line advances when a line is full and
   * wraps into the next segment after the last line.
   */
  function Coordinates(n: nat): (c: (int, int, int))
  {
    if n == 0 then (1, 1, 1)
    else
      var (segment, line, position) := Coordinates(n - 1);
      if position < Config.GroupsPerLine then (segment, line, position + 1)
      else if line < Config.LinesPerSegment then (segment, line + 1, 1)
      else (segment + 1, 1, 1)
  }

  /** The stepped coordinates agree with the closed form used by `Place`. */
  lemma {:induction false} CoordinatesClosedForm(n: nat)
    ensures Coordinates(n) ==
      (n / (Config.GroupsPerLine * Config.LinesPerSegment) + 1,
       (n / Config.GroupsPerLine) % Config.LinesPerSegment + 1,
       n % Config.GroupsPerLine + 1)
  {
    if n > 0 {
      var m := n - 1;
      CoordinatesClosedForm(m);
      var g, l := Config.GroupsPerLine, Config.LinesPerSegment;
      assert n / g == m / g + (if m % g == g - 1 then 1 else 0);
      assert n % g == (if m % g == g - 1 then 0 else m % g + 1);
      assert m / (g * l) == (m / g) / l;
      assert n / (g * l) == (n / g) / l;
    }
  }

  /** The counters kept alongside the running index `n`. */
  predicate CountersAt(n: nat, segment: int, lineInSegment: int) {
    Coordinates(n).0 == segment && Coordinates(n).1 == lineInSegment
  }

  // ---------------------------------------------------------------------------
  // Header
  // ---------------------------------------------------------------------------

  /** The first index from `i` on, within the scanned lines, of a line with at least 30 digits. */
  function DenseFrom(lines: seq<string>, i: nat): (r: nat)
    requires i <= MessageParser.ScanEnd(lines)
    ensures i <= r <= MessageParser.ScanEnd(lines)
    ensures r < MessageParser.ScanEnd(lines) ==> |Digits(lines[r])| >= DenseLineDigits
    decreases MessageParser.ScanEnd(lines) - i
  {
    if i == MessageParser.ScanEnd(lines) then i
    else if |Digits(lines[i])| >= DenseLineDigits then i
    else DenseFrom(lines, i + 1)
  }

  /** The scanned lines before the first dense line are not dense. */
  lemma {:induction false} DenseFromFirst(lines: seq<string>, i: nat, j: nat)
    requires i <= MessageParser.ScanEnd(lines) && i <= j < DenseFrom(lines, i)
    ensures |Digits(lines[j])| < DenseLineDigits
    decreases j - i
  {
    if i < j {
      DenseFromFirst(lines, i + 1, j);
    }
  }

  /** The first dense line among the first five, or the scan end when there is none. */
  function FirstDense(lines: seq<string>): (r: nat)
    ensures r <= MessageParser.ScanEnd(lines)
  {
    DenseFrom(lines, 0)
  }

  /** Where the body starts: at the first dense line, or at line 0 when there is none. */
  function BodyStart(lines: seq<string>): (r: nat)
    ensures r <= |lines|
  {
    if FirstDense(lines) < MessageParser.ScanEnd(lines) then FirstDense(lines) else 0
  }

  /** The lines of the file: the text with its outer whitespace stripped, split at newlines. */
  function TxtLines(rawText: string): (r: seq<string>)
    ensures |r| >= 1
  {
    Split(Strip(rawText), '\n')
  }

  /** The lines joined back at newlines give the stripped text. */
  lemma TxtLinesRejoin(rawText: string)
    ensures Join(TxtLines(rawText), "\n") == Strip(rawText)
  {
    JoinSplit(Strip(rawText), '\n');
  }

  /**
   * Scans the first five lines: a line with at least 30 digits ends the header and the body
   * starts there; every line before it is a header line and may set the declared group count.
   */
  method ParseTxtHeader(lines: seq<string>) returns (header: MessageHeader, bodyStart: nat)
    ensures header.rawLines == lines[..FirstDense(lines)]
    ensures header.groupCount == MessageParser.LastMatch(header.rawLines, MessageParser.DeclaredGroupCount)
    ensures header.timestamp == None
    ensures bodyStart == BodyStart(lines)
  {
    header := EmptyHeader();
    bodyStart := 0;
    var i := 0;
    while i < |lines| && i < MessageParser.HeaderScanLines
      invariant 0 <= i <= MessageParser.ScanEnd(lines)
      invariant FirstDense(lines) == DenseFrom(lines, i)
      invariant bodyStart == 0
      invariant header.rawLines == lines[..i]
      invariant header.groupCount == MessageParser.LastMatch(header.rawLines, MessageParser.DeclaredGroupCount)
      invariant header.timestamp == None
    {
      var digitsInLine := Digits(lines[i]);
      if |digitsInLine| >= DenseLineDigits {
        bodyStart := i;
        break;
      }
      var line := lines[i];
      assert (lines[..i] + [line])[..i] == lines[..i];
      assert lines[..i + 1] == lines[..i] + [line];
      header := header.(rawLines := header.rawLines + [line]);
      if Contains(line, "组") {
        var found := MessageParser.SearchGroupCount(line, 0);
        if found.Some? {
          header := header.(groupCount := found);
        }
      }
      i := i + 1;
    }
  }

  // ---------------------------------------------------------------------------
  // Body
  // ---------------------------------------------------------------------------

  /** The values a body line yields: none when it is blank, otherwise the full chunks of its digits. */
  function LineValues(line: string): (r: seq<string>)
    ensures forall k :: 0 <= k < |r| ==> |r[k]| == Config.DigitsPerGroup && AllDigits(r[k])
  {
    var stripped := Strip(line);
    if stripped == [] then [] else FullChunks(Digits(stripped))
  }

  /** The values of the first `n` lines, line after line. */
  function TxtValues(lines: seq<string>, n: nat): (r: seq<string>)
    requires n <= |lines|
    ensures forall k :: 0 <= k < |r| ==> |r[k]| == Config.DigitsPerGroup && AllDigits(r[k])
  {
    if n == 0 then [] else TxtValues(lines, n - 1) + LineValues(lines[n - 1])
  }

  /** The values of the lines from `start` on. */
  function BodyValues(lines: seq<string>, start: nat): (r: seq<string>)
    requires start <= |lines|
    ensures forall k :: 0 <= k < |r| ==> |r[k]| == Config.DigitsPerGroup && AllDigits(r[k])
  {
    TxtValues(lines[start..], |lines| - start)
  }

  /** Placing one more value appends its group. */
  lemma PlacedAppend(vals: seq<string>, v: string)
    ensures Placed(vals + [v]) == Placed(vals) + [Place(|vals|, v)]
  {
  }

  /** The chunks from offset `i` on: the chunk at `i` when four digits remain, then the rest. */
  lemma FullChunksStep(digits: string, i: nat)
    requires i <= |digits|
    ensures i + Config.DigitsPerGroup <= |digits| ==>
      FullChunks(digits[i..]) == [digits[i..i + Config.DigitsPerGroup]] + FullChunks(digits[i + Config.DigitsPerGroup..])
    ensures i + Config.DigitsPerGroup > |digits| ==> FullChunks(digits[i..]) == []
  {
    if i + Config.DigitsPerGroup <= |digits| {
      assert digits[i..][..Config.DigitsPerGroup] == digits[i..i + Config.DigitsPerGroup];
      assert digits[i..][Config.DigitsPerGroup..] == digits[i + Config.DigitsPerGroup..];
    }
  }

  /** Places one value at the next running index and advances the counters. */
  method PlaceNext(value: string, groups: seq<MessageGroup>, globalIdx: nat, segment: int,
                   lineInSegment: int, ghost prev: seq<string>)
    returns (groups': seq<MessageGroup>, globalIdx': nat, segment': int, lineInSegment': int)
    requires groups == Placed(prev) && globalIdx == |prev| && CountersAt(globalIdx, segment, lineInSegment)
    ensures groups' == Placed(prev + [value])
    ensures globalIdx' == globalIdx + 1 && CountersAt(globalIdx', segment', lineInSegment')
  {
    var position := (globalIdx % Config.GroupsPerLine) + 1;
    CoordinatesClosedForm(globalIdx);
    PlacedAppend(prev, value);
    groups' := groups + [MessageGroup(segment, lineInSegment, position, value, globalIdx)];
    globalIdx' := globalIdx + 1;
    segment', lineInSegment' := segment, lineInSegment;
    if position == Config.GroupsPerLine {
      lineInSegment' := lineInSegment' + 1;
      if lineInSegment' > Config.LinesPerSegment {
        lineInSegment' := 1;
        segment' := segment' + 1;
      }
    }
  }

  /**
   * Places every full chunk of `digits`, continuing the running index and the counters. A chunk
   * position whose four digits run past the end is skipped.
   */
  method AppendChunks(digits: string, groups: seq<MessageGroup>, globalIdx: nat, segment: int,
                      lineInSegment: int, ghost prev: seq<string>)
    returns (groups': seq<MessageGroup>, globalIdx': nat, segment': int, lineInSegment': int)
    requires groups == Placed(prev) && globalIdx == |prev| && CountersAt(globalIdx, segment, lineInSegment)
    ensures groups' == Placed(prev + FullChunks(digits))
    ensures globalIdx' == |groups'| && CountersAt(globalIdx', segment', lineInSegment')
  {
    var w := Config.DigitsPerGroup;
    groups', globalIdx', segment', lineInSegment' := groups, globalIdx, segment, lineInSegment;
    ghost var all := prev;
    ghost var rest := FullChunks(digits);
    var i := 0;
    while i < |digits|
      invariant i <= |digits| ==> rest == FullChunks(digits[i..])
      invariant i > |digits| ==> rest == []
      invariant all + rest == prev + FullChunks(digits)
      invariant groups' == Placed(all) && globalIdx' == |all|
      invariant CountersAt(globalIdx', segment', lineInSegment')
    {
      if i + w <= |digits| {
        var value := digits[i..i + w];
        FullChunksStep(digits, i);
        groups', globalIdx', segment', lineInSegment' :=
          PlaceNext(value, groups', globalIdx', segment', lineInSegment', all);
        assert all + rest == (all + [value]) + rest[1..];
        all := all + [value];
        rest := rest[1..];
      } else {
        FullChunksStep(digits, i);
      }
      i := i + w;
    }
    if i == |digits| {
      FullChunksStep(digits, i);
    }
    assert all + rest == all;
  }

  /** Parses one body line: a blank line is skipped, any other places the full chunks of its digits. */
  method ParseTxtLine(text: string, groups: seq<MessageGroup>, globalIdx: nat, segment: int,
                      lineInSegment: int, ghost prev: seq<string>)
    returns (groups': seq<MessageGroup>, globalIdx': nat, segment': int, lineInSegment': int)
    requires groups == Placed(prev) && globalIdx == |prev| && CountersAt(globalIdx, segment, lineInSegment)
    ensures groups' == Placed(prev + LineValues(text))
    ensures globalIdx' == |groups'| && CountersAt(globalIdx', segment', lineInSegment')
  {
    groups', globalIdx', segment', lineInSegment' := groups, globalIdx, segment, lineInSegment;
    var line := Strip(text);
    if line == [] {
      assert prev + LineValues(text) == prev;
      return;
    }
    var allDigits := Digits(line);
    groups', globalIdx', segment', lineInSegment' :=
      AppendChunks(allDigits, groups, globalIdx, segment, lineInSegment, prev);
  }

  /** Parses every line from `bodyStart` on; blank lines are skipped. */
  method ParseTxtBody(lines: seq<string>, bodyStart: nat) returns (groups: seq<MessageGroup>)
    requires bodyStart <= |lines|
    ensures groups == Placed(BodyValues(lines, bodyStart))
  {
    var body := lines[bodyStart..];
    groups := [];
    var globalIdx := 0;
    var segment := 1;
    var lineInSegment := 1;
    var n := 0;
    while n < |body|
      invariant 0 <= n <= |body|
      invariant groups == Placed(TxtValues(body, n)) && globalIdx == |groups|
      invariant CountersAt(globalIdx, segment, lineInSegment)
    {
      groups, globalIdx, segment, lineInSegment :=
        ParseTxtLine(body[n], groups, globalIdx, segment, lineInSegment, TxtValues(body, n));
      n := n + 1;
    }
  }

  /** Parses the text of a reference file into a header and a grid placed by running index. */
  method ParseTxtFile(rawText: string) returns (content: MessageContent)
    ensures content.rawText == rawText
    ensures var lines := TxtLines(rawText);
      && content.header.rawLines == lines[..FirstDense(lines)]
      && content.header.groupCount == MessageParser.LastMatch(content.header.rawLines, MessageParser.DeclaredGroupCount)
      && content.header.timestamp == None
      && content.groups == Placed(BodyValues(lines, BodyStart(lines)))
  {
    var lines := TxtLines(rawText);
    var header, bodyStart := ParseTxtHeader(lines);
    var groups := ParseTxtBody(lines, bodyStart);
    content := MessageContent(header, groups, rawText);
  }

  // ---------------------------------------------------------------------------
  // Properties
  // ---------------------------------------------------------------------------

  /**
   * The placed grid has running indices 0..n-1 in order, positions cycling through 1..10, and a
   * line and segment that advance only at the end of a line; every value has four digits.
   */
  lemma PlacedShape(vals: seq<string>)
    requires forall k :: 0 <= k < |vals| ==> |vals[k]| == Config.DigitsPerGroup && AllDigits(vals[k])
    ensures forall k :: 0 <= k < |Placed(vals)| ==>
      var g := Placed(vals)[k];
      && g.globalIndex == k && |g.value| == Config.DigitsPerGroup && AllDigits(g.value)
      && g.position == k % Config.GroupsPerLine + 1
      && g.line == (k / Config.GroupsPerLine) % Config.LinesPerSegment + 1
      && g.segment == k / (Config.GroupsPerLine * Config.LinesPerSegment) + 1
  {
  }

  /**
   * With no dense line among the first five, the body starts at line 0, so the header lines
   * are parsed again as body lines.
   */
  lemma NoDenseLineRereadsHeader(lines: seq<string>)
    requires forall i :: 0 <= i < MessageParser.ScanEnd(lines) ==> |Digits(lines[i])| < DenseLineDigits
    ensures BodyStart(lines) == 0
    ensures FirstDense(lines) == MessageParser.ScanEnd(lines)
  {
    NoDenseFrom(lines, 0);
  }

  /** Without a dense line from `i` on, the dense-line search runs to the scan end. */
  lemma {:induction false} NoDenseFrom(lines: seq<string>, i: nat)
    requires i <= MessageParser.ScanEnd(lines)
    requires forall j :: i <= j < MessageParser.ScanEnd(lines) ==> |Digits(lines[j])| < DenseLineDigits
    ensures DenseFrom(lines, i) == MessageParser.ScanEnd(lines)
    decreases MessageParser.ScanEnd(lines) - i
  {
    if i < MessageParser.ScanEnd(lines) {
      NoDenseFrom(lines, i + 1);
    }
  }

  /** The header ends at the first dense line; every header line before it has fewer than 30 digits. */
  lemma TxtHeaderLinesSparse(lines: seq<string>, j: nat)
    requires j < FirstDense(lines)
    ensures |Digits(lines[j])| < DenseLineDigits
  {
    DenseFromFirst(lines, 0, j);
  }

  /** When every row holds exactly GroupsPerLine values, the values come row after row. */
  lemma {:induction false} FlattenUniform(rows: seq<seq<string>>)
    requires forall j :: 0 <= j < |rows| ==> |rows[j]| == Config.GroupsPerLine
    ensures |MessageParser.Flatten(rows)| == |rows| * Config.GroupsPerLine
    ensures forall j, p :: 0 <= j < |rows| && 0 <= p < Config.GroupsPerLine ==>
      MessageParser.Flatten(rows)[j * Config.GroupsPerLine + p] == rows[j][p]
  {
    if rows != [] {
      var n := |rows| - 1;
      FlattenUniform(rows[..n]);
      assert MessageParser.Flatten(rows) == MessageParser.Flatten(rows[..n]) + rows[n];
    }
  }

  /**
   * The two body parsers agree on full lines: when every data row holds exactly GroupsPerLine
   * values, the row-counting parser places each value where the running-index parser would.
   */
  lemma ParsersAgreeOnFullRows(rows: seq<seq<string>>, k: nat)
    requires forall j :: 0 <= j < |rows| ==> |rows[j]| == Config.GroupsPerLine
    requires k < |MessageParser.EmitRows(rows)|
    ensures MessageParser.EmitRows(rows)[k] == Place(k, MessageParser.Flatten(rows)[k])
  {
    var g := Config.GroupsPerLine;
    FlattenUniform(rows);
    var j, p := k / g, k % g;
    assert k == j * g + p;
    assert j < |rows|;
    FlattenUniform(rows[..j]);
    assert |MessageParser.Flatten(rows[..j])| == j * g;
    MessageParser.EmitRowsAt(rows, j, p);
    assert k / (g * Config.LinesPerSegment) == j / Config.LinesPerSegment;
  }
}
