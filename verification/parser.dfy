/**
 * The line-oriented parser for recognised text: header detection, digit-group
 * extraction and the body parser that skips noise lines with a running counter.
 */
module MessageParser {
  import opened Wrappers
  import opened Text
  import opened Models
  import Config

  /** Words whose presence marks a header line ("group", "time", "date", "message", "number", "section"). */
  const HeaderKeywords: seq<string> := ["组", "时间", "日期", "报文", "号", "第"]
  /** Header detection looks at no more than this many lines. */
  const HeaderScanLines: nat := 5
  /** Lines before this index are header lines whatever they contain. */
  const HeaderByPosition: nat := 3
  /** A line with at least this many groups is a data line, not a header. */
  const DataLineGroups: nat := 5
  /** A body line with fewer groups than this is noise. */
  const NoiseLineGroups: nat := 3

  // ---------------------------------------------------------------------------
  // Digit groups
  // ---------------------------------------------------------------------------

  /** The cleaning step: digits and whitespace stay, every other character becomes a blank. */
  function CleanLine(text: string): (r: string)
    ensures |r| == |text|
    ensures forall i :: 0 <= i < |r| ==> if IsDigit(text[i]) then r[i] == text[i] else IsSpace(r[i])
  {
    if text == [] then []
    else [if IsDigit(text[0]) || IsSpace(text[0]) then text[0] else ' '] + CleanLine(text[1..])
  }

  /** Removing the whitespace of the cleaned line leaves exactly the digits of the line, in order. */
  lemma {:induction false} CleanedLineDigits(text: string)
    ensures RemoveSpaces(CleanLine(text)) == Digits(text)
  {
    if text != [] {
      CleanedLineDigits(text[1..]);
      assert CleanLine(text) == CleanLine(text)[..1] + CleanLine(text[1..]);
    }
  }

  /** A partial group right-padded with `?` to the group width. */
  function PadGroup(g: string): (r: string)
    requires |g| < Config.DigitsPerGroup
    ensures |r| == Config.DigitsPerGroup && r[..|g|] == g
    ensures forall i :: |g| <= i < |r| ==> r[i] == '?'
  {
    g + seq(Config.DigitsPerGroup - |g|, _ => '?')
  }

  /** The digits cut into groups of the group width; a trailing partial group is padded. */
  function DigitGroups(d: string): (r: seq<string>)
    ensures forall k :: 0 <= k < |r| ==> |r[k]| == Config.DigitsPerGroup
    decreases |d|
  {
    if d == [] then []
    else if |d| >= Config.DigitsPerGroup then [d[..Config.DigitsPerGroup]] + DigitGroups(d[Config.DigitsPerGroup..])
    else [PadGroup(d)]
  }

  /** There are as many groups as the digits fill, rounding up: ceil(|d| / DigitsPerGroup). */
  lemma {:induction false} DigitGroupsCount(d: string)
    ensures |DigitGroups(d)| == (|d| + Config.DigitsPerGroup - 1) / Config.DigitsPerGroup
    decreases |d|
  {
    if |d| >= Config.DigitsPerGroup {
      DigitGroupsCount(d[Config.DigitsPerGroup..]);
    }
  }

  /** The groups glued together. */
  function Concat(gs: seq<string>): string {
    if gs == [] then [] else gs[0] + Concat(gs[1..])
  }

  /** Of the groups cut from a run of digits, only the last can hold the padding character. */
  lemma {:induction false} OnlyLastGroupPadded(d: string)
    requires forall i :: 0 <= i < |d| ==> IsDigit(d[i])
    ensures forall k, i :: 0 <= k < |DigitGroups(d)| - 1 && 0 <= i < Config.DigitsPerGroup ==> IsDigit(DigitGroups(d)[k][i])
  {
    if |d| > Config.DigitsPerGroup {
      var rest := d[Config.DigitsPerGroup..];
      OnlyLastGroupPadded(rest);
      assert DigitGroups(d) == [d[..Config.DigitsPerGroup]] + DigitGroups(rest);
    }
  }

  /** Dropping the padding from the glued groups gives back the digits. */
  lemma {:induction false} GroupsRestoreDigits(d: string)
    requires forall i :: 0 <= i < |d| ==> IsDigit(d[i])
    ensures RemoveChar(Concat(DigitGroups(d)), '?') == d
    decreases |d|
  {
    if d == [] {
    } else if |d| >= Config.DigitsPerGroup {
      var head, rest := d[..Config.DigitsPerGroup], d[Config.DigitsPerGroup..];
      GroupsRestoreDigits(rest);
      RemoveCharAbsent(head, '?');
      RemoveCharConcat(head, Concat(DigitGroups(rest)), '?');
      assert d == head + rest;
    } else {
      var p := PadGroup(d);
      RemoveCharAbsent(d, '?');
      RemoveCharConcat(d, p[|d|..], '?');
      RemoveCharAll(p[|d|..], '?');
      assert p == d + p[|d|..];
      assert Concat([p]) == p;
    }
  }

  /** Deleting a character distributes over concatenation. */
  lemma {:induction false} RemoveCharConcat(a: string, b: string, c: char)
    ensures RemoveChar(a + b, c) == RemoveChar(a, c) + RemoveChar(b, c)
  {
    if a != [] {
      RemoveCharConcat(a[1..], b, c);
      assert (a + b)[0] == a[0] && (a + b)[1..] == a[1..] + b;
    } else {
      assert a + b == b;
    }
  }

  /** A string made of `c` alone vanishes when `c` is deleted. */
  lemma {:induction false} RemoveCharAll(s: string, c: char)
    requires forall i :: 0 <= i < |s| ==> s[i] == c
    ensures RemoveChar(s, c) == []
  {
    if s != [] {
      RemoveCharAll(s[1..], c);
    }
  }

  /** The groups of a line: its digits, cut into padded groups of the group width. */
  method ExtractDigitGroups(text: string) returns (groups: seq<string>)
    ensures groups == DigitGroups(Digits(text))
  {
    var cleaned := CleanLine(text);
    var allDigits := RemoveSpaces(cleaned);
    CleanedLineDigits(text);
    groups := [];
    var i := 0;
    while i < |allDigits|
      invariant 0 <= i
      invariant i <= |allDigits| ==> groups + DigitGroups(allDigits[i..]) == DigitGroups(allDigits)
      invariant i > |allDigits| ==> groups == DigitGroups(allDigits)
      decreases |allDigits| - i
    {
      var hi := if i + Config.DigitsPerGroup <= |allDigits| then i + Config.DigitsPerGroup else |allDigits|;
      var group := allDigits[i..hi];
      if |group| == Config.DigitsPerGroup {
        assert allDigits[i..][..Config.DigitsPerGroup] == group;
        assert allDigits[i..][Config.DigitsPerGroup..] == allDigits[hi..];
        groups := groups + [group];
      } else if |group| > 0 {
        assert allDigits[i..] == group;
        groups := groups + [PadGroup(group)];
      }
      i := i + Config.DigitsPerGroup;
    }
  }

  // ---------------------------------------------------------------------------
  // Header
  // ---------------------------------------------------------------------------

  /** The line holds one of the header keywords. */
  predicate HasKeyword(line: string) {
    exists k :: 0 <= k < |HeaderKeywords| && Contains(line, HeaderKeywords[k])
  }

  /** The number of groups the line yields. */
  function GroupCountOf(line: string): nat {
    |DigitGroups(Digits(line))|
  }

  /**
   * The non-blank, stripped line at index `i` is taken as a header line: it is one of the first
   * three lines, or it holds a keyword and is not dense with groups.
   */
  predicate HeaderEligible(line: string, i: nat) {
    KeywordLine(line) || i < HeaderByPosition
  }

  /** The line holds a keyword and is not dense with groups. */
  predicate KeywordLine(line: string) {
    HasKeyword(line) && GroupCountOf(line) < DataLineGroups
  }

  /** How many lines header detection looks at. */
  function ScanEnd(lines: seq<string>): (n: nat)
    ensures n <= |lines| && n <= HeaderScanLines
    ensures n == |lines| || n == HeaderScanLines
  {
    if |lines| < HeaderScanLines then |lines| else HeaderScanLines
  }

  /** The first index from `i` on where a non-blank line is not a header line, or the scan end. */
  function FirstRejectedFrom(lines: seq<string>, i: nat): (r: nat)
    requires i <= ScanEnd(lines)
    ensures i <= r <= ScanEnd(lines)
    ensures r < ScanEnd(lines) ==> !Passed(lines, r)
    decreases ScanEnd(lines) - i
  {
    if i == ScanEnd(lines) then i
    else if !Passed(lines, i) then i
    else FirstRejectedFrom(lines, i + 1)
  }

  /** The header scan passes line `i`: it is blank or a header line. */
  predicate Passed(lines: seq<string>, i: nat)
    requires i < |lines|
  {
    Strip(lines[i]) == [] || HeaderEligible(Strip(lines[i]), i)
  }

  /** Where header scanning stops: lines from here on are never header lines. */
  function HeaderStop(lines: seq<string>): nat {
    FirstRejectedFrom(lines, 0)
  }

  /** The stripped non-blank lines among the first `n` lines, in order. */
  function NonBlankLines(lines: seq<string>, n: nat): (r: seq<string>)
    requires n <= |lines|
    ensures |r| <= n
    ensures forall k :: 0 <= k < |r| ==> r[k] != []
  {
    if n == 0 then []
    else
      var last := Strip(lines[n - 1]);
      NonBlankLines(lines, n - 1) + (if last == [] then [] else [last])
  }

  /** One past the index of the last non-blank line among the first `n`, or 0 when all are blank. */
  function LastNonBlankEnd(lines: seq<string>, n: nat): (r: nat)
    requires n <= |lines|
    ensures r <= n
    ensures r > 0 ==> Strip(lines[r - 1]) != []
  {
    if n == 0 then 0
    else if Strip(lines[n - 1]) != [] then n
    else LastNonBlankEnd(lines, n - 1)
  }

  /** Where the body starts: one past the last header line. */
  function HeaderEnd(lines: seq<string>): (r: nat)
    ensures r <= HeaderStop(lines) && r <= HeaderScanLines && r <= |lines|
  {
    LastNonBlankEnd(lines, HeaderStop(lines))
  }

  /** The header lines: the stripped non-blank lines before the scan stopped. */
  function HeaderLines(lines: seq<string>): (r: seq<string>)
    ensures |r| <= HeaderScanLines
  {
    NonBlankLines(lines, HeaderStop(lines))
  }

  /** The last match `f` finds among `xs`; a later match overwrites an earlier one. */
  function LastMatch(xs: seq<string>, f: string -> Option<string>): Option<string> {
    if xs == [] then None
    else if f(xs[|xs| - 1]).Some? then f(xs[|xs| - 1])
    else LastMatch(xs[..|xs| - 1], f)
  }

  /** A found match comes from some line, and every later line has no match. */
  lemma {:induction false} LastMatchWins(xs: seq<string>, f: string -> Option<string>)
    requires LastMatch(xs, f).Some?
    ensures exists i :: 0 <= i < |xs| && f(xs[i]) == LastMatch(xs, f) &&
                        (forall j :: i < j < |xs| ==> f(xs[j]).None?)
  {
    var n := |xs| - 1;
    if f(xs[n]).None? {
      LastMatchWins(xs[..n], f);
      var i :| 0 <= i < n && f(xs[..n][i]) == LastMatch(xs[..n], f) &&
        forall j :: i < j < n ==> f(xs[..n][j]).None?;
      assert f(xs[i]) == LastMatch(xs, f);
    }
  }

  /** The end of the run of digits starting at `i`. */
  function DigitRunEnd(s: string, i: nat): (r: nat)
    requires i <= |s|
    ensures i <= r <= |s| && (r < |s| ==> !IsDigit(s[r]))
    ensures forall j :: i <= j < r ==> IsDigit(s[j])
    decreases |s| - i
  {
    if i < |s| && IsDigit(s[i]) then DigitRunEnd(s, i + 1) else i
  }

  /** The end of the run of whitespace starting at `i`. */
  function SpaceRunEnd(s: string, i: nat): (r: nat)
    requires i <= |s|
    ensures i <= r <= |s| && (r < |s| ==> !IsSpace(s[r]))
    ensures forall j :: i <= j < r ==> IsSpace(s[j])
    decreases |s| - i
  {
    if i < |s| && IsSpace(s[i]) then SpaceRunEnd(s, i + 1) else i
  }

  /**
   * `s[a..b]` is a non-empty run of digits, followed by whitespace up to index `k`, where 组
   * stands: a match of "digits, optional whitespace, 组" whose digits are `s[a..b]`.
   */
  predicate GroupCountMatch(s: string, a: nat, b: nat, k: nat) {
    && a < b <= k < |s|
    && (forall j :: a <= j < b ==> IsDigit(s[j]))
    && (forall j :: b <= j < k ==> IsSpace(s[j]))
    && s[k] == '组'
  }

  /**
   * The leftmost match of "digits, optional whitespace, 组" at or after `i`, giving the digits.
   * A run of digits either is followed by whitespace and 组 or no suffix of it is, so a failed
   * run is skipped whole.
   */
  function SearchGroupCount(s: string, i: nat): (r: Option<string>)
    requires i <= |s|
    ensures r.Some? ==> r.value != [] && AllDigits(r.value)
    ensures r.Some? ==> exists a: nat, b: nat, k: nat :: i <= a && GroupCountMatch(s, a, b, k) && r.value == s[a..b]
    decreases |s| - i
  {
    if i == |s| then None
    else if IsDigit(s[i]) then
      var j := DigitRunEnd(s, i);
      var k := SpaceRunEnd(s, j);
      if k < |s| && s[k] == '组' then
        assert GroupCountMatch(s, i, j, k);
        Some(s[i..j])
      else SearchGroupCount(s, j)
    else SearchGroupCount(s, i + 1)
  }

  /** A match ends its digits where the run of digits ends, and reaches 组 where the whitespace ends. */
  lemma MatchRuns(s: string, a: nat, b: nat, k: nat)
    requires GroupCountMatch(s, a, b, k)
    ensures DigitRunEnd(s, a) == b && SpaceRunEnd(s, b) == k
  {
    DigitRunReaches(s, a, b);
    SpaceRunReaches(s, b, k);
  }

  /** A run of digits from `i` that stops at the non-digit `s[b]` ends at `b`. */
  lemma {:induction false} DigitRunReaches(s: string, i: nat, b: nat)
    requires i <= b < |s| && !IsDigit(s[b])
    requires forall j :: i <= j < b ==> IsDigit(s[j])
    ensures DigitRunEnd(s, i) == b
    decreases b - i
  {
    if i < b {
      DigitRunReaches(s, i + 1, b);
    }
  }

  /** A run of whitespace from `i` that stops at the non-whitespace `s[k]` ends at `k`. */
  lemma {:induction false} SpaceRunReaches(s: string, i: nat, k: nat)
    requires i <= k < |s| && !IsSpace(s[k])
    requires forall j :: i <= j < k ==> IsSpace(s[j])
    ensures SpaceRunEnd(s, i) == k
    decreases k - i
  {
    if i < k {
      SpaceRunReaches(s, i + 1, k);
    }
  }

  /**
   * The search finds the leftmost match: when a match starts at `a` and none starts between `i`
   * and `a`, the search from `i` yields the digits of the match at `a`.
   */
  lemma {:induction false} SearchGroupCountLeftmost(s: string, i: nat, a: nat, b: nat, k: nat)
    requires i <= a && GroupCountMatch(s, a, b, k)
    requires forall a': nat, b': nat, k': nat :: i <= a' < a ==> !GroupCountMatch(s, a', b', k')
    ensures SearchGroupCount(s, i) == Some(s[a..b])
    decreases |s| - i
  {
    if i == a {
      MatchRuns(s, a, b, k);
    } else if IsDigit(s[i]) {
      var j := DigitRunEnd(s, i);
      var e := SpaceRunEnd(s, j);
      if a < j {
        assert GroupCountMatch(s, i, b, k);
        assert false;
      }
      if e < |s| && s[e] == '组' {
        assert GroupCountMatch(s, i, j, e);
        assert false;
      }
      SearchGroupCountLeftmost(s, j, a, b, k);
    } else {
      SearchGroupCountLeftmost(s, i + 1, a, b, k);
    }
  }

  /** The search finds a match whenever one starts at or after `i`. */
  lemma {:induction false} SearchGroupCountFinds(s: string, i: nat, a: nat, b: nat, k: nat)
    requires i <= a && GroupCountMatch(s, a, b, k)
    ensures SearchGroupCount(s, i).Some?
    decreases |s| - i
  {
    if i == a {
      MatchRuns(s, a, b, k);
    } else if IsDigit(s[i]) {
      var j := DigitRunEnd(s, i);
      if a < j {
        assert GroupCountMatch(s, i, b, k);
        MatchRuns(s, i, b, k);
      } else {
        SearchGroupCountFinds(s, j, a, b, k);
      }
    } else {
      SearchGroupCountFinds(s, i + 1, a, b, k);
    }
  }

  /** The declared group count of a header line, when the line states one. */
  function DeclaredGroupCount(line: string): (r: Option<string>)
    ensures r.Some? ==> r.value != [] && AllDigits(r.value)
    ensures r.Some? ==> exists a: nat, b: nat, k: nat :: GroupCountMatch(line, a, b, k) && r.value == line[a..b]
  {
    if Contains(line, "组") then SearchGroupCount(line, 0) else None
  }

  /**
   * A line declares a group count exactly when it holds a match, and the count is the digits of
   * the leftmost match.
   */
  lemma DeclaredGroupCountLeftmost(line: string, a: nat, b: nat, k: nat)
    requires GroupCountMatch(line, a, b, k)
    requires forall a': nat, b': nat, k': nat :: a' < a ==> !GroupCountMatch(line, a', b', k')
    ensures DeclaredGroupCount(line) == Some(line[a..b])
  {
    ContainsCharAt(line, k);
    SearchGroupCountLeftmost(line, 0, a, b, k);
  }

  /** A line that holds a match always declares a group count. */
  lemma DeclaredGroupCountFinds(line: string, a: nat, b: nat, k: nat)
    requires GroupCountMatch(line, a, b, k)
    ensures DeclaredGroupCount(line).Some?
  {
    ContainsCharAt(line, k);
    SearchGroupCountFinds(line, 0, a, b, k);
  }

  /** One more line seen by the header scan: how the accumulated header values move on. */
  lemma HeaderScanStep(lines: seq<string>, i: nat, f: string -> Option<string>)
    requires i < |lines|
    ensures var line := Strip(lines[i]);
      line != [] ==>
        LastMatch(NonBlankLines(lines, i) + [line], f) ==
        (if f(line).Some? then f(line) else LastMatch(NonBlankLines(lines, i), f))
  {
    var xs := NonBlankLines(lines, i) + [Strip(lines[i])];
    assert xs[..|xs| - 1] == NonBlankLines(lines, i);
  }

  /** Looks for any header keyword in the line, stopping at the first one found. */
  method FindKeyword(line: string) returns (found: bool)
    ensures found == HasKeyword(line)
  {
    found := false;
    var k := 0;
    while k < |HeaderKeywords|
      invariant 0 <= k <= |HeaderKeywords|
      invariant forall j :: 0 <= j < k ==> !Contains(line, HeaderKeywords[j])
    {
      if Contains(line, HeaderKeywords[k]) {
        found := true;
        return;
      }
      k := k + 1;
    }
  }

  /**
   * Looks at line `i` of the header scan. A blank line is passed over; a header line is added to
   * the header lines, moves the header end past it and may overwrite the declared group count
   * and the timestamp; any other line stops the scan (`accepted` is false) and changes nothing.
   */
  method ScanHeaderLine(lines: seq<string>, i: nat, findTimestamp: string -> Option<string>,
                        header: MessageHeader, headerLines: seq<string>, headerEnd: nat)
    returns (accepted: bool, header': MessageHeader, headerLines': seq<string>, headerEnd': nat)
    requires i < |lines|
    requires headerLines == NonBlankLines(lines, i) && headerEnd == LastNonBlankEnd(lines, i)
    requires header.groupCount == LastMatch(headerLines, DeclaredGroupCount)
    requires header.timestamp == LastMatch(headerLines, findTimestamp)
    ensures accepted == Passed(lines, i)
    ensures !accepted ==> header' == header && headerLines' == headerLines && headerEnd' == headerEnd
    ensures accepted ==> headerLines' == NonBlankLines(lines, i + 1) && headerEnd' == LastNonBlankEnd(lines, i + 1)
    ensures accepted ==> header'.groupCount == LastMatch(headerLines', DeclaredGroupCount)
    ensures accepted ==> header'.timestamp == LastMatch(headerLines', findTimestamp)
  {
    header', headerLines', headerEnd' := header, headerLines, headerEnd;
    HeaderScanStep(lines, i, DeclaredGroupCount);
    HeaderScanStep(lines, i, findTimestamp);
    var line := Strip(lines[i]);
    if line == [] {
      return true, header', headerLines', headerEnd';
    }
    var isHeader := FindKeyword(line);
    var digitGroups := ExtractDigitGroups(line);
    if |digitGroups| >= DataLineGroups {
      isHeader := false;
    }
    accepted := isHeader || i < HeaderByPosition;
    if accepted {
      headerLines' := headerLines + [line];
      headerEnd' := i + 1;
      if Contains(line, "组") {
        var found := SearchGroupCount(line, 0);
        if found.Some? {
          header' := header'.(groupCount := found);
        }
      }
      var time := findTimestamp(line);
      if time.Some? {
        header' := header'.(timestamp := time);
      }
    }
  }

  /**
   * Scans at most the first five lines for the header. `findTimestamp` stands for the
   * date/time pattern search. Returns the header and the index where the body starts.
   */
  method ParseHeader(lines: seq<string>, findTimestamp: string -> Option<string>)
    returns (header: MessageHeader, headerEnd: nat)
    ensures header.rawLines == HeaderLines(lines)
    ensures headerEnd == HeaderEnd(lines)
    ensures header.groupCount == LastMatch(header.rawLines, DeclaredGroupCount)
    ensures header.timestamp == LastMatch(header.rawLines, findTimestamp)
  {
    header := EmptyHeader();
    var headerLines: seq<string> := [];
    headerEnd := 0;
    var i := 0;
    while i < |lines| && i < HeaderScanLines
      invariant 0 <= i <= ScanEnd(lines)
      invariant HeaderStop(lines) == FirstRejectedFrom(lines, i)
      invariant headerLines == NonBlankLines(lines, i)
      invariant headerEnd == LastNonBlankEnd(lines, i)
      invariant header.groupCount == LastMatch(headerLines, DeclaredGroupCount)
      invariant header.timestamp == LastMatch(headerLines, findTimestamp)
    {
      var accepted;
      accepted, header, headerLines, headerEnd := ScanHeaderLine(lines, i, findTimestamp, header, headerLines, headerEnd);
      if !accepted {
        break;
      }
      i := i + 1;
    }
    assert HeaderStop(lines) == i;
    header := header.(rawLines := headerLines);
  }

  /** Every non-blank line among the first three is a header line, whatever it holds. */
  lemma FirstLinesAreHeader(lines: seq<string>, i: nat)
    requires i < |lines| && i < HeaderByPosition && Strip(lines[i]) != []
    ensures i < HeaderEnd(lines)
  {
    FirstLinesPassed(lines, 0, i);
    LastNonBlankEndCovers(lines, HeaderStop(lines), i);
  }

  /** The scan passes each of the first three lines, so it stops after all of them. */
  lemma {:induction false} FirstLinesPassed(lines: seq<string>, s: nat, i: nat)
    requires s <= i < |lines| && i < HeaderByPosition
    ensures i < FirstRejectedFrom(lines, s)
    decreases i - s
  {
    if s < i {
      FirstLinesPassed(lines, s + 1, i);
    }
  }

  /** A non-blank line among the first `n` lies before the end of the last non-blank one. */
  lemma {:induction false} LastNonBlankEndCovers(lines: seq<string>, n: nat, i: nat)
    requires i < n <= |lines| && Strip(lines[i]) != []
    ensures i < LastNonBlankEnd(lines, n)
  {
    if i < n - 1 && Strip(lines[n - 1]) == [] {
      LastNonBlankEndCovers(lines, n - 1, i);
    }
  }

  /**
   * Lines four and five (indices 3 and 4), reached with no earlier rejection, are header lines
   * exactly when they hold a keyword and yield fewer than five groups.
   */
  lemma LaterHeaderLines(lines: seq<string>, i: nat)
    requires HeaderByPosition <= i < ScanEnd(lines)
    requires i <= HeaderStop(lines)
    requires Strip(lines[i]) != []
    ensures i < HeaderStop(lines) <==> KeywordLine(Strip(lines[i]))
  {
    ScanVerdict(lines, 0, i);
  }

  /** Reached without an earlier rejection, line `i` is passed exactly when it is blank or a header line. */
  lemma {:induction false} ScanVerdict(lines: seq<string>, s: nat, i: nat)
    requires s <= i < ScanEnd(lines) && i <= FirstRejectedFrom(lines, s)
    ensures i < FirstRejectedFrom(lines, s) <==> Passed(lines, i)
    decreases i - s
  {
    if s < i {
      ScanVerdict(lines, s + 1, i);
    }
  }

  // ---------------------------------------------------------------------------
  // Body
  // ---------------------------------------------------------------------------

  /** The groups of a body line. */
  function RowGroups(line: string): seq<string> {
    DigitGroups(Digits(Strip(line)))
  }

  /** A body line that carries data: non-blank with at least three groups. */
  predicate IsDataLine(line: string) {
    Strip(line) != [] && |RowGroups(line)| >= NoiseLineGroups
  }

  /** The first `n` elements, or all of them when there are fewer. */
  function Take(s: seq<string>, n: nat): (r: seq<string>)
    ensures |r| == if |s| <= n then |s| else n
    ensures r == s[..|r|]
  {
    if |s| <= n then s else s[..n]
  }

  /** The kept groups of each data line, in order; noise lines contribute nothing. */
  function DataRows(lines: seq<string>): (rows: seq<seq<string>>)
    ensures |rows| <= |lines|
    ensures forall j :: 0 <= j < |rows| ==> NoiseLineGroups <= |rows[j]| <= Config.GroupsPerLine
  {
    if lines == [] then []
    else
      var last := lines[|lines| - 1];
      DataRows(lines[..|lines| - 1]) + LineRows(last)
  }

  /** The row a body line contributes: its first GroupsPerLine groups if it is a data line, else none. */
  function LineRows(line: string): (r: seq<seq<string>>)
    ensures |r| <= 1
    ensures forall j :: 0 <= j < |r| ==> NoiseLineGroups <= |r[j]| <= Config.GroupsPerLine
  {
    if IsDataLine(line) then [Take(RowGroups(line), Config.GroupsPerLine)] else []
  }

  /** All values of the rows, row after row. */
  function Flatten(rows: seq<seq<string>>): seq<string> {
    if rows == [] then [] else Flatten(rows[..|rows| - 1]) + rows[|rows| - 1]
  }

  /** The groups of data row number `row` (0-based), whose first group gets global index `base`. */
  function EmitRow(values: seq<string>, row: nat, base: nat): (r: seq<MessageGroup>)
    ensures |r| == |values|
  {
    seq(|values|, p requires 0 <= p < |values| =>
      MessageGroup(row / Config.LinesPerSegment + 1, row % Config.LinesPerSegment + 1, p + 1, values[p], base + p))
  }

  /** The groups of all rows: row `j` lies on line `j % L + 1` of segment `j / L + 1`. */
  function EmitRows(rows: seq<seq<string>>): (r: seq<MessageGroup>)
    ensures |r| == |Flatten(rows)|
  {
    if rows == [] then []
    else
      var n := |rows| - 1;
      EmitRows(rows[..n]) + EmitRow(rows[n], n, |Flatten(rows[..n])|)
  }

  /** The group emitted for value `p` of row `j` carries the row's coordinates and the next global index. */
  lemma {:induction false} EmitRowsAt(rows: seq<seq<string>>, j: nat, p: nat)
    requires j < |rows| && p < |rows[j]|
    ensures |Flatten(rows[..j])| + p < |EmitRows(rows)|
    ensures EmitRows(rows)[|Flatten(rows[..j])| + p] ==
      MessageGroup(j / Config.LinesPerSegment + 1, j % Config.LinesPerSegment + 1, p + 1, rows[j][p],
        |Flatten(rows[..j])| + p)
  {
    var n := |rows| - 1;
    assert rows[..n + 1] == rows;
    if j < n {
      EmitRowsAt(rows[..n], j, p);
      assert rows[..n][..j] == rows[..j];
      assert rows[..n][j] == rows[j];
      FlattenPrefix(rows[..n], j);
    }
  }

  /** The values of a prefix of the rows come first. */
  lemma {:induction false} FlattenPrefix(rows: seq<seq<string>>, j: nat)
    requires j < |rows|
    ensures |Flatten(rows[..j])| + |rows[j]| <= |Flatten(rows)|
  {
    var n := |rows| - 1;
    if j < n {
      FlattenPrefix(rows[..n], j);
      assert rows[..n][..j] == rows[..j];
    } else {
      assert rows[..n] == rows[..j];
    }
  }

  /**
   * The emitted groups are the flattened values with global indices 0..n-1 in order, line
   * numbers in 1..L, segments from 1 and positions from 1 up to the row length.
   */
  lemma {:induction false} EmitRowsShape(rows: seq<seq<string>>)
    requires forall j :: 0 <= j < |rows| ==> |rows[j]| <= Config.GroupsPerLine
    ensures forall k :: 0 <= k < |EmitRows(rows)| ==>
      var g := EmitRows(rows)[k];
      g.globalIndex == k && g.value == Flatten(rows)[k] &&
      1 <= g.line <= Config.LinesPerSegment && g.segment >= 1 &&
      1 <= g.position <= Config.GroupsPerLine
  {
    if rows != [] {
      var n := |rows| - 1;
      EmitRowsShape(rows[..n]);
      assert EmitRows(rows) == EmitRows(rows[..n]) + EmitRow(rows[n], n, |Flatten(rows[..n])|);
      assert Flatten(rows) == Flatten(rows[..n]) + rows[n];
    }
  }

  /** The row counters kept by the body loop, advanced past one more data row. */
  lemma RowCounterStep(count: nat)
    ensures var line := count % Config.LinesPerSegment + 1 + 1;
      if line > Config.LinesPerSegment then
        (count + 1) % Config.LinesPerSegment + 1 == 1 && (count + 1) / Config.LinesPerSegment + 1 == count / Config.LinesPerSegment + 2
      else
        (count + 1) % Config.LinesPerSegment + 1 == line && (count + 1) / Config.LinesPerSegment == count / Config.LinesPerSegment
  {
  }

  /** One more body line: a data line adds its kept groups as a new row, any other line nothing. */
  lemma DataRowsStep(lines: seq<string>, n: nat)
    requires n < |lines|
    ensures DataRows(lines[..n + 1]) == DataRows(lines[..n]) + LineRows(lines[n])
  {
    assert lines[..n + 1][..n] == lines[..n];
  }

  /** The groups of one row, one value longer. */
  lemma EmitRowStep(values: seq<string>, p: nat, row: nat, base: nat)
    requires p < |values|
    ensures EmitRow(values[..p + 1], row, base) == EmitRow(values[..p], row, base) +
      [MessageGroup(row / Config.LinesPerSegment + 1, row % Config.LinesPerSegment + 1, p + 1, values[p], base + p)]
  {
  }

  /** One more row appended to the rows. */
  lemma EmitRowsAppend(rows: seq<seq<string>>, row: seq<string>)
    ensures Flatten(rows + [row]) == Flatten(rows) + row
    ensures EmitRows(rows + [row]) == EmitRows(rows) + EmitRow(row, |rows|, |Flatten(rows)|)
  {
    assert (rows + [row])[..|rows|] == rows;
  }

  /** Lines from index `start` on; nothing when `start` is past the end. */
  function Drop(lines: seq<string>, start: nat): (r: seq<string>)
    ensures |r| == if start <= |lines| then |lines| - start else 0
  {
    if start <= |lines| then lines[start..] else []
  }

  /**
   * The groups a body line contributes: none for a blank line or a noise line with fewer than
   * three groups, otherwise its first GroupsPerLine groups.
   */
  method KeptGroups(text: string) returns (row: Option<seq<string>>)
    ensures row == if IsDataLine(text) then Some(Take(RowGroups(text), Config.GroupsPerLine)) else None
  {
    var line := Strip(text);
    if line == [] {
      return None;
    }
    var lineGroups := ExtractDigitGroups(line);
    if |lineGroups| < NoiseLineGroups {
      return None;
    }
    return Some(Take(lineGroups, Config.GroupsPerLine));
  }

  /**
   * Appends the groups of one data line, numbered from position 1 and from global index
   * `globalIdx`, on the line and segment of data row `row`.
   */
  method AppendLineGroups(groups: seq<MessageGroup>, kept: seq<string>, segment: int, lineInSegment: int,
                          globalIdx: nat, ghost row: nat)
    returns (groups': seq<MessageGroup>, globalIdx': nat)
    requires segment == row / Config.LinesPerSegment + 1 && lineInSegment == row % Config.LinesPerSegment + 1
    ensures groups' == groups + EmitRow(kept, row, globalIdx)
    ensures globalIdx' == globalIdx + |kept|
  {
    groups', globalIdx' := groups, globalIdx;
    var p := 0;
    while p < |kept|
      invariant 0 <= p <= |kept|
      invariant groups' == groups + EmitRow(kept[..p], row, globalIdx)
      invariant globalIdx' == globalIdx + p
    {
      EmitRowStep(kept, p, row, globalIdx);
      groups' := groups' + [MessageGroup(segment, lineInSegment, p + 1, kept[p], globalIdx')];
      globalIdx' := globalIdx' + 1;
      p := p + 1;
    }
    assert kept[..p] == kept;
  }

  /**
   * One body line: a data line's kept groups are appended on the current line of the current
   * segment and the counters advance, wrapping to the next segment after LinesPerSegment lines;
   * a blank or noise line leaves everything as it was.
   */
  method ParseBodyLine(text: string, groups: seq<MessageGroup>, globalIdx: nat, segment: int, lineInSegment: int,
                       ghost rows: seq<seq<string>>)
    returns (groups': seq<MessageGroup>, globalIdx': nat, segment': int, lineInSegment': int,
             ghost rows': seq<seq<string>>)
    requires groups == EmitRows(rows) && globalIdx == |groups|
    requires segment == |rows| / Config.LinesPerSegment + 1 && lineInSegment == |rows| % Config.LinesPerSegment + 1
    ensures rows' == rows + LineRows(text)
    ensures groups' == EmitRows(rows') && globalIdx' == |groups'|
    ensures segment' == |rows'| / Config.LinesPerSegment + 1 && lineInSegment' == |rows'| % Config.LinesPerSegment + 1
  {
    groups', globalIdx', segment', lineInSegment', rows' := groups, globalIdx, segment, lineInSegment, rows;
    var row := KeptGroups(text);
    if row.Some? {
      var kept := row.value;
      EmitRowsAppend(rows, kept);
      groups', globalIdx' := AppendLineGroups(groups, kept, segment, lineInSegment, globalIdx, |rows|);
      RowCounterStep(|rows|);
      rows' := rows + [kept];
      lineInSegment' := lineInSegment + 1;
      if lineInSegment' > Config.LinesPerSegment {
        lineInSegment' := 1;
        segment' := segment + 1;
      }
    }
  }

  /**
   * Parses the body from line `startIdx` on: noise lines are skipped without moving the
   * counters; each data line keeps at most GroupsPerLine groups, numbered from position 1.
   */
  method ParseBody(lines: seq<string>, startIdx: nat) returns (groups: seq<MessageGroup>)
    ensures groups == EmitRows(DataRows(Drop(lines, startIdx)))
    ensures |groups| == |Flatten(DataRows(Drop(lines, startIdx)))|
    ensures forall k :: 0 <= k < |groups| ==>
      groups[k].globalIndex == k && 1 <= groups[k].line <= Config.LinesPerSegment &&
      groups[k].segment >= 1 && 1 <= groups[k].position <= Config.GroupsPerLine
  {
    var body := Drop(lines, startIdx);
    groups := [];
    var globalIdx := 0;
    var segment := 1;
    var lineInSegment := 1;
    ghost var rows: seq<seq<string>> := [];
    var n := 0;
    while n < |body|
      invariant 0 <= n <= |body|
      invariant rows == DataRows(body[..n])
      invariant groups == EmitRows(rows)
      invariant globalIdx == |groups|
      invariant segment == |rows| / Config.LinesPerSegment + 1
      invariant lineInSegment == |rows| % Config.LinesPerSegment + 1
    {
      DataRowsStep(body, n);
      groups, globalIdx, segment, lineInSegment, rows := ParseBodyLine(body[n], groups, globalIdx, segment, lineInSegment, rows);
      n := n + 1;
    }
    assert body[..n] == body;
    EmitRowsShape(rows);
  }

  /** Parses a whole message: the header, then the body from where the header ends. */
  method ParseMessage(lines: seq<string>, findTimestamp: string -> Option<string>) returns (content: MessageContent)
    ensures content.rawText == Join(lines, "\n")
    ensures content.header.rawLines == HeaderLines(lines)
    ensures content.header.groupCount == LastMatch(HeaderLines(lines), DeclaredGroupCount)
    ensures content.header.timestamp == LastMatch(HeaderLines(lines), findTimestamp)
    ensures content.groups == EmitRows(DataRows(lines[HeaderEnd(lines)..]))
  {
    var rawText := Join(lines, "\n");
    var header, bodyStart := ParseHeader(lines, findTimestamp);
    var groups := ParseBody(lines, bodyStart);
    content := MessageContent(header, groups, rawText);
  }

  /**
   * The raw text keeps the lines apart: when no line holds a newline, splitting the raw text at
   * newlines gives the lines back.
   */
  lemma RawTextSplitsBack(lines: seq<string>)
    requires |lines| >= 1
    requires forall k :: 0 <= k < |lines| ==> '\n' !in lines[k]
    ensures Split(Join(lines, "\n"), '\n') == lines
  {
    SplitJoin(lines, '\n');
  }

  /** The lines of a reference file as read: each one stripped, the blank ones dropped, order kept. */
  function ReferenceLines(lines: seq<string>): (r: seq<string>)
    ensures |r| <= |lines|
  {
    if lines == [] then []
    else
      var last := Strip(lines[|lines| - 1]);
      ReferenceLines(lines[..|lines| - 1]) + (if last == [] then [] else [last])
  }

  /** Every kept reference line is non-blank and already stripped. */
  lemma {:induction false} ReferenceLinesClean(lines: seq<string>)
    ensures forall k :: 0 <= k < |ReferenceLines(lines)| ==>
      ReferenceLines(lines)[k] != [] && Strip(ReferenceLines(lines)[k]) == ReferenceLines(lines)[k]
  {
    if lines != [] {
      ReferenceLinesClean(lines[..|lines| - 1]);
      StripIdempotent(lines[|lines| - 1]);
    }
  }

  /** Parses a reference file from its lines as read: cleans them, then parses the message. */
  method ParseReferenceTxt(fileLines: seq<string>, findTimestamp: string -> Option<string>)
    returns (content: MessageContent)
    ensures var lines := ReferenceLines(fileLines);
      && content.rawText == Join(lines, "\n")
      && content.header.rawLines == HeaderLines(lines)
      && content.header.groupCount == LastMatch(HeaderLines(lines), DeclaredGroupCount)
      && content.header.timestamp == LastMatch(HeaderLines(lines), findTimestamp)
      && content.groups == EmitRows(DataRows(lines[HeaderEnd(lines)..]))
  {
    var lines := ReferenceLines(fileLines);
    content := ParseMessage(lines, findTimestamp);
  }

  /**
   * In a reference file the first three kept lines are always header, whatever they hold: a
   * file that starts directly with data lines loses those lines to the header.
   */
  lemma ReferenceFirstLinesAreHeader(fileLines: seq<string>, i: nat)
    requires i < |ReferenceLines(fileLines)| && i < HeaderByPosition
    ensures i < HeaderEnd(ReferenceLines(fileLines))
  {
    ReferenceLinesClean(fileLines);
    var lines := ReferenceLines(fileLines);
    assert Strip(lines[i]) != [];
    FirstLinesAreHeader(lines, i);
  }
}
