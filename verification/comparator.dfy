/**
 * The comparator: a character-substitution normaliser for values read by OCR, and a diff of a
 * submitted grid against the reference grid keyed on the global index.
 */
module Comparator {
  import opened Wrappers
  import opened Text
  import opened Models

  // ---------------------------------------------------------------------------
  // Normalisation
  // ---------------------------------------------------------------------------

  /** Letters that OCR commonly reads in place of a digit, and the digit meant. */
  const Corrections: map<char, char> := map[
    'O' := '0', 'o' := '0',
    'l' := '1', 'I' := '1',
    'Z' := '2',
    'S' := '5', 's' := '5',
    'B' := '8',
    'G' := '6',
    'g' := '9', 'q' := '9']

  /** The corrected form of one character: its table digit, or the character itself. */
  function Correct(c: char): (d: char)
    ensures c in Corrections ==> IsDigit(d)
    ensures c !in Corrections ==> d == c
    ensures d !in Corrections
  {
    if c in Corrections then Corrections[c] else c
  }

  /** Every character replaced by its corrected form. */
  function MapChars(s: string): (r: string)
    ensures |r| == |s|
    ensures forall i :: 0 <= i < |r| ==> r[i] == Correct(s[i])
  {
    if s == [] then [] else [Correct(s[0])] + MapChars(s[1..])
  }

  /** A value as it is compared: stripped, without blanks, every table letter replaced by its digit. */
  function Normalize(value: string): (r: string)
    ensures forall i :: 0 <= i < |r| ==> r[i] != ' ' && r[i] !in Corrections
  {
    MapChars(RemoveChar(Strip(value), ' '))
  }

  /** Deleting a character keeps the first character when that is not the one deleted. */
  lemma RemoveCharKeepsFirst(s: string, c: char)
    requires s != [] && s[0] != c
    ensures RemoveChar(s, c) != [] && RemoveChar(s, c)[0] == s[0]
  {
    assert RemoveChar(s, c) == [s[0]] + RemoveChar(s[1..], c);
  }

  /** Deleting a character keeps the last character when that is not the one deleted. */
  lemma {:induction false} RemoveCharKeepsLast(s: string, c: char)
    requires s != [] && s[|s| - 1] != c
    ensures RemoveChar(s, c) != [] && RemoveChar(s, c)[|RemoveChar(s, c)| - 1] == s[|s| - 1]
  {
    if |s| > 1 {
      RemoveCharKeepsLast(s[1..], c);
      assert s[1..][|s[1..]| - 1] == s[|s| - 1];
    }
  }

  /**
   * The normalised value has no blank, no table letter, no whitespace at either end, and each of
   * its characters is the corrected form of the corresponding non-blank character of the stripped value.
   */
  lemma NormalizeShape(value: string)
    ensures var r := Normalize(value);
      && (r == [] || (!IsSpace(r[0]) && !IsSpace(r[|r| - 1])))
      && |r| == |RemoveChar(Strip(value), ' ')|
      && forall i :: 0 <= i < |r| ==> r[i] == Correct(RemoveChar(Strip(value), ' ')[i])
  {
    var t := Strip(value);
    StripSpec(value);
    if t != [] {
      RemoveCharKeepsFirst(t, ' ');
      RemoveCharKeepsLast(t, ' ');
    }
  }

  /** A string without blanks, table letters or edge whitespace is already normalised. */
  lemma NormalizeFixed(value: string)
    requires value == [] || (!IsSpace(value[0]) && !IsSpace(value[|value| - 1]))
    requires forall i :: 0 <= i < |value| ==> value[i] != ' ' && value[i] !in Corrections
    ensures Normalize(value) == value
  {
    StripUnchanged(value);
    RemoveCharAbsent(value, ' ');
    assert MapChars(value) == value;
  }

  /** Normalising twice is normalising once. */
  lemma NormalizeIdempotent(value: string)
    ensures Normalize(Normalize(value)) == Normalize(value)
  {
    NormalizeShape(value);
    NormalizeFixed(Normalize(value));
  }

  /** A value without whitespace is normalised by correcting its characters alone. */
  lemma NormalizePlain(value: string)
    requires forall i :: 0 <= i < |value| ==> !IsSpace(value[i])
    ensures Normalize(value) == MapChars(value)
  {
    StripUnchanged(value);
    RemoveCharAbsent(value, ' ');
  }

  /**
   * Two whitespace-free values that differ only where one has a table letter and the other the
   * letter's digit (or another letter for the same digit) compare equal.
   */
  lemma LookalikesMatch(a: string, b: string)
    requires |a| == |b|
    requires forall i :: 0 <= i < |a| ==> !IsSpace(a[i]) && !IsSpace(b[i]) && Correct(a[i]) == Correct(b[i])
    ensures Normalize(a) == Normalize(b)
  {
    NormalizePlain(a);
    NormalizePlain(b);
  }

  /** A letter O read in place of a zero compares equal to the zero. */
  lemma OcrLookalikeMatches()
    ensures Normalize("O123") == Normalize("0123")
  {
    LookalikesMatch("O123", "0123");
  }

  // ---------------------------------------------------------------------------
  // Index maps
  // ---------------------------------------------------------------------------

  /** The groups keyed by global index; of two groups with the same index the later one wins. */
  function IndexMap(gs: seq<MessageGroup>): (m: map<int, MessageGroup>)
    ensures m.Keys == set g | g in gs :: g.globalIndex
    ensures forall k :: k in m ==> m[k] in gs && m[k].globalIndex == k
  {
    if gs == [] then map[]
    else
      var last := gs[|gs| - 1];
      var m := IndexMap(gs[..|gs| - 1]);
      assert forall g :: g in gs <==> g in gs[..|gs| - 1] || g == last;
      m[last.globalIndex := last]
  }

  /** The group kept for an index is the last group carrying that index. */
  lemma {:induction false} IndexMapLastWins(gs: seq<MessageGroup>, j: nat)
    requires j < |gs|
    requires forall l :: j < l < |gs| ==> gs[l].globalIndex != gs[j].globalIndex
    ensures IndexMap(gs)[gs[j].globalIndex] == gs[j]
  {
    var n := |gs| - 1;
    if j < n {
      IndexMapLastWins(gs[..n], j);
    }
  }

  // ---------------------------------------------------------------------------
  // The error at one index
  // ---------------------------------------------------------------------------

  /** What is recorded as the submitted value of a missing group. */
  const MissingValue: string := "(缺失)"
  /** What is recorded as the correct value of an extra group. */
  const ExtraValue: string := "(多余)"

  /**
   * The error the diff reports at index `idx`. Within the reference range: nothing when the
   * reference has no group there, `missing` when the submission has none, `mismatch` when the
   * normalised values differ. Beyond it: `extra` for a submitted group. Nothing otherwise.
   */
  function ErrorAt(sub: map<int, MessageGroup>, ref: map<int, MessageGroup>, total: nat, idx: int): Option<ErrorDetail> {
    if 0 <= idx < total then
      if idx !in ref then None
      else
        var g := ref[idx];
        if idx !in sub then
          Some(ErrorDetail(g.segment, g.line, g.position, g.globalIndex, MissingValue, g.value, Missing))
        else if Normalize(sub[idx].value) != Normalize(g.value) then
          Some(ErrorDetail(g.segment, g.line, g.position, g.globalIndex, sub[idx].value, g.value, Mismatch))
        else None
    else if idx >= total && idx in sub then
      var s := sub[idx];
      Some(ErrorDetail(s.segment, s.line, s.position, s.globalIndex, s.value, ExtraValue, Extra))
    else None
  }

  /** The indices at which the diff reports an error. */
  function ErrorIndices(sub: map<int, MessageGroup>, ref: map<int, MessageGroup>, total: nat): set<int> {
    (set i | 0 <= i < total && ErrorAt(sub, ref, total, i).Some?) + (set k | k in sub && k >= total)
  }

  /**
   * An error is reported exactly at the indices of `ErrorIndices`: inside the range only where the
   * reference has a group, beyond it only where the submission has one.
   */
  lemma ErrorIndicesExact(sub: map<int, MessageGroup>, ref: map<int, MessageGroup>, total: nat, idx: int)
    ensures idx in ErrorIndices(sub, ref, total) <==> ErrorAt(sub, ref, total, idx).Some?
    ensures ErrorAt(sub, ref, total, idx).Some? ==>
      (0 <= idx < total && idx in ref) || (idx >= total && idx in sub)
  {
  }

  /** Every group of the map is stored under its own global index, as `IndexMap` builds it. */
  predicate Keyed(m: map<int, MessageGroup>) {
    forall k :: k in m ==> m[k].globalIndex == k
  }

  /** In maps keyed by global index, the error reported at an index carries that index. */
  lemma ErrorAtCarriesIndex(sub: map<int, MessageGroup>, ref: map<int, MessageGroup>, total: nat, idx: int)
    requires Keyed(sub) && Keyed(ref) && ErrorAt(sub, ref, total, idx).Some?
    ensures ErrorAt(sub, ref, total, idx).value.globalIndex == idx
  {
  }

  // ---------------------------------------------------------------------------
  // Sorting by index
  // ---------------------------------------------------------------------------

  /** The indices carried by the errors. */
  function Indices(es: seq<ErrorDetail>): set<int> {
    set e | e in es :: e.globalIndex
  }

  /** The errors are in ascending index order. */
  predicate SortedByIndex(es: seq<ErrorDetail>) {
    forall i, j :: 0 <= i < j < |es| ==> es[i].globalIndex <= es[j].globalIndex
  }

  /** The errors are in strictly ascending index order: sorted, with no index repeated. */
  predicate StrictlySorted(es: seq<ErrorDetail>) {
    forall i, j :: 0 <= i < j < |es| ==> es[i].globalIndex < es[j].globalIndex
  }

  /** No two errors carry the same index. */
  predicate DistinctIndices(es: seq<ErrorDetail>) {
    forall i, j :: 0 <= i < j < |es| ==> es[i].globalIndex != es[j].globalIndex
  }

  /** `e` inserted into `s` after every error whose index is not larger (so ties keep their order). */
  function Insert(e: ErrorDetail, s: seq<ErrorDetail>): (r: seq<ErrorDetail>)
    ensures |r| == |s| + 1
    ensures r[0] == e || (s != [] && r[0] == s[0])
  {
    if s == [] then [e]
    else if e.globalIndex < s[0].globalIndex then [e] + s
    else [s[0]] + Insert(e, s[1..])
  }

  /** Inserting adds exactly `e` to the errors. */
  lemma {:induction false} InsertPermutes(e: ErrorDetail, s: seq<ErrorDetail>)
    ensures multiset(Insert(e, s)) == multiset(s) + multiset{e}
  {
    if s != [] && e.globalIndex >= s[0].globalIndex {
      InsertPermutes(e, s[1..]);
      assert s == [s[0]] + s[1..];
    }
  }

  /** Inserting into a sorted list keeps it sorted. */
  lemma {:induction false} InsertSorted(e: ErrorDetail, s: seq<ErrorDetail>)
    requires SortedByIndex(s)
    ensures SortedByIndex(Insert(e, s))
  {
    if s != [] && e.globalIndex >= s[0].globalIndex {
      var t := Insert(e, s[1..]);
      InsertSorted(e, s[1..]);
      assert s[0].globalIndex <= t[0].globalIndex;
      var r := [s[0]] + t;
      forall i, j | 0 <= i < j < |r| ensures r[i].globalIndex <= r[j].globalIndex {
        if i == 0 && j > 1 {
          assert t[0].globalIndex <= t[j - 1].globalIndex;
        }
      }
    }
  }

  /** Inserting adds `e` to the members and nothing else. */
  lemma InsertMembers(e: ErrorDetail, s: seq<ErrorDetail>)
    ensures forall x :: x in Insert(e, s) <==> x in s || x == e
  {
    InsertPermutes(e, s);
    forall x ensures x in Insert(e, s) <==> x in s || x == e {
      assert x in Insert(e, s) <==> x in multiset(Insert(e, s));
      assert x in s <==> x in multiset(s);
    }
  }

  /** Inserting adds the index of `e` to the indices. */
  lemma InsertIndices(e: ErrorDetail, s: seq<ErrorDetail>)
    ensures Indices(Insert(e, s)) == Indices(s) + {e.globalIndex}
  {
    InsertMembers(e, s);
  }

  /** Inserting an error with a new index into a strictly sorted list keeps it strictly sorted. */
  lemma {:induction false} InsertStrict(e: ErrorDetail, s: seq<ErrorDetail>)
    requires StrictlySorted(s) && e.globalIndex !in Indices(s)
    ensures StrictlySorted(Insert(e, s))
  {
    if s != [] && e.globalIndex >= s[0].globalIndex {
      var t := Insert(e, s[1..]);
      assert s[0] in s;
      TailIndices(s);
      InsertStrict(e, s[1..]);
      assert s[0].globalIndex < t[0].globalIndex by {
        if t[0] != e {
          assert t[0] == s[1..][0];
        }
      }
      var r := [s[0]] + t;
      assert Insert(e, s) == r;
      forall i, j | 0 <= i < j < |r| ensures r[i].globalIndex < r[j].globalIndex {
        if i == 0 && j > 1 {
          assert t[0].globalIndex < t[j - 1].globalIndex;
        }
      }
    }
  }

  /** The errors sorted by index, stably: the model of sorting a list by a key. */
  function SortByIndex(es: seq<ErrorDetail>): (r: seq<ErrorDetail>)
    ensures |r| == |es|
  {
    if es == [] then [] else Insert(es[|es| - 1], SortByIndex(es[..|es| - 1]))
  }

  /** Sorting yields an ascending permutation of the errors. */
  lemma {:induction false} SortSortsAndPermutes(es: seq<ErrorDetail>)
    ensures SortedByIndex(SortByIndex(es))
    ensures multiset(SortByIndex(es)) == multiset(es)
  {
    if es != [] {
      var n := |es| - 1;
      SortSortsAndPermutes(es[..n]);
      InsertSorted(es[n], SortByIndex(es[..n]));
      InsertPermutes(es[n], SortByIndex(es[..n]));
      assert es == es[..n] + [es[n]];
    }
  }

  /** Sorting errors whose indices are distinct orders them strictly, over the same indices. */
  lemma {:induction false} SortDistinctStrict(es: seq<ErrorDetail>)
    requires DistinctIndices(es)
    ensures StrictlySorted(SortByIndex(es))
    ensures Indices(SortByIndex(es)) == Indices(es)
  {
    if es != [] {
      var n := |es| - 1;
      var p := es[..n];
      SortDistinctStrict(p);
      assert es[n].globalIndex !in Indices(p) by {
        forall x | x in p ensures x.globalIndex != es[n].globalIndex {
          var i :| 0 <= i < n && p[i] == x;
        }
      }
      InsertStrict(es[n], SortByIndex(p));
      InsertIndices(es[n], SortByIndex(p));
      assert es == p + [es[n]];
      assert Indices(es) == Indices(p) + {es[n].globalIndex} by {
        assert forall x :: x in es <==> x in p || x == es[n];
      }
    }
  }

  // ---------------------------------------------------------------------------
  // The diff
  // ---------------------------------------------------------------------------

  /** Every error is the one `ErrorAt` reports at its own index. */
  predicate AllReported(es: seq<ErrorDetail>, sub: map<int, MessageGroup>, ref: map<int, MessageGroup>, total: nat) {
    forall e :: e in es ==> ErrorAt(sub, ref, total, e.globalIndex) == Some(e)
  }

  /**
   * What the diff returns: the reported errors, one per index of `ErrorIndices`, in strictly
   * ascending index order.
   */
  predicate IsDiff(es: seq<ErrorDetail>, sub: map<int, MessageGroup>, ref: map<int, MessageGroup>, total: nat) {
    StrictlySorted(es) && AllReported(es, sub, ref, total) && Indices(es) == ErrorIndices(sub, ref, total)
  }

  /**
   * Compares the submission with the reference: walks the reference range for missing and
   * mismatched groups, then the submitted indices for extras, then sorts by index.
   */
  method Compare(submitted: MessageContent, reference: MessageContent)
    returns (errors: seq<ErrorDetail>, totalGroups: nat, errorCount: nat)
    ensures totalGroups == |reference.groups| && errorCount == |errors|
    ensures IsDiff(errors, IndexMap(submitted.groups), IndexMap(reference.groups), totalGroups)
  {
    totalGroups := |reference.groups|;
    var refMap := IndexMap(reference.groups);
    var subMap := IndexMap(submitted.groups);
    var found: seq<ErrorDetail> := [];
    var idx := 0;
    while idx < totalGroups
      invariant 0 <= idx <= totalGroups
      invariant AllReported(found, subMap, refMap, totalGroups) && DistinctIndices(found)
      invariant Indices(found) == set i | 0 <= i < idx && ErrorAt(subMap, refMap, totalGroups, i).Some?
    {
      found := CheckIndex(found, subMap, refMap, totalGroups, idx);
      idx := idx + 1;
    }
    var keys := subMap.Keys;
    while keys != {}
      invariant keys <= subMap.Keys
      invariant AllReported(found, subMap, refMap, totalGroups) && DistinctIndices(found)
      invariant Indices(found) == (set i | 0 <= i < totalGroups && ErrorAt(subMap, refMap, totalGroups, i).Some?)
        + (set k | k in subMap.Keys - keys && k >= totalGroups)
      decreases |keys|
    {
      var k :| k in keys;
      found := CheckExtra(found, subMap, refMap, totalGroups, k, keys);
      keys := keys - {k};
    }
    assert Indices(found) == ErrorIndices(subMap, refMap, totalGroups);
    errors := SortByIndex(found);
    SortDistinctStrict(found);
    SortSortsAndPermutes(found);
    assert forall e :: e in errors ==> e in found by {
      forall e | e in errors ensures e in found {
        assert e in multiset(found);
      }
    }
    errorCount := |errors|;
  }

  /** The first pass at one reference index: records a missing or mismatched group. */
  method CheckIndex(found: seq<ErrorDetail>, subMap: map<int, MessageGroup>, refMap: map<int, MessageGroup>,
                    total: nat, idx: nat)
    returns (found': seq<ErrorDetail>)
    requires idx < total && Keyed(subMap) && Keyed(refMap)
    requires AllReported(found, subMap, refMap, total) && DistinctIndices(found)
    requires Indices(found) == set i | 0 <= i < idx && ErrorAt(subMap, refMap, total, i).Some?
    ensures found' == found + (if ErrorAt(subMap, refMap, total, idx).Some? then [ErrorAt(subMap, refMap, total, idx).value] else [])
    ensures AllReported(found', subMap, refMap, total) && DistinctIndices(found')
    ensures Indices(found') == set i | 0 <= i < idx + 1 && ErrorAt(subMap, refMap, total, i).Some?
  {
    found' := found;
    if idx in refMap {
      var refGroup := refMap[idx];
      if idx !in subMap {
        found' := found + [ErrorDetail(refGroup.segment, refGroup.line, refGroup.position, refGroup.globalIndex,
                                      MissingValue, refGroup.value, Missing)];
      } else if Normalize(subMap[idx].value) != Normalize(refGroup.value) {
        found' := found + [ErrorDetail(refGroup.segment, refGroup.line, refGroup.position, refGroup.globalIndex,
                                      subMap[idx].value, refGroup.value, Mismatch)];
      }
    }
    var r := ErrorAt(subMap, refMap, total, idx);
    if r.Some? {
      AppendReported(found, r.value, subMap, refMap, total);
    }
    assert (set i | 0 <= i < idx + 1 && ErrorAt(subMap, refMap, total, i).Some?) ==
      (set i | 0 <= i < idx && ErrorAt(subMap, refMap, total, i).Some?) + (if r.Some? then {idx} else {});
  }

  /** Appending the error reported at a new index keeps the list reported and its indices distinct. */
  lemma AppendReported(found: seq<ErrorDetail>, e: ErrorDetail,
                       subMap: map<int, MessageGroup>, refMap: map<int, MessageGroup>, total: nat)
    requires AllReported(found, subMap, refMap, total) && DistinctIndices(found)
    requires ErrorAt(subMap, refMap, total, e.globalIndex) == Some(e) && e.globalIndex !in Indices(found)
    ensures AllReported(found + [e], subMap, refMap, total) && DistinctIndices(found + [e])
    ensures Indices(found + [e]) == Indices(found) + {e.globalIndex}
  {
    forall i | 0 <= i < |found| ensures found[i].globalIndex != e.globalIndex {
      assert found[i] in found;
    }
  }

  /** The second pass at one submitted index: records an extra group beyond the reference range. */
  method CheckExtra(found: seq<ErrorDetail>, subMap: map<int, MessageGroup>, refMap: map<int, MessageGroup>,
                    total: nat, k: int, ghost keys: set<int>)
    returns (found': seq<ErrorDetail>)
    requires k in keys && keys <= subMap.Keys && Keyed(subMap)
    requires AllReported(found, subMap, refMap, total) && DistinctIndices(found)
    requires Indices(found) == (set i | 0 <= i < total && ErrorAt(subMap, refMap, total, i).Some?)
      + (set j | j in subMap.Keys - keys && j >= total)
    ensures found' == found + (if k >= total then [ErrorAt(subMap, refMap, total, k).value] else [])
    ensures AllReported(found', subMap, refMap, total) && DistinctIndices(found')
    ensures Indices(found') == (set i | 0 <= i < total && ErrorAt(subMap, refMap, total, i).Some?)
      + (set j | j in subMap.Keys - (keys - {k}) && j >= total)
  {
    found' := found;
    if k >= total {
      var subGroup := subMap[k];
      found' := found + [ErrorDetail(subGroup.segment, subGroup.line, subGroup.position, subGroup.globalIndex,
                                    subGroup.value, ExtraValue, Extra)];
      AppendReported(found, found'[|found|], subMap, refMap, total);
    }
    assert (set j | j in subMap.Keys - (keys - {k}) && j >= total) ==
      (set j | j in subMap.Keys - keys && j >= total) + (if k >= total then {k} else {});
  }

  // ---------------------------------------------------------------------------
  // The tolerant diff
  // ---------------------------------------------------------------------------

  /** The groups with their values normalised: every coordinate is kept, only the value is replaced. */
  function NormalizedGroups(gs: seq<MessageGroup>): (r: seq<MessageGroup>)
    ensures |r| == |gs|
    ensures forall i :: 0 <= i < |gs| ==>
      && r[i].segment == gs[i].segment && r[i].line == gs[i].line && r[i].position == gs[i].position
      && r[i].globalIndex == gs[i].globalIndex && r[i].value == Normalize(gs[i].value)
  {
    seq(|gs|, i requires 0 <= i < |gs| => gs[i].(value := Normalize(gs[i].value)))
  }

  /** Builds the corrected copy of the submitted groups, one group at a time. */
  method NormalizeGroups(groups: seq<MessageGroup>) returns (corrected: seq<MessageGroup>)
    ensures corrected == NormalizedGroups(groups)
  {
    corrected := [];
    var i := 0;
    while i < |groups|
      invariant 0 <= i <= |groups| && |corrected| == i
      invariant forall j :: 0 <= j < i ==> corrected[j] == groups[j].(value := Normalize(groups[j].value))
    {
      var group := groups[i];
      var correctedValue := Normalize(group.value);
      corrected := corrected + [MessageGroup(group.segment, group.line, group.position, correctedValue, group.globalIndex)];
      i := i + 1;
    }
  }

  /**
   * The diff with optional OCR correction: when allowed, the submitted values are normalised
   * before the plain diff runs; otherwise the plain diff runs on the submission as it is.
   */
  method CompareWithTolerance(submitted: MessageContent, reference: MessageContent, allowOcrCorrection: bool)
    returns (errors: seq<ErrorDetail>, totalGroups: nat, errorCount: nat)
    ensures totalGroups == |reference.groups| && errorCount == |errors|
    ensures IsDiff(errors,
      IndexMap(if allowOcrCorrection then NormalizedGroups(submitted.groups) else submitted.groups),
      IndexMap(reference.groups), totalGroups)
  {
    if allowOcrCorrection {
      var correctedGroups := NormalizeGroups(submitted.groups);
      var correctedSubmitted := MessageContent(submitted.header, correctedGroups, submitted.rawText);
      errors, totalGroups, errorCount := Compare(correctedSubmitted, reference);
    } else {
      errors, totalGroups, errorCount := Compare(submitted, reference);
    }
  }

  // ---------------------------------------------------------------------------
  // Properties of the diff
  // ---------------------------------------------------------------------------

  /** Of two strictly sorted error lists over the same indices, the indices line up one for one. */
  lemma {:induction false} SameIndicesAligned(a: seq<ErrorDetail>, b: seq<ErrorDetail>)
    requires StrictlySorted(a) && StrictlySorted(b) && Indices(a) == Indices(b)
    ensures |a| == |b|
    ensures forall i :: 0 <= i < |a| ==> a[i].globalIndex == b[i].globalIndex
  {
    if a == [] {
      assert b != [] ==> b[0].globalIndex in Indices(b);
    } else {
      assert a[0].globalIndex in Indices(b);
      assert b != [];
      assert b[0].globalIndex in Indices(a);
      var ka := a[0].globalIndex;
      assert ka == b[0].globalIndex by {
        var e :| e in b && e.globalIndex == ka;
        var f :| f in a && f.globalIndex == b[0].globalIndex;
        var ia :| 0 <= ia < |a| && a[ia] == f;
        var ib :| 0 <= ib < |b| && b[ib] == e;
      }
      TailIndices(a);
      TailIndices(b);
      SameIndicesAligned(a[1..], b[1..]);
    }
  }

  /** Dropping the first error of a strictly sorted list drops exactly its index. */
  lemma TailIndices(a: seq<ErrorDetail>)
    requires a != [] && StrictlySorted(a)
    ensures StrictlySorted(a[1..])
    ensures Indices(a[1..]) == Indices(a) - {a[0].globalIndex}
  {
    forall k | k in Indices(a) - {a[0].globalIndex}
      ensures k in Indices(a[1..])
    {
      var e :| e in a && e.globalIndex == k;
      var i :| 0 <= i < |a| && a[i] == e;
      assert i > 0;
      assert a[1..][i - 1] == e;
    }
    forall k | k in Indices(a[1..])
      ensures k in Indices(a) - {a[0].globalIndex}
    {
      var e :| e in a[1..] && e.globalIndex == k;
      var i :| 0 <= i < |a[1..]| && a[1..][i] == e;
      assert a[i + 1] == e;
    }
  }

  /** The diff is determined by its inputs: two results for the same maps are the same list. */
  lemma DiffUnique(a: seq<ErrorDetail>, b: seq<ErrorDetail>,
                   sub: map<int, MessageGroup>, ref: map<int, MessageGroup>, total: nat)
    requires IsDiff(a, sub, ref, total) && IsDiff(b, sub, ref, total)
    ensures a == b
  {
    SameIndicesAligned(a, b);
    forall i | 0 <= i < |a|
      ensures a[i] == b[i]
    {
      assert ErrorAt(sub, ref, total, a[i].globalIndex) == Some(a[i]);
      assert ErrorAt(sub, ref, total, b[i].globalIndex) == Some(b[i]);
    }
  }

  /** `tolerant` holds the groups of `plain` under the same keys, each with its value normalised. */
  predicate NormalizedMap(tolerant: map<int, MessageGroup>, plain: map<int, MessageGroup>) {
    && tolerant.Keys == plain.Keys
    && forall k :: k in plain ==> tolerant[k] == plain[k].(value := Normalize(plain[k].value))
  }

  /** Indexing the normalised groups gives the normalised index map: the last group per index still wins. */
  lemma {:induction false} IndexMapNormalized(gs: seq<MessageGroup>)
    ensures NormalizedMap(IndexMap(NormalizedGroups(gs)), IndexMap(gs))
  {
    if gs != [] {
      var n := |gs| - 1;
      IndexMapNormalized(gs[..n]);
      assert NormalizedGroups(gs)[..n] == NormalizedGroups(gs[..n]);
    }
  }

  /**
   * With or without OCR correction the diff finds an error at the same indices, of the same
   * kind, at the same coordinates and with the same correct value; only a mismatch's or an
   * extra's recorded submitted value differs, being normalised.
   */
  lemma ToleranceSameVerdicts(plain: map<int, MessageGroup>, tolerant: map<int, MessageGroup>,
                              ref: map<int, MessageGroup>, total: nat, idx: int)
    requires NormalizedMap(tolerant, plain)
    ensures var p := ErrorAt(plain, ref, total, idx);
      var t := ErrorAt(tolerant, ref, total, idx);
      && p.Some? == t.Some?
      && (p.Some? ==>
            && t.value.kind == p.value.kind
            && t.value.(submittedValue := p.value.submittedValue) == p.value
            && t.value.submittedValue ==
               (if p.value.kind == Missing then MissingValue else Normalize(p.value.submittedValue)))
  {
    if idx in plain {
      NormalizeIdempotent(plain[idx].value);
    }
  }

  /**
   * Both modes report the same sequence of (index, kind) pairs, at the same coordinates; the
   * tolerant mode records the normalised submitted value where the plain mode records the raw one.
   */
  lemma ToleranceModesAgree(plain: seq<ErrorDetail>, tolerant: seq<ErrorDetail>,
                            gs: seq<MessageGroup>, ref: map<int, MessageGroup>, total: nat)
    requires IsDiff(plain, IndexMap(gs), ref, total)
    requires IsDiff(tolerant, IndexMap(NormalizedGroups(gs)), ref, total)
    ensures |plain| == |tolerant|
    ensures forall i :: 0 <= i < |plain| ==>
      && tolerant[i].globalIndex == plain[i].globalIndex
      && tolerant[i].kind == plain[i].kind
      && tolerant[i].(submittedValue := plain[i].submittedValue) == plain[i]
  {
    var pm, tm := IndexMap(gs), IndexMap(NormalizedGroups(gs));
    IndexMapNormalized(gs);
    assert Indices(plain) == Indices(tolerant) by {
      forall idx ensures idx in ErrorIndices(pm, ref, total) <==> idx in ErrorIndices(tm, ref, total) {
        ErrorIndicesExact(pm, ref, total, idx);
        ErrorIndicesExact(tm, ref, total, idx);
        ToleranceSameVerdicts(pm, tm, ref, total, idx);
      }
    }
    SameIndicesAligned(plain, tolerant);
    forall i | 0 <= i < |plain|
      ensures tolerant[i].kind == plain[i].kind && tolerant[i].(submittedValue := plain[i].submittedValue) == plain[i]
    {
      ToleranceSameVerdicts(pm, tm, ref, total, plain[i].globalIndex);
    }
  }

  /** In a grid whose indices are 0..n-1 in order, compared with itself, no index has an error. */
  lemma SelfErrorFree(gs: seq<MessageGroup>, idx: int)
    requires forall i :: 0 <= i < |gs| ==> gs[i].globalIndex == i
    ensures ErrorAt(IndexMap(gs), IndexMap(gs), |gs|, idx) == None
  {
    var m := IndexMap(gs);
    if 0 <= idx < |gs| {
      assert gs[idx] in gs;
    } else if idx >= |gs| {
      assert idx !in m;
    }
  }

  /** A grid whose indices are 0..n-1 in order, compared with itself, has no errors. */
  lemma SelfCompareClean(gs: seq<MessageGroup>, errors: seq<ErrorDetail>)
    requires forall i :: 0 <= i < |gs| ==> gs[i].globalIndex == i
    requires IsDiff(errors, IndexMap(gs), IndexMap(gs), |gs|)
    ensures errors == []
  {
    if errors != [] {
      assert errors[0] in errors;
      SelfErrorFree(gs, errors[0].globalIndex);
    }
  }
}
