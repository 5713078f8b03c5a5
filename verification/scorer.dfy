/**
 * The scorer: a floored linear deduction per error, a per-kind weighted deduction, the letter
 * grade of a score and the feedback sentence shown with it. Scores are exact reals.
 */
module Scorer {
  import opened Text
  import opened Models
  import Config

  /** The scoring parameters a scorer is built with. */
  datatype Scorer = Scorer(totalScore: real, deductPerError: real)

  /** The scorer built with the default parameters: 100 points, 1 point per error. */
  function DefaultScorer(): Scorer {
    Scorer(Config.TotalScore, Config.DeductPerError)
  }

  /** The larger of 0 and `x`. */
  function AtLeastZero(x: real): (r: real)
    ensures r >= 0.0 && r >= x
    ensures r == 0.0 || r == x
  {
    if x > 0.0 then x else 0.0
  }

  /** `count` deductions of `per` points each, summed one at a time. */
  function Times(count: nat, per: real): real {
    if count == 0 then 0.0 else Times(count - 1, per) + per
  }

  /** The summed deductions are the product of the count and the deduction. */
  lemma {:induction false} TimesIsProduct(count: nat, per: real)
    ensures Times(count, per) == count as real * per
  {
    if count > 0 {
      TimesIsProduct(count - 1, per);
      assert (count - 1) as real * per + per == count as real * per;
    }
  }

  /** Deductions for two counts add up to the deductions for their sum. */
  lemma {:induction false} TimesAdd(a: nat, b: nat, per: real)
    ensures Times(a, per) + Times(b, per) == Times(a + b, per)
  {
    if b > 0 {
      TimesAdd(a, b - 1, per);
    }
  }

  /** With a non-negative deduction, more errors deduct no less. */
  lemma {:induction false} TimesMonotone(a: nat, b: nat, per: real)
    requires a <= b && per >= 0.0
    ensures Times(a, per) <= Times(b, per)
  {
    if a < b {
      TimesMonotone(a, b - 1, per);
    }
  }

  /** A smaller deduction per error deducts no more in total. */
  lemma {:induction false} TimesRate(count: nat, lo: real, hi: real)
    requires lo <= hi
    ensures Times(count, lo) <= Times(count, hi)
  {
    if count > 0 {
      TimesRate(count - 1, lo, hi);
    }
  }

  // ---------------------------------------------------------------------------
  // Flat score
  // ---------------------------------------------------------------------------

  /**
   * The score: the full marks less one deduction per error, floored at 0. The group total is
   * accepted and ignored.
   */
  function CalculateScore(scorer: Scorer, errors: seq<ErrorDetail>, totalGroups: int): (score: real)
    ensures score >= 0.0
    ensures score >= scorer.totalScore - Times(|errors|, scorer.deductPerError)
    ensures score == 0.0 || score == scorer.totalScore - Times(|errors|, scorer.deductPerError)
  {
    AtLeastZero(scorer.totalScore - Times(|errors|, scorer.deductPerError))
  }

  /** With a non-negative deduction, more errors never give a higher score. */
  lemma ScoreNonIncreasing(scorer: Scorer, fewer: seq<ErrorDetail>, more: seq<ErrorDetail>, t1: int, t2: int)
    requires scorer.deductPerError >= 0.0 && |fewer| <= |more|
    ensures CalculateScore(scorer, fewer, t1) >= CalculateScore(scorer, more, t2)
  {
    TimesMonotone(|fewer|, |more|, scorer.deductPerError);
  }

  /** With the default parameters, three errors score 97. */
  lemma DefaultScoreThreeErrors(errors: seq<ErrorDetail>, totalGroups: int)
    requires |errors| == 3
    ensures CalculateScore(DefaultScorer(), errors, totalGroups) == 97.0
  {
  }

  // ---------------------------------------------------------------------------
  // Score by kind
  // ---------------------------------------------------------------------------

  /** What an extra group costs, whatever the per-error deduction. */
  const ExtraDeduction: real := 0.5

  /** The number of errors of each counted kind. */
  datatype KindCounts = KindCounts(mismatch: nat, missing: nat, extra: nat)

  /** The points deducted for each counted kind. */
  datatype Deductions = Deductions(mismatch: real, missing: real, extra: real)

  /** The score by kind: full marks, counts, deductions, their total and the floored final score. */
  datatype ScoreBreakdown = ScoreBreakdown(
    totalScore: real,
    errorCounts: KindCounts,
    deductions: Deductions,
    totalDeduction: real,
    finalScore: real)

  /** How many of the first `n` errors are of kind `kind`. */
  function CountOf(errors: seq<ErrorDetail>, n: nat, kind: ErrorKind): (c: nat)
    requires n <= |errors|
    ensures c <= n
  {
    if n == 0 then 0
    else CountOf(errors, n - 1, kind) + (if errors[n - 1].kind == kind then 1 else 0)
  }

  /** The counts of the three kinds the scorer knows among `errors`; any other kind name is ignored. */
  function KindCountsOf(errors: seq<ErrorDetail>): KindCounts {
    KindCounts(CountOf(errors, |errors|, Mismatch), CountOf(errors, |errors|, Missing), CountOf(errors, |errors|, Extra))
  }

  /**
   * Together the three counts never exceed the number of errors, and they account for every
   * error when each error is of one of the three kinds.
   */
  lemma {:induction false} CountsBounded(errors: seq<ErrorDetail>, n: nat)
    requires n <= |errors|
    ensures CountOf(errors, n, Mismatch) + CountOf(errors, n, Missing) + CountOf(errors, n, Extra) <= n
    ensures (forall i :: 0 <= i < n ==> !errors[i].kind.Other?) ==>
      CountOf(errors, n, Mismatch) + CountOf(errors, n, Missing) + CountOf(errors, n, Extra) == n
  {
    if n > 0 {
      CountsBounded(errors, n - 1);
    }
  }

  /** Walks the errors once, counting each of the three known kinds. */
  method CountKinds(errors: seq<ErrorDetail>) returns (counts: KindCounts)
    ensures counts == KindCountsOf(errors)
  {
    counts := KindCounts(0, 0, 0);
    for i := 0 to |errors|
      invariant counts == KindCounts(CountOf(errors, i, Mismatch), CountOf(errors, i, Missing), CountOf(errors, i, Extra))
    {
      match errors[i].kind
      case Mismatch => counts := counts.(mismatch := counts.mismatch + 1);
      case Missing => counts := counts.(missing := counts.missing + 1);
      case Extra => counts := counts.(extra := counts.extra + 1);
      case Other(_) =>
    }
  }

  /** The deductions and final score for the given counts. */
  function Breakdown(scorer: Scorer, counts: KindCounts): (b: ScoreBreakdown)
    ensures b.totalScore == scorer.totalScore && b.errorCounts == counts
    ensures b.finalScore >= 0.0 && b.finalScore >= b.totalScore - b.totalDeduction
    ensures b.finalScore == 0.0 || b.finalScore == b.totalScore - b.totalDeduction
    ensures b.totalDeduction == b.deductions.mismatch + b.deductions.missing + b.deductions.extra
  {
    var deductions := Deductions(
      Times(counts.mismatch, scorer.deductPerError),
      Times(counts.missing, scorer.deductPerError),
      Times(counts.extra, ExtraDeduction));
    var totalDeduction := deductions.mismatch + deductions.missing + deductions.extra;
    ScoreBreakdown(scorer.totalScore, counts, deductions, totalDeduction,
                   AtLeastZero(scorer.totalScore - totalDeduction))
  }

  /**
   * A mismatch or a missing group costs the per-error deduction and an extra group costs half a
   * point, so each kind's deduction is its count times its cost.
   */
  lemma BreakdownDeductions(scorer: Scorer, counts: KindCounts)
    ensures Breakdown(scorer, counts).deductions == Deductions(
      counts.mismatch as real * scorer.deductPerError,
      counts.missing as real * scorer.deductPerError,
      counts.extra as real * ExtraDeduction)
  {
    TimesIsProduct(counts.mismatch, scorer.deductPerError);
    TimesIsProduct(counts.missing, scorer.deductPerError);
    TimesIsProduct(counts.extra, ExtraDeduction);
  }

  /** The score by kind: counts the kinds in one pass, then deducts per kind. */
  method CalculateScoreByType(scorer: Scorer, errors: seq<ErrorDetail>) returns (b: ScoreBreakdown)
    ensures b == Breakdown(scorer, KindCountsOf(errors))
    ensures b.errorCounts.mismatch + b.errorCounts.missing + b.errorCounts.extra <= |errors|
    ensures b.finalScore >= 0.0
  {
    var counts := CountKinds(errors);
    CountsBounded(errors, |errors|);
    b := Breakdown(scorer, counts);
  }

  /** The points one error of kind `k` costs under the score by kind; unknown kinds cost nothing. */
  function KindCost(scorer: Scorer, k: ErrorKind): real {
    match k
    case Mismatch => scorer.deductPerError
    case Missing => scorer.deductPerError
    case Extra => ExtraDeduction
    case Other(_) => 0.0
  }

  /** The summed cost of the first `n` errors, one error at a time. */
  function CostOf(scorer: Scorer, errors: seq<ErrorDetail>, n: nat): real
    requires n <= |errors|
  {
    if n == 0 then 0.0 else CostOf(scorer, errors, n - 1) + KindCost(scorer, errors[n - 1].kind)
  }

  /** The total deduction by kind is what the errors cost one by one. */
  lemma {:induction false} DeductionIsPerErrorCost(scorer: Scorer, errors: seq<ErrorDetail>, n: nat)
    requires n <= |errors|
    ensures CostOf(scorer, errors, n) ==
      Breakdown(scorer, KindCounts(CountOf(errors, n, Mismatch), CountOf(errors, n, Missing), CountOf(errors, n, Extra))).totalDeduction
  {
    if n > 0 {
      DeductionIsPerErrorCost(scorer, errors, n - 1);
    }
  }

  /** When every error is a mismatch or a missing group, the score by kind is the flat score. */
  lemma ByTypeMatchesFlat(scorer: Scorer, errors: seq<ErrorDetail>, totalGroups: int)
    requires forall i :: 0 <= i < |errors| ==> errors[i].kind == Mismatch || errors[i].kind == Missing
    ensures Breakdown(scorer, KindCountsOf(errors)).finalScore == CalculateScore(scorer, errors, totalGroups)
  {
    var c := KindCountsOf(errors);
    CountsBounded(errors, |errors|);
    NoExtras(errors, |errors|);
    TimesAdd(c.mismatch, c.missing, scorer.deductPerError);
  }

  /** Among errors that are all mismatches or missing groups, none is counted as extra. */
  lemma {:induction false} NoExtras(errors: seq<ErrorDetail>, n: nat)
    requires n <= |errors|
    requires forall i :: 0 <= i < n ==> errors[i].kind == Mismatch || errors[i].kind == Missing
    ensures CountOf(errors, n, Extra) == 0
  {
    if n > 0 {
      NoExtras(errors, n - 1);
    }
  }

  /**
   * When an error costs at least half a point, the score by kind is never below the flat score:
   * an extra group costs at most what any error costs there, and unknown kinds cost nothing.
   */
  lemma ByTypeNotBelowFlat(scorer: Scorer, errors: seq<ErrorDetail>, totalGroups: int)
    requires scorer.deductPerError >= ExtraDeduction
    ensures Breakdown(scorer, KindCountsOf(errors)).finalScore >= CalculateScore(scorer, errors, totalGroups)
  {
    var c := KindCountsOf(errors);
    CountsBounded(errors, |errors|);
    var d := scorer.deductPerError;
    TimesRate(c.extra, ExtraDeduction, d);
    TimesAdd(c.mismatch, c.missing, d);
    TimesAdd(c.mismatch + c.missing, c.extra, d);
    TimesMonotone(c.mismatch + c.missing + c.extra, |errors|, d);
    var b := Breakdown(scorer, c);
    FloorMonotone(scorer.totalScore - Times(|errors|, d), scorer.totalScore - b.totalDeduction);
  }

  /** Flooring at 0 keeps the order. */
  lemma FloorMonotone(x: real, y: real)
    requires x <= y
    ensures AtLeastZero(x) <= AtLeastZero(y)
  {
  }

  // ---------------------------------------------------------------------------
  // Grade and feedback
  // ---------------------------------------------------------------------------

  /** The letter grades, best first. */
  datatype Grade = A | B | C | D | F

  /** The letter grade of a score: 90 and above A, 80 B, 70 C, 60 D, below 60 F (each bound inclusive). */
  function GetGrade(score: real): (g: Grade)
    ensures g == A <==> score >= 90.0
    ensures g == F <==> score < 60.0
  {
    if score >= 90.0 then A
    else if score >= 80.0 then B
    else if score >= 70.0 then C
    else if score >= 60.0 then D
    else F
  }

  /** The least score that earns a grade. */
  function Threshold(g: Grade): real {
    match g
    case A => 90.0
    case B => 80.0
    case C => 70.0
    case D => 60.0
    case F => 0.0
  }

  /** The rank of a grade: 0 for A, 4 for F. */
  function Rank(g: Grade): nat {
    match g
    case A => 0
    case B => 1
    case C => 2
    case D => 3
    case F => 4
  }

  /** A score earns exactly the best grade whose threshold it reaches. */
  lemma GradeIsBestReached(score: real)
    requires score >= 0.0
    ensures score >= Threshold(GetGrade(score))
    ensures forall g: Grade :: Rank(g) < Rank(GetGrade(score)) ==> score < Threshold(g)
  {
  }

  /** A higher score never earns a worse grade. */
  lemma GradeMonotone(lower: real, higher: real)
    requires lower <= higher
    ensures Rank(GetGrade(higher)) <= Rank(GetGrade(lower))
  {
  }

  /** The feedback for a perfect copy. */
  const PerfectFeedback: string := "完美！零错误，报文抄写完全正确！"
  /** The text that opens the error count. */
  const CountOpen: string := "（共发现 "
  /** The text that closes the error count. */
  const CountClose: string := " 处错误）"

  /** The feedback sentence for each grade. */
  function GradeFeedback(g: Grade): string {
    match g
    case A => "优秀！报文抄写准确度很高，继续保持！"
    case B => "良好！报文抄写基本准确，注意细节即可达到优秀。"
    case C => "中等。报文抄写有一定错误，请仔细核对后重新练习。"
    case D => "及格。报文抄写存在较多错误，建议加强练习。"
    case F => "不及格。报文抄写错误过多，请认真复习后重做。"
  }

  /** The feedback: the perfect message when there is no error, else the grade's sentence and the count. */
  function GetFeedback(score: real, errorCount: int): (r: string)
    ensures errorCount == 0 ==> r == PerfectFeedback
  {
    if errorCount == 0 then PerfectFeedback
    else GradeFeedback(GetGrade(score)) + CountOpen + IntToString(errorCount) + CountClose
  }

  /** The first character of each grade's sentence tells the grade apart from the others and from the perfect message. */
  lemma FeedbackHeads()
    ensures forall g: Grade :: |GradeFeedback(g)| > 0
    ensures forall g, h: Grade :: GradeFeedback(g)[0] == GradeFeedback(h)[0] ==> g == h
    ensures forall g: Grade :: GradeFeedback(g)[0] != PerfectFeedback[0]
  {
  }

  /** Equal suffixes cancel. */
  lemma CancelSuffix(x: string, y: string, z: string)
    requires x + z == y + z
    ensures x == y
  {
    assert |x| == |y|;
    assert x == (x + z)[..|x|];
    assert y == (y + z)[..|y|];
  }

  /** Equal prefixes cancel. */
  lemma CancelPrefix(x: string, y: string, z: string)
    requires z + x == z + y
    ensures x == y
  {
    assert x == (z + x)[|z|..];
    assert y == (z + y)[|z|..];
  }

  /**
   * The feedback for a positive error count can be read back: it names the grade and the count,
   * and no other grade or count gives the same sentence.
   */
  lemma FeedbackReadsBack(s1: real, n1: int, s2: real, n2: int)
    requires n1 > 0 && n2 > 0
    requires GetFeedback(s1, n1) == GetFeedback(s2, n2)
    ensures GetGrade(s1) == GetGrade(s2) && n1 == n2
  {
    var g1, g2 := GetGrade(s1), GetGrade(s2);
    var f := GetFeedback(s1, n1);
    FeedbackHeads();
    assert f[0] == GradeFeedback(g1)[0];
    assert f[0] == GradeFeedback(g2)[0];
    var t1 := CountOpen + NatToString(n1) + CountClose;
    var t2 := CountOpen + NatToString(n2) + CountClose;
    assert f == GradeFeedback(g1) + t1;
    assert f == GradeFeedback(g1) + t2;
    CancelPrefix(t1, t2, GradeFeedback(g1));
    assert t1 == CountOpen + (NatToString(n1) + CountClose);
    assert t2 == CountOpen + (NatToString(n2) + CountClose);
    CancelPrefix(NatToString(n1) + CountClose, NatToString(n2) + CountClose, CountOpen);
    CancelSuffix(NatToString(n1), NatToString(n2), CountClose);
    DecimalRoundTrip(n1);
    DecimalRoundTrip(n2);
  }

  /**
   * With errors present the feedback opens with the sentence of the score's grade, and a positive
   * count follows it in decimal between the count's opening and closing text.
   */
  lemma FeedbackWithErrors(score: real, errorCount: int)
    requires errorCount != 0
    ensures StartsWith(GetFeedback(score, errorCount), GradeFeedback(GetGrade(score)))
    ensures errorCount > 0 ==> exists digits: string ::
      && AllDigits(digits)
      && GetFeedback(score, errorCount) == GradeFeedback(GetGrade(score)) + CountOpen + digits + CountClose
      && DecimalValue(digits) == errorCount
  {
    var head := GradeFeedback(GetGrade(score));
    var f := GetFeedback(score, errorCount);
    var rest := CountOpen + IntToString(errorCount) + CountClose;
    assert f == head + rest;
    assert f[..|head|] == head;
    if errorCount > 0 {
      var digits := NatToString(errorCount);
      DecimalRoundTrip(errorCount);
      assert f == head + CountOpen + digits + CountClose;
    }
  }

  /** A perfect copy always gets the perfect message; any error gets a graded message instead. */
  lemma FeedbackPerfectOnlyWithoutErrors(score: real, errorCount: int)
    ensures GetFeedback(score, errorCount) == PerfectFeedback <==> errorCount == 0
  {
    if errorCount != 0 {
      FeedbackHeads();
      var g := GetGrade(score);
      assert GetFeedback(score, errorCount)[0] == GradeFeedback(g)[0];
    }
  }
}
