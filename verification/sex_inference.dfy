/** Genetic sex from the mean depths of chromosomes X and Y, each read from
    its own mosdepth summary file. */
module SexInference {
  import opened Wrappers
  import opened Numbers
  import opened DepthSummary

  datatype Sex = ProbablyFemale | ProbablyMale | Indeterminate

  /** Below this Y depth the call is female, whatever the X depth. */
  const FemaleMaxYDepth: real := 1.0

  /** Below this relative X/Y difference the call is male. */
  const MaleMaxRelativeDifference: real := 0.5

  /** The text the pipeline prints for each call; the model returns the call
      itself, so nothing else refers to this. */
  function Label(s: Sex): string {
    match s
    case ProbablyFemale => "Provavelmente feminino (XX)"
    case ProbablyMale => "Provavelmente masculino (XY)"
    case Indeterminate => "Indeterminado ou dados inconsistentes"
  }

  function Abs(x: real): real {
    if x < 0.0 then -x else x
  }

  function Max(a: real, b: real): real {
    if a >= b then a else b
  }

  /** `abs(x - y) / max(x, y)`; only evaluated once `y >= 1`. It is never
      negative, it is zero exactly when the depths are equal, and for two
      depths (never negative) it is at most 1. */
  function RelativeDifference(x: real, y: real): (d: real)
    requires Max(x, y) > 0.0
    ensures d >= 0.0
    ensures d == 0.0 <==> x == y
    ensures x >= 0.0 && y >= 0.0 ==> d <= 1.0
  {
    var m := Max(x, y);
    QuotientBelow(Abs(x - y), m, 0.0);
    QuotientAtMost(Abs(x - y), m, 1.0);
    Abs(x - y) / m
  }

  /** The call, given the two depths. The relative difference is taken only
      when `profY >= 1.0`, so its denominator `max(profX, profY)` is at least
      1 and never zero. Without the division, a male call means the X depth
      lies strictly between half and twice the Y depth. */
  function CallSex(profX: real, profY: real): (s: Sex)
    ensures s == ProbablyFemale <==> profY < 1.0
    ensures s == ProbablyMale <==> profY >= 1.0 && profY / 2.0 < profX < 2.0 * profY
    ensures s == Indeterminate <==> profY >= 1.0 && (profX <= profY / 2.0 || profX >= 2.0 * profY)
  {
    if profY < FemaleMaxYDepth then ProbablyFemale
    else
      RelativeDifferenceBelowHalf(profX, profY);
      if RelativeDifference(profX, profY) < MaleMaxRelativeDifference then ProbablyMale
      else Indeterminate
  }

  /** `|x - y| / max(x, y) < 1/2` holds exactly when `y/2 < x < 2y`. */
  lemma RelativeDifferenceBelowHalf(x: real, y: real)
    requires y >= 1.0
    ensures RelativeDifference(x, y) < 0.5 <==> y / 2.0 < x < 2.0 * y
  {
    if x >= y {
      QuotientBelow(x - y, x, 0.5);
    } else {
      QuotientBelow(y - x, y, 0.5);
    }
  }

  lemma QuotientBelow(d: real, m: real, c: real)
    requires m > 0.0
    ensures d / m < c <==> d < c * m
  {
    var q := d / m;
    assert q * m == d;
    if q < c {
      assert q * m < c * m;
    } else {
      assert q * m >= c * m;
    }
  }

  lemma QuotientAtMost(d: real, m: real, c: real)
    requires m > 0.0
    ensures d / m <= c <==> d <= c * m
  {
    var q := d / m;
    assert q * m == d;
    if q <= c {
      assert q * m <= c * m;
    } else {
      assert q * m > c * m;
    }
  }

  /** The relative difference treats the two chromosomes alike. */
  lemma RelativeDifferenceSymmetric(x: real, y: real)
    requires Max(x, y) > 0.0
    ensures Max(y, x) > 0.0 && RelativeDifference(x, y) == RelativeDifference(y, x)
  {
    assert Max(y, x) == Max(x, y);
    assert Abs(y - x) == Abs(x - y);
  }

  /** `inferir_sexo`: read the X summary, then the Y summary (an error in the
      X file is the one reported), then call. */
  function InferSex(summaryX: seq<string>, summaryY: seq<string>, toFloat: FloatParser): (r: Result<Sex, PyError>)
    ensures MeanDepth(summaryX, toFloat).Failure? ==> r == Failure(MeanDepth(summaryX, toFloat).error)
    ensures MeanDepth(summaryX, toFloat).Success? && MeanDepth(summaryY, toFloat).Failure? ==>
              r == Failure(MeanDepth(summaryY, toFloat).error)
    ensures r.Success? <==> MeanDepth(summaryX, toFloat).Success? && MeanDepth(summaryY, toFloat).Success?
    ensures r.Success? ==> r.value == CallSex(MeanDepth(summaryX, toFloat).value, MeanDepth(summaryY, toFloat).value)
    ensures r.Success? ==> (r.value == ProbablyFemale <==> MeanDepth(summaryY, toFloat).value < FemaleMaxYDepth)
  {
    var profX :- MeanDepth(summaryX, toFloat);
    var profY :- MeanDepth(summaryY, toFloat);
    Success(CallSex(profX, profY))
  }

  /** A Y summary without a `total_region` line reads as depth 0.0 and so
      yields a female call, whatever chromosome X shows, once X reads. */
  lemma MissingYTotalIsFemale(summaryX: seq<string>, summaryY: seq<string>, toFloat: FloatParser)
    requires forall i | 0 <= i < |summaryY| :: !IsTotalRow(summaryY[i])
    ensures InferSex(summaryX, summaryY, toFloat) ==
              match MeanDepth(summaryX, toFloat)
              case Failure(e) => Failure(e)
              case Success(_) => Success(ProbablyFemale)
  {
  }

  /** An X summary without a `total_region` line reads as depth 0.0; with Y
      covered at 1x or more the call is indeterminate, never female. */
  lemma MissingXTotalIsIndeterminate(summaryX: seq<string>, summaryY: seq<string>, toFloat: FloatParser)
    requires forall i | 0 <= i < |summaryX| :: !IsTotalRow(summaryX[i])
    requires MeanDepth(summaryY, toFloat).Success? && MeanDepth(summaryY, toFloat).value >= 1.0
    ensures InferSex(summaryX, summaryY, toFloat) == Success(Indeterminate)
  {
  }

  /** The boundaries are strict: Y depth exactly 1.0 is not female; X exactly
      twice, or exactly half, the Y depth is not male. */
  lemma CallSexBoundaries()
    ensures CallSex(40.0, 0.02) == ProbablyFemale
    ensures CallSex(1.0, 1.0) == ProbablyMale
    ensures CallSex(2.0, 1.0) == Indeterminate
    ensures CallSex(20.0, 40.0) == Indeterminate
    ensures CallSex(0.0, 1.0) == Indeterminate
  {
  }
}
