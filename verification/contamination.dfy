/** The contamination estimate read from VerifyBamID2's `<out>.selfSM`: the
    header line is skipped, and every following line's field 7 is read as
    FREEMIX and classified against the 3% threshold.

    VerifyBamID2 writes the columns `#SEQ_ID RG CHIP_ID #SNPS #READS AVG_DP
    FREEMIX FREELK1 ...`, so FREEMIX is field 6 and field 7 is FREELK1, a
    log-likelihood. The reading of field 7 is modelled as written
    (`ReadFreemix`) and beside it the reading of field 6 (`IntendedReadFreemix`). */
module Contamination {
  import opened Wrappers
  import opened Text
  import opened Numbers
  import opened Fields

  /** The field the code reads as FREEMIX (`cols[7]`). */
  const FreemixColumn: nat := 7

  /** The field that holds FREEMIX in VerifyBamID2's `.selfSM` layout. */
  const SelfSmFreemixField: nat := 6

  /** Above this FREEMIX value contamination is reported as possible. */
  const ContaminationThreshold: real := 0.03

  datatype Verdict = PossibleContamination(freemix: real) | NoClearSign(freemix: real)

  function Classify(freemix: real): (v: Verdict)
    ensures v.freemix == freemix
  {
    if freemix > ContaminationThreshold then PossibleContamination(freemix) else NoClearSign(freemix)
  }

  /** The verdicts printed, one per data line, up to the line (if any) whose
      FREEMIX could not be read, and that line's error. */
  datatype Report = Report(verdicts: seq<Verdict>, failure: Option<PyError>)

  datatype FreemixOutcome = OutputNotFound | Read(report: Report)

  /** The data rows, tokenised, read at `column` in order until one fails. */
  function ClassifyRows(rows: seq<seq<string>>, column: nat, toFloat: FloatParser): (r: Report)
    ensures |r.verdicts| <= |rows|
    ensures forall i | 0 <= i < |r.verdicts| ::
              && RealField(rows[i], column, toFloat) == Success(r.verdicts[i].freemix)
              && r.verdicts[i] == Classify(r.verdicts[i].freemix)
    ensures r.failure.None? <==> |r.verdicts| == |rows|
    ensures r.failure.Some? ==> RealField(rows[|r.verdicts|], column, toFloat) == Failure(r.failure.value)
    decreases |rows|
  {
    if |rows| == 0 then Report([], None)
    else
      match RealField(rows[0], column, toFloat)
      case Failure(e) => Report([], Some(e))
      case Success(freemix) =>
        var rest := ClassifyRows(rows[1..], column, toFloat);
        Report([Classify(freemix)] + rest.verdicts, rest.failure)
  }

  /** `report` is what reading field `column` of each of `lines` in turn
      prints: verdict `i` classifies the value of line `i`, and the reading
      stops at the first line whose field cannot be read, with its error. */
  predicate ReportsLines(lines: seq<string>, column: nat, report: Report, toFloat: FloatParser) {
    && |report.verdicts| <= |lines|
    && (forall i | 0 <= i < |report.verdicts| ::
          && RealField(Tokens(lines[i]), column, toFloat) == Success(report.verdicts[i].freemix)
          && report.verdicts[i] == Classify(report.verdicts[i].freemix))
    && (report.failure.None? <==> |report.verdicts| == |lines|)
    && (report.failure.Some? ==>
          RealField(Tokens(lines[|report.verdicts|]), column, toFloat) == Failure(report.failure.value))
  }

  /** The FREEMIX step of the pipeline as written, reading field 7; `file` is
      `None` when the `.selfSM` output does not exist. An existing but empty
      file makes `next(f)` raise before any line is read. */
  function ReadFreemix(file: Option<seq<string>>, toFloat: FloatParser): (r: FreemixOutcome)
    ensures r == OutputNotFound <==> file.None?
    ensures file == Some([]) ==> r == Read(Report([], Some(StopIteration)))
    ensures file.Some? && |file.value| > 0 ==> r.Read? && ReportsLines(file.value[1..], FreemixColumn, r.report, toFloat)
  {
    match file
    case None => OutputNotFound
    case Some(lines) =>
      if |lines| == 0 then Read(Report([], Some(StopIteration)))
      else
        Read(ClassifyRows(Rows(lines[1..]), FreemixColumn, toFloat))
  }

  /** The same step reading FREEMIX where VerifyBamID2 writes it, field 6. */
  function IntendedReadFreemix(file: Option<seq<string>>, toFloat: FloatParser): (r: FreemixOutcome)
    ensures r == OutputNotFound <==> file.None?
    ensures file == Some([]) ==> r == Read(Report([], Some(StopIteration)))
    ensures file.Some? && |file.value| > 0 ==> r.Read? && ReportsLines(file.value[1..], SelfSmFreemixField, r.report, toFloat)
  {
    match file
    case None => OutputNotFound
    case Some(lines) =>
      if |lines| == 0 then Read(Report([], Some(StopIteration)))
      else
        Read(ClassifyRows(Rows(lines[1..]), SelfSmFreemixField, toFloat))
  }

  /** Contamination is reported exactly above 0.03; 0.03 itself is clean. */
  lemma ThresholdIsStrict(freemix: real)
    ensures Classify(0.03).NoClearSign?
    ensures Classify(freemix).PossibleContamination? <==> freemix > 0.03
  {
  }

  /** A higher FREEMIX never turns a contamination warning into a clean verdict. */
  lemma ClassifyMonotone(f: real, g: real)
    requires f <= g && Classify(f).PossibleContamination?
    ensures Classify(g).PossibleContamination?
  {
  }

  /** The header line is never read. */
  lemma HeaderIgnored(h1: string, h2: string, rows: seq<string>, toFloat: FloatParser)
    ensures ReadFreemix(Some([h1] + rows), toFloat) == ReadFreemix(Some([h2] + rows), toFloat)
  {
    assert ([h1] + rows)[1..] == rows == ([h2] + rows)[1..];
  }

  /** A data line with fewer than eight fields stops the reading with an
      `IndexError`, after the verdicts of the lines before it. */
  lemma {:induction false} ShortRowStops(rows: seq<seq<string>>, k: nat, toFloat: FloatParser)
    requires k < |rows| && |rows[k]| <= FreemixColumn
    requires forall i | 0 <= i < k :: RealField(rows[i], FreemixColumn, toFloat).Success?
    ensures ClassifyRows(rows, FreemixColumn, toFloat) ==
              Report(seq(k, i requires 0 <= i < k => Classify(RealField(rows[i], FreemixColumn, toFloat).value)),
                     Some(IndexError))
    decreases k
  {
    if k > 0 {
      ShortRowStops(rows[1..], k - 1, toFloat);
    }
  }

  /** A `.selfSM` of a header and one data row whose field 7 parses to
      `freemix` yields exactly that row's verdict. */
  lemma SingleRow(header: string, fields: seq<string>, freemix: real, toFloat: FloatParser)
    requires |fields| > FreemixColumn && forall i | 0 <= i < |fields| :: IsWord(fields[i])
    requires toFloat(fields[FreemixColumn]) == Some(freemix)
    ensures ReadFreemix(Some([header, TabLine(fields)]), toFloat) == Read(Report([Classify(freemix)], None))
  {
    SingleRowAt(header, fields, FreemixColumn, freemix, toFloat);
  }

  lemma SingleRowAt(header: string, fields: seq<string>, column: nat, x: real, toFloat: FloatParser)
    requires |fields| > column && forall i | 0 <= i < |fields| :: IsWord(fields[i])
    requires toFloat(fields[column]) == Some(x)
    ensures ClassifyRows(Rows([header, TabLine(fields)][1..]), column, toFloat) == Report([Classify(x)], None)
  {
    var lines := [header, TabLine(fields)];
    assert lines[1..] == [TabLine(fields)];
    TabLineRows(fields);
    assert [fields][1..] == [];
    assert ClassifyRows([fields], column, toFloat) == Report([Classify(x)], None);
  }

  /** A data row in VerifyBamID2's layout whose FREEMIX (field 6) is at most
      0.03 and whose FREELK1 (field 7) is above 0.03: as written the pipeline
      reports possible contamination with the log-likelihood as its value;
      reading field 6 reports no clear sign with the real FREEMIX. */
  lemma FreelkReadAsFreemix(header: string, fields: seq<string>, freemix: real, freelk1: real, toFloat: FloatParser)
    requires |fields| > FreemixColumn && forall i | 0 <= i < |fields| :: IsWord(fields[i])
    requires toFloat(fields[SelfSmFreemixField]) == Some(freemix) && toFloat(fields[FreemixColumn]) == Some(freelk1)
    requires freemix <= ContaminationThreshold < freelk1
    ensures ReadFreemix(Some([header, TabLine(fields)]), toFloat) == Read(Report([PossibleContamination(freelk1)], None))
    ensures IntendedReadFreemix(Some([header, TabLine(fields)]), toFloat) == Read(Report([NoClearSign(freemix)], None))
  {
    SingleRowAt(header, fields, FreemixColumn, freelk1, toFloat);
    SingleRowAt(header, fields, SelfSmFreemixField, freemix, toFloat);
  }
}
