/** The mean depth recorded in a mosdepth `*.mosdepth.summary.txt` file, given
    as its lines. */
module DepthSummary {
  import opened Wrappers
  import opened Text
  import opened Numbers
  import opened Fields

  /** Label of the summary row that covers the whole region set. */
  const TotalRegionLabel: string := "total_region"

  /** Column of the mean depth in a summary row. */
  const MeanDepthColumn: nat := 3

  predicate IsTotalRow(line: string) {
    StartsWith(line, TotalRegionLabel)
  }

  /** The mean depth of a summary file: field 3 of the FIRST line that starts
      with `total_region`, or 0.0 when no line does. */
  function MeanDepth(summary: seq<string>, toFloat: FloatParser): (r: Result<real, PyError>)
    ensures (forall i | 0 <= i < |summary| :: !IsTotalRow(summary[i])) ==> r == Success(0.0)
    ensures forall i | 0 <= i < |summary| && IsTotalRow(summary[i]) ::
              (forall j | 0 <= j < i :: !IsTotalRow(summary[j])) ==>
                r == RealField(Tokens(summary[i]), MeanDepthColumn, toFloat)
    decreases |summary|
  {
    if |summary| == 0 then Success(0.0)
    else if IsTotalRow(summary[0]) then RealField(Tokens(summary[0]), MeanDepthColumn, toFloat)
    else MeanDepth(summary[1..], toFloat)
  }

  /** Lines after the first `total_region` line are never looked at. */
  lemma {:induction false} MeanDepthIgnoresLaterLines(summary: seq<string>, rest: seq<string>, toFloat: FloatParser)
    requires exists i | 0 <= i < |summary| :: IsTotalRow(summary[i])
    ensures MeanDepth(summary + rest, toFloat) == MeanDepth(summary, toFloat)
    decreases |summary|
  {
    if !IsTotalRow(summary[0]) {
      assert (summary + rest)[1..] == summary[1..] + rest;
      var i :| 0 <= i < |summary| && IsTotalRow(summary[i]);
      assert IsTotalRow(summary[1..][i - 1]);
      MeanDepthIgnoresLaterLines(summary[1..], rest, toFloat);
    }
  }

  lemma LabelIsWord()
    ensures IsWord(TotalRegionLabel)
  {
    var w := TotalRegionLabel;
    assert forall k | 0 <= k < |w| :: 'a' <= w[k] <= 'z' || w[k] == '_';
  }

  /** A summary row `total_region 0 1000 <depth>` yields the value of its
      depth token (e.g. 42.5 for "42.5"), whatever else the file holds below. */
  lemma MeanDepthOfTotalRow(depth: string, value: real, rest: seq<string>, toFloat: FloatParser)
    requires IsWord(depth) && toFloat(depth) == Some(value)
    ensures MeanDepth([SummaryRow(depth)] + rest, toFloat) == Success(value)
  {
    SummaryRowTokens(depth);
    assert ([SummaryRow(depth)] + rest)[0] == SummaryRow(depth);
  }

  function SummaryRow(depth: string): string {
    TabLine([TotalRegionLabel, "0", "1000", depth])
  }

  lemma SummaryRowTokens(depth: string)
    requires IsWord(depth)
    ensures IsTotalRow(SummaryRow(depth))
    ensures Tokens(SummaryRow(depth)) == [TotalRegionLabel, "0", "1000", depth]
  {
    var fields := [TotalRegionLabel, "0", "1000", depth];
    StripThenSplit(SummaryRow(depth));
    LabelIsWord();
    PrintableWord("0");
    PrintableWord("1000");
    SplitTabLine(fields);
  }
}
