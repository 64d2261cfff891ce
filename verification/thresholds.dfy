/** The percentages of the target footprint covered at 10x and 30x, computed
    from mosdepth's `*.thresholds.bed.gz` table (decompressed into lines):
    header `#chrom start end region 1X 10X 30X`, then one row per region
    holding, per threshold, the number of the region's bases that reach it.

    The source reads column 4 of each row as "the threshold" of the whole
    region and credits the region's full length to the 10x counter when that
    value is at least 10 and to the 30x counter when it is at least 30.
    Column 4 is the 1X base count, so this is modelled as written
    (`Percentages`) and beside it the reading of the 10X and 30X columns that
    the two percentages are named after (`IntendedPercentages`). */
module Thresholds {
  import opened Wrappers
  import opened Text
  import opened Numbers
  import TargetBed

  /** Column read as the region's threshold by the source. */
  const ThresholdColumn: nat := 4

  /** Columns of the 10X and 30X base counts in mosdepth's layout. */
  const Count10xColumn: nat := 5
  const Count30xColumn: nat := 6

  /** What the source takes from one row: `end - start` and `int(cols[4])`. */
  datatype ThresholdRow = ThresholdRow(length: int, threshold: int)

  /** One row as the source reads it: fewer than five fields, or a start, end
      or column 4 that `int()` refuses, and the row is skipped (`None`). */
  function ReadRow(cols: seq<string>): (r: Option<ThresholdRow>)
    ensures r.Some? <==>
              && |cols| >= 5
              && ParseInt(cols[1]).Some? && ParseInt(cols[2]).Some? && ParseInt(cols[ThresholdColumn]).Some?
    ensures r.Some? ==>
              r.value.length == ParseInt(cols[2]).value - ParseInt(cols[1]).value
              && r.value.threshold == ParseInt(cols[ThresholdColumn]).value
  {
    if |cols| < 5 then None
    else
      match (ParseInt(cols[1]), ParseInt(cols[2]), ParseInt(cols[ThresholdColumn]))
      case (Some(start), Some(end), Some(threshold)) => Some(ThresholdRow(end - start, threshold))
      case _ => None
  }

  /** What one row adds to the counter of `depth`. */
  function Contribution(cols: seq<string>, depth: int): int {
    match ReadRow(cols)
    case Some(row) => if row.threshold >= depth then row.length else 0
    case None => 0
  }

  /** The bases credited at `depth`: the lengths of the readable rows whose
      threshold is at least `depth`. */
  function CoveredAt(rows: seq<seq<string>>, depth: int): int {
    if |rows| == 0 then 0
    else CoveredAt(rows[..|rows| - 1], depth) + Contribution(rows[|rows| - 1], depth)
  }

  /** The lengths of the readable rows whose threshold lies in `[lo, hi)`. */
  function CoveredBetween(rows: seq<seq<string>>, lo: int, hi: int): int {
    if |rows| == 0 then 0
    else
      var last := ReadRow(rows[|rows| - 1]);
      CoveredBetween(rows[..|rows| - 1], lo, hi)
        + (if last.Some? && lo <= last.value.threshold < hi then last.value.length else 0)
  }

  /** `100 * covered / total` with Python's true division, taken exactly. */
  function Percent(covered: int, total: int): real
    requires total != 0
  {
    (100 * covered) as real / total as real
  }

  /** `calcular_percentuais`: skip the first line, credit every other row,
      divide both counters by the BED footprint. An empty file makes
      `next(f)` raise before anything else; a zero footprint makes the
      division raise once all rows are read. */
  function Percentages(lines: seq<string>, bedTotalBases: int): (r: Result<(real, real), PyError>)
    ensures r == Failure(StopIteration) <==> |lines| == 0
    ensures r == Failure(ZeroDivisionError) <==> |lines| > 0 && bedTotalBases == 0
    ensures r.Success? <==> |lines| > 0 && bedTotalBases != 0
  {
    if |lines| == 0 then Failure(StopIteration)
    else if bedTotalBases == 0 then Failure(ZeroDivisionError)
    else
      var rows := Rows(lines[1..]);
      Success((Percent(CoveredAt(rows, 10), bedTotalBases), Percent(CoveredAt(rows, 30), bedTotalBases)))
  }

  /** The source's single pass: for every row after the header, add its
      length to `cov10` when its threshold is at least 10 and to `cov30` when
      it is at least 30. Tokenising is pure, so the lines are tokenised up
      front and counted by `CountRows`. */
  method CountCoverage(lines: seq<string>) returns (cov10: int, cov30: int)
    ensures cov10 == CoveredAt(Rows(lines), 10)
    ensures cov30 == CoveredAt(Rows(lines), 30)
  {
    cov10, cov30 := CountRows(Rows(lines));
  }

  method CountRows(rows: seq<seq<string>>) returns (cov10: int, cov30: int)
    ensures cov10 == CoveredAt(rows, 10)
    ensures cov30 == CoveredAt(rows, 30)
  {
    cov10, cov30 := 0, 0;
    var i := 0;
    while i < |rows|
      invariant 0 <= i <= |rows|
      invariant cov10 == CoveredAt(rows[..i], 10)
      invariant cov30 == CoveredAt(rows[..i], 30)
    {
      assert rows[..i + 1][..i] == rows[..i];
      var row := ReadRow(rows[i]);
      if row.Some? {
        if row.value.threshold >= 10 {
          cov10 := cov10 + row.value.length;
        }
        if row.value.threshold >= 30 {
          cov30 := cov30 + row.value.length;
        }
      }
      i := i + 1;
    }
    assert rows[..i] == rows;
  }

  /** `calcular_percentuais` over the lines of the decompressed table. */
  method CalcPercentages(lines: seq<string>, bedTotalBases: int) returns (r: Result<(real, real), PyError>)
    ensures r == Percentages(lines, bedTotalBases)
  {
    if |lines| == 0 {
      return Failure(StopIteration);
    }
    var cov10, cov30 := CountCoverage(lines[1..]);
    if bedTotalBases == 0 {
      return Failure(ZeroDivisionError);
    }
    return Success((Percent(cov10, bedTotalBases), Percent(cov30, bedTotalBases)));
  }

  // ---------------------------------------------------------------------------
  // Properties of the counters

  lemma {:induction false} CoveredAppend(a: seq<seq<string>>, b: seq<seq<string>>, depth: int)
    ensures CoveredAt(a + b, depth) == CoveredAt(a, depth) + CoveredAt(b, depth)
    decreases |b|
  {
    if |b| == 0 {
      assert a + b == a;
    } else {
      var b' := b[..|b| - 1];
      assert (a + b)[..|a + b| - 1] == a + b';
      assert (a + b)[|a + b| - 1] == b[|b| - 1];
      CoveredAppend(a, b', depth);
    }
  }

  /** A row that cannot be read, or whose threshold is below `depth`, adds
      nothing to the counter of `depth`, wherever it stands. */
  lemma SkippedRowAddsNothing(a: seq<seq<string>>, cols: seq<string>, b: seq<seq<string>>, depth: int)
    requires ReadRow(cols).None? || ReadRow(cols).value.threshold < depth
    ensures CoveredAt(a + [cols] + b, depth) == CoveredAt(a + b, depth)
  {
    CoveredAppend(a + [cols], b, depth);
    CoveredAppend(a, [cols], depth);
    CoveredAppend(a, b, depth);
    assert [cols][..0] == [];
  }

  /** The counters are nested: the rows credited at `hi` are credited at
      `lo <= hi` with the same length, and the rest of the `lo` counter is the
      rows whose threshold lies in `[lo, hi)`. For 10 and 30: every row added
      to `cov30` is added to `cov10` too. */
  lemma {:induction false} CoveredSplit(rows: seq<seq<string>>, lo: int, hi: int)
    requires lo <= hi
    ensures CoveredAt(rows, lo) == CoveredAt(rows, hi) + CoveredBetween(rows, lo, hi)
    decreases |rows|
  {
    if |rows| > 0 {
      CoveredSplit(rows[..|rows| - 1], lo, hi);
    }
  }

  /** No readable row has `end < start`. */
  predicate NonNegativeLengths(rows: seq<seq<string>>) {
    forall i | 0 <= i < |rows| :: ReadRow(rows[i]).Some? ==> ReadRow(rows[i]).value.length >= 0
  }

  lemma {:induction false} CoveredBetweenNonNegative(rows: seq<seq<string>>, lo: int, hi: int)
    requires NonNegativeLengths(rows)
    ensures CoveredBetween(rows, lo, hi) >= 0 && CoveredAt(rows, lo) >= 0
    decreases |rows|
  {
    if |rows| > 0 {
      var prefix := rows[..|rows| - 1];
      assert forall i | 0 <= i < |prefix| :: prefix[i] == rows[i];
      CoveredBetweenNonNegative(prefix, lo, hi);
    }
  }

  /** Without reversed intervals, a higher depth never credits more bases.
      A reversed interval (negative length) can break this. */
  lemma CoveredMonotone(rows: seq<seq<string>>, lo: int, hi: int)
    requires lo <= hi && NonNegativeLengths(rows)
    ensures 0 <= CoveredAt(rows, hi) <= CoveredAt(rows, lo)
  {
    CoveredSplit(rows, lo, hi);
    CoveredBetweenNonNegative(rows, lo, hi);
    CoveredBetweenNonNegative(rows, hi, hi);
  }

  /** Over a positive footprint and without reversed intervals, both
      percentages are non-negative and the 30x one never exceeds the 10x one. */
  lemma PercentagesOrdered(lines: seq<string>, bedTotalBases: int)
    requires |lines| > 0 && bedTotalBases > 0
    requires NonNegativeLengths(Rows(lines[1..]))
    ensures Percentages(lines, bedTotalBases).Success?
    ensures 0.0 <= Percentages(lines, bedTotalBases).value.1 <= Percentages(lines, bedTotalBases).value.0
  {
    var rows := Rows(lines[1..]);
    CoveredMonotone(rows, 10, 30);
    PercentMonotone(CoveredAt(rows, 30), CoveredAt(rows, 10), bedTotalBases);
  }

  /** Every row of the table reads as a BED interval, none of them reversed. */
  predicate ForwardIntervals(rows: seq<seq<string>>) {
    forall i | 0 <= i < |rows| :: TargetBed.FieldSpan(rows[i]).Success? && TargetBed.FieldSpan(rows[i]).value >= 0
  }

  /** A row never credits more than its own span. */
  lemma ContributionWithinSpan(cols: seq<string>, depth: int)
    requires TargetBed.FieldSpan(cols).Success? && TargetBed.FieldSpan(cols).value >= 0
    ensures 0 <= Contribution(cols, depth) <= TargetBed.FieldSpan(cols).value
  {
  }

  /** The bases credited at any depth lie between 0 and the table's own
      footprint, the sum of its rows' spans. */
  lemma {:induction false} CoveredWithinFootprint(rows: seq<seq<string>>, depth: int)
    requires ForwardIntervals(rows)
    ensures TargetBed.BedBases(rows).Success?
    ensures 0 <= CoveredAt(rows, depth) <= TargetBed.BedBases(rows).value
    decreases |rows|
  {
    if |rows| > 0 {
      var prefix := rows[..|rows| - 1];
      assert forall i | 0 <= i < |prefix| :: prefix[i] == rows[i];
      CoveredWithinFootprint(prefix, depth);
      ContributionWithinSpan(rows[|rows| - 1], depth);
    }
  }

  /** When the table's regions are forward intervals spanning at most the BED
      footprint, `0 <= pct30 <= pct10 <= 100`. */
  lemma PercentagesBounded(lines: seq<string>, bedTotalBases: int)
    requires |lines| > 0 && ForwardIntervals(Rows(lines[1..]))
    requires TargetBed.BedBases(Rows(lines[1..])).Success?
    requires 0 < TargetBed.BedBases(Rows(lines[1..])).value <= bedTotalBases
    ensures Percentages(lines, bedTotalBases).Success?
    ensures var (p10, p30) := Percentages(lines, bedTotalBases).value;
            0.0 <= p30 <= p10 <= 100.0
  {
    var rows := Rows(lines[1..]);
    assert NonNegativeLengths(rows) by {
      forall i | 0 <= i < |rows| && ReadRow(rows[i]).Some?
        ensures ReadRow(rows[i]).value.length >= 0
      {
        ContributionWithinSpan(rows[i], ReadRow(rows[i]).value.threshold);
      }
    }
    PercentagesOrdered(lines, bedTotalBases);
    CoveredWithinFootprint(rows, 10);
    PercentMonotone(CoveredAt(rows, 10), bedTotalBases, bedTotalBases);
    PercentOfWhole(bedTotalBases);
  }

  lemma PercentMonotone(a: int, b: int, total: int)
    requires 0 <= a <= b && total > 0
    ensures 0.0 <= Percent(a, total) <= Percent(b, total)
  {
    var x, y, t := (100 * a) as real, (100 * b) as real, total as real;
    assert 0.0 <= x <= y && t > 0.0;
    assert x / t >= 0.0;
    assert y / t - x / t == (y - x) / t;
    assert (y - x) / t >= 0.0;
  }

  lemma PercentOfWhole(total: int)
    requires total != 0
    ensures Percent(total, total) == 100.0
  {
    var t := total as real;
    assert (100 * total) as real == 100.0 * t;
    assert (100.0 * t) / t == 100.0;
  }

  /** The header line is never read: any first line gives the same result. */
  lemma HeaderIgnored(h1: string, h2: string, rows: seq<string>, bedTotalBases: int)
    ensures Percentages([h1] + rows, bedTotalBases) == Percentages([h2] + rows, bedTotalBases)
  {
    assert ([h1] + rows)[1..] == rows == ([h2] + rows)[1..];
  }

  // ---------------------------------------------------------------------------
  // Rows written in mosdepth's layout

  /** A thresholds row for region `target` on chr1 with the given bounds and
      1X, 10X and 30X base counts. */
  function MosdepthRow(start: int, end: int, at1: int, at10: int, at30: int): string {
    TabLine(["chr1", ShowInt(start), ShowInt(end), "target", ShowInt(at1), ShowInt(at10), ShowInt(at30)])
  }

  lemma MosdepthRowTokens(start: int, end: int, at1: int, at10: int, at30: int)
    ensures Tokens(MosdepthRow(start, end, at1, at10, at30))
         == ["chr1", ShowInt(start), ShowInt(end), "target", ShowInt(at1), ShowInt(at10), ShowInt(at30)]
  {
    var fields := ["chr1", ShowInt(start), ShowInt(end), "target", ShowInt(at1), ShowInt(at10), ShowInt(at30)];
    PrintableWord("chr1");
    PrintableWord("target");
    ShowIntIsWord(start);
    ShowIntIsWord(end);
    ShowIntIsWord(at1);
    ShowIntIsWord(at10);
    ShowIntIsWord(at30);
    StripThenSplit(TabLine(fields));
    SplitTabLine(fields);
  }

  /** The source reads a mosdepth row as its length and its 1X count. */
  lemma ReadMosdepthRow(start: int, end: int, at1: int, at10: int, at30: int)
    ensures ReadRow(Tokens(MosdepthRow(start, end, at1, at10, at30))) == Some(ThresholdRow(end - start, at1))
  {
    MosdepthRowTokens(start, end, at1, at10, at30);
    ParseShowInt(start);
    ParseShowInt(end);
    ParseShowInt(at1);
  }

  /** A table of a header and one row. */
  lemma SingleRowTable(header: string, line: string, bedTotalBases: int)
    requires bedTotalBases != 0
    ensures Percentages([header, line], bedTotalBases)
         == Success((Percent(Contribution(Tokens(line), 10), bedTotalBases),
                     Percent(Contribution(Tokens(line), 30), bedTotalBases)))
  {
    var lines := [header, line];
    assert lines[1..] == [line];
    var rows := Rows(lines[1..]);
    assert rows == [Tokens(line)];
    assert rows[..0] == [];
    assert CoveredAt(rows, 10) == Contribution(Tokens(line), 10);
    assert CoveredAt(rows, 30) == Contribution(Tokens(line), 30);
  }

  /** A single region of `n >= 30` bases, every base covered at 30x, over a
      footprint of `n` bases gives 100% at both depths. (Below 30 bases the
      source's reading of the 1X column no longer gives 100%.) */
  lemma FullCoverage(header: string, n: int)
    requires n >= 30
    ensures Percentages([header, MosdepthRow(0, n, n, n, n)], n) == Success((100.0, 100.0))
  {
    SingleRowTable(header, MosdepthRow(0, n, n, n, n), n);
    ReadMosdepthRow(0, n, n, n, n);
    PercentOfWhole(n);
  }

  // ---------------------------------------------------------------------------
  // The 10X and 30X columns

  /** The 10X and 30X base counts of a row. */
  datatype DepthCounts = DepthCounts(at10: int, at30: int)

  /** One row read by its 10X and 30X columns, skipped when it has too few
      fields or a count `int()` refuses. Unlike `ReadRow` it never reads the
      start and end columns, so a row with unreadable bounds still counts. */
  function ReadCounts(cols: seq<string>): (r: Option<DepthCounts>)
    ensures r.Some? <==>
              |cols| > Count30xColumn && ParseInt(cols[Count10xColumn]).Some? && ParseInt(cols[Count30xColumn]).Some?
  {
    if |cols| <= Count30xColumn then None
    else
      match (ParseInt(cols[Count10xColumn]), ParseInt(cols[Count30xColumn]))
      case (Some(at10), Some(at30)) => Some(DepthCounts(at10, at30))
      case _ => None
  }

  function CountTotals(rows: seq<seq<string>>): DepthCounts {
    if |rows| == 0 then DepthCounts(0, 0)
    else
      var t := CountTotals(rows[..|rows| - 1]);
      match ReadCounts(rows[|rows| - 1])
      case Some(c) => DepthCounts(t.at10 + c.at10, t.at30 + c.at30)
      case None => t
  }

  /** The percentages of the footprint's bases that reach 10x and 30x. */
  function IntendedPercentages(lines: seq<string>, bedTotalBases: int): (r: Result<(real, real), PyError>)
    ensures r == Failure(StopIteration) <==> |lines| == 0
    ensures r == Failure(ZeroDivisionError) <==> |lines| > 0 && bedTotalBases == 0
  {
    if |lines| == 0 then Failure(StopIteration)
    else if bedTotalBases == 0 then Failure(ZeroDivisionError)
    else
      var t := CountTotals(Rows(lines[1..]));
      Success((Percent(t.at10, bedTotalBases), Percent(t.at30, bedTotalBases)))
  }

  /** A row as mosdepth writes it: readable bounds and counts with
      `0 <= 30X <= 10X <= end - start`. */
  predicate ConsistentRow(cols: seq<string>) {
    && TargetBed.FieldSpan(cols).Success?
    && ReadCounts(cols).Some?
    && 0 <= ReadCounts(cols).value.at30 <= ReadCounts(cols).value.at10 <= TargetBed.FieldSpan(cols).value
  }

  lemma {:induction false} CountsWithinFootprint(rows: seq<seq<string>>)
    requires forall i | 0 <= i < |rows| :: ConsistentRow(rows[i])
    ensures TargetBed.BedBases(rows).Success?
    ensures 0 <= CountTotals(rows).at30 <= CountTotals(rows).at10 <= TargetBed.BedBases(rows).value
    decreases |rows|
  {
    if |rows| > 0 {
      var prefix := rows[..|rows| - 1];
      assert forall i | 0 <= i < |prefix| :: prefix[i] == rows[i];
      CountsWithinFootprint(prefix);
    }
  }

  /** For a table of consistent rows whose regions span at most the BED
      footprint, `0 <= pct30 <= pct10 <= 100`. */
  lemma IntendedBounded(lines: seq<string>, bedTotalBases: int)
    requires |lines| > 0
    requires forall i | 1 <= i < |lines| :: ConsistentRow(Tokens(lines[i]))
    requires TargetBed.BedBases(Rows(lines[1..])).Success?
    requires 0 < TargetBed.BedBases(Rows(lines[1..])).value <= bedTotalBases
    ensures IntendedPercentages(lines, bedTotalBases).Success?
    ensures var (p10, p30) := IntendedPercentages(lines, bedTotalBases).value;
            0.0 <= p30 <= p10 <= 100.0
  {
    var rows := Rows(lines[1..]);
    assert forall i | 0 <= i < |rows| :: rows[i] == Tokens(lines[i + 1]);
    CountsWithinFootprint(rows);
    var t := CountTotals(rows);
    PercentMonotone(t.at30, t.at10, bedTotalBases);
    PercentMonotone(t.at10, bedTotalBases, bedTotalBases);
    PercentOfWhole(bedTotalBases);
  }

  lemma SingleRowIntended(header: string, line: string, bedTotalBases: int)
    requires bedTotalBases != 0 && ReadCounts(Tokens(line)).Some?
    ensures IntendedPercentages([header, line], bedTotalBases)
         == Success((Percent(ReadCounts(Tokens(line)).value.at10, bedTotalBases),
                     Percent(ReadCounts(Tokens(line)).value.at30, bedTotalBases)))
  {
    var lines := [header, line];
    assert lines[1..] == [line];
    var rows := Rows(lines[1..]);
    assert rows == [Tokens(line)];
    assert rows[..0] == [];
    assert CountTotals(rows) == ReadCounts(Tokens(line)).value;
  }

  /** A region of `n` bases in which only `c` bases are covered at all, with
      `10 <= c < 30` (1X = c, 10X = 30X = 0): the source reports the whole
      footprint as covered at 10x, the 10X column gives 0%. */
  lemma OneXColumnMisread(header: string, n: int, c: int)
    requires 10 <= c < 30 && c <= n
    ensures Percentages([header, MosdepthRow(0, n, c, 0, 0)], n) == Success((100.0, 0.0))
    ensures IntendedPercentages([header, MosdepthRow(0, n, c, 0, 0)], n) == Success((0.0, 0.0))
  {
    AsWrittenOnSparseRegion(header, n, c);
    IntendedOnSparseRegion(header, n, c);
  }

  lemma AsWrittenOnSparseRegion(header: string, n: int, c: int)
    requires 10 <= c < 30 && c <= n
    ensures Percentages([header, MosdepthRow(0, n, c, 0, 0)], n) == Success((100.0, 0.0))
  {
    ReadMosdepthRow(0, n, c, 0, 0);
    SingleRowTable(header, MosdepthRow(0, n, c, 0, 0), n);
    PercentOfWhole(n);
  }

  lemma IntendedOnSparseRegion(header: string, n: int, c: int)
    requires n != 0
    ensures IntendedPercentages([header, MosdepthRow(0, n, c, 0, 0)], n) == Success((0.0, 0.0))
  {
    ReadMosdepthCounts(0, n, c, 0, 0);
    SingleRowIntended(header, MosdepthRow(0, n, c, 0, 0), n);
  }

  /** A mosdepth row read by its 10X and 30X columns. */
  lemma ReadMosdepthCounts(start: int, end: int, at1: int, at10: int, at30: int)
    ensures ReadCounts(Tokens(MosdepthRow(start, end, at1, at10, at30))) == Some(DepthCounts(at10, at30))
  {
    MosdepthRowTokens(start, end, at1, at10, at30);
    ParseShowInt(at10);
    ParseShowInt(at30);
  }
}
