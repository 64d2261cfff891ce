/** The number of bases of the target region set: the sum of `end - start`
    over every line of the BED file, each line read as `chrom start end ...`.
    The arithmetic works on the lines' tokens (`Rows`); `SumBedBases` is the
    source's loop over the raw lines. */
module TargetBed {
  import opened Wrappers
  import opened Text
  import opened Numbers
  import opened Fields

  /** `int(cols[2]) - int(cols[1])` for the fields of one BED line. Python
      evaluates the end column first, so a line whose end and start are both
      bad reports the end token. Nothing checks `start <= end`. */
  function FieldSpan(cols: seq<string>): (r: Result<int, PyError>)
    ensures |cols| < 3 ==> r == Failure(IndexError)
    ensures r.Success? <==> |cols| >= 3 && ParseInt(cols[1]).Some? && ParseInt(cols[2]).Some?
    ensures r.Success? ==> r.value == ParseInt(cols[2]).value - ParseInt(cols[1]).value
    ensures |cols| >= 3 && ParseInt(cols[2]).None? ==> r == Failure(ValueError(cols[2]))
  {
    var end :- IntField(cols, 2);
    var start :- IntField(cols, 1);
    Success(end - start)
  }

  /** The footprint of a tokenised BED file, accumulated row by row from the
      first; the first row that cannot be read aborts the sum with its error. */
  function BedBases(rows: seq<seq<string>>): (r: Result<int, PyError>)
    ensures r.Success? <==> forall i | 0 <= i < |rows| :: FieldSpan(rows[i]).Success?
    decreases |rows|
  {
    if |rows| == 0 then Success(0)
    else
      var prefix := rows[..|rows| - 1];
      assert forall i | 0 <= i < |prefix| :: prefix[i] == rows[i];
      AddThen(BedBases(prefix), FieldSpan(rows[|rows| - 1]))
  }

  /** The sum fails with the error of the first row that cannot be read. */
  lemma FirstFailure(rows: seq<seq<string>>, i: nat)
    requires i < |rows| && FieldSpan(rows[i]).Failure?
    requires forall j | 0 <= j < i :: FieldSpan(rows[j]).Success?
    ensures BedBases(rows) == FieldSpan(rows[i])
  {
    var prefix := rows[..i + 1];
    assert prefix[..i] == rows[..i];
    assert BedBases(rows[..i]).Success?;
    FailedPrefix(rows, i + 1);
  }

  /** Once a prefix fails, the rows after it change nothing. */
  lemma {:induction false} FailedPrefix(rows: seq<seq<string>>, k: nat)
    requires k <= |rows| && BedBases(rows[..k]).Failure?
    ensures BedBases(rows) == BedBases(rows[..k])
    decreases |rows| - k
  {
    if k < |rows| {
      assert rows[..k + 1][..k] == rows[..k];
      FailedPrefix(rows, k + 1);
    } else {
      assert rows[..k] == rows;
    }
  }

  /** The source's loop: tokenise each line, add its span to a running
      total, and stop at the first line that raises. Tokenising is pure, so
      the lines are tokenised up front and summed by `SumRows`. */
  method SumBedBases(lines: seq<string>) returns (r: Result<int, PyError>)
    ensures r == BedBases(Rows(lines))
  {
    r := SumRows(Rows(lines));
  }

  /** The accumulate-and-raise loop over tokenised rows. */
  method SumRows(rows: seq<seq<string>>) returns (r: Result<int, PyError>)
    ensures r == BedBases(rows)
  {
    var total := 0;
    var i := 0;
    while i < |rows|
      invariant 0 <= i <= |rows|
      invariant BedBases(rows[..i]) == Success(total)
    {
      var span := FieldSpan(rows[i]);
      if span.Failure? {
        StepFails(rows, i, total);
        return Failure(span.error);
      }
      StepAdds(rows, i, total);
      total := total + span.value;
      i := i + 1;
    }
    assert rows[..i] == rows;
    return Success(total);
  }

  /** A row that raises ends the sum with its error. */
  lemma StepFails(rows: seq<seq<string>>, i: nat, total: int)
    requires i < |rows| && BedBases(rows[..i]) == Success(total) && FieldSpan(rows[i]).Failure?
    ensures BedBases(rows) == FieldSpan(rows[i])
  {
    BedBasesStep(rows, i);
    AddThenAfterSuccess(total, FieldSpan(rows[i]));
    FailedPrefix(rows, i + 1);
  }

  /** Any other row extends the running total by its span. */
  lemma StepAdds(rows: seq<seq<string>>, i: nat, total: int)
    requires i < |rows| && BedBases(rows[..i]) == Success(total) && FieldSpan(rows[i]).Success?
    ensures BedBases(rows[..i + 1]) == Success(total + FieldSpan(rows[i]).value)
  {
    BedBasesStep(rows, i);
    AddThenAfterSuccess(total, FieldSpan(rows[i]));
  }

  /** One more row extends the running sum. */
  lemma BedBasesStep(rows: seq<seq<string>>, i: nat)
    requires i < |rows|
    ensures BedBases(rows[..i + 1]) == AddThen(BedBases(rows[..i]), FieldSpan(rows[i]))
  {
    assert rows[..i + 1][..i] == rows[..i];
  }

  lemma AddThenAfterSuccess(total: int, q: Result<int, PyError>)
    ensures q.Success? ==> AddThen(Success(total), q) == Success(total + q.value)
    ensures q.Failure? ==> AddThen(Success(total), q) == q
  {
  }

  /** The footprint of two files read one after the other: the first one's
      error wins, then the second one's, otherwise the totals add up. */
  lemma {:induction false} BedBasesAppend(a: seq<seq<string>>, b: seq<seq<string>>)
    ensures BedBases(a + b) == AddThen(BedBases(a), BedBases(b))
    decreases |b|
  {
    if |b| == 0 {
      assert a + b == a;
    } else {
      var b' := b[..|b| - 1];
      var last := b[|b| - 1];
      assert (a + b)[..|a + b| - 1] == a + b';
      assert (a + b)[|a + b| - 1] == last;
      BedBasesAppend(a, b');
      AddThenAssociative(BedBases(a), BedBases(b'), FieldSpan(last));
    }
  }

  /** Two partial sums evaluated left to right: the first error wins. */
  function AddThen(p: Result<int, PyError>, q: Result<int, PyError>): Result<int, PyError> {
    var x :- p;
    var y :- q;
    Success(x + y)
  }

  lemma AddThenAssociative(p: Result<int, PyError>, q: Result<int, PyError>, s: Result<int, PyError>)
    ensures AddThen(AddThen(p, q), s) == AddThen(p, AddThen(q, s))
  {
  }

  /** A BED line written from an interval is read back as `end - start`,
      negative when the interval is reversed. */
  lemma IntervalSpan(chrom: string, start: int, end: int)
    requires IsWord(chrom)
    ensures FieldSpan(Tokens(TabLine([chrom, ShowInt(start), ShowInt(end)]))) == Success(end - start)
  {
    IntervalTokens(chrom, start, end);
    ParseShowInt(start);
    ParseShowInt(end);
  }

  lemma IntervalTokens(chrom: string, start: int, end: int)
    requires IsWord(chrom)
    ensures Tokens(TabLine([chrom, ShowInt(start), ShowInt(end)])) == [chrom, ShowInt(start), ShowInt(end)]
  {
    var fields := [chrom, ShowInt(start), ShowInt(end)];
    ShowIntIsWord(start);
    ShowIntIsWord(end);
    StripThenSplit(TabLine(fields));
    SplitTabLine(fields);
  }

  /** An example: the synthetic one-line BED of chromosome X (0 to
      156,040,895) has a footprint of 156,040,895 bases, the one of chromosome
      Y 57,227,415. The pipeline hands these files to mosdepth only; it never
      sums them itself. */
  lemma SexChromosomeFootprints()
    ensures BedBases(Rows([TabLine(["chrX", ShowInt(0), ShowInt(156040895)])])) == Success(156040895)
    ensures BedBases(Rows([TabLine(["chrY", ShowInt(0), ShowInt(57227415)])])) == Success(57227415)
  {
    PrintableWord("chrX");
    PrintableWord("chrY");
    IntervalSpan("chrX", 0, 156040895);
    IntervalSpan("chrY", 0, 57227415);
    var x := Rows([TabLine(["chrX", ShowInt(0), ShowInt(156040895)])]);
    var y := Rows([TabLine(["chrY", ShowInt(0), ShowInt(57227415)])]);
    assert x[..0] == [] && y[..0] == [];
  }
}
