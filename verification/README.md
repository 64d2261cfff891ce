# Genomic QC pipeline: metric parsers and decision rules

A Dafny model of the text-parsing and decision logic of a small exome
quality-control script (`pipeline.py`). The script runs mosdepth and
VerifyBamID2 as subprocesses and then reads their text outputs. This model
covers what it does with those outputs:

- **mean depth** (`ler_profundidade_media`): the depth field of the first
  `total_region` line of a `*.mosdepth.summary.txt`, or 0.0 when there is none;
- **BED footprint** (`calcular_bases_bed`): the sum of `end - start` over every
  line of the target BED;
- **10x / 30x percentages** (`calcular_percentuais`): two counters accumulated
  over the rows of `*.thresholds.bed.gz` after its header, divided by the
  footprint;
- **sex call** (`inferir_sexo`): female when the Y depth is below 1.0, male when
  `|x - y| / max(x, y) < 0.5`, indeterminate otherwise;
- **FREEMIX** (the live tail of the script): every line of `<out>.selfSM` after
  the header is read at field 7 and flagged as possible contamination when
  above 0.03; a missing file has its own outcome.

The first four sit in a block of the script that is currently commented out;
they are still its only parsers and decision rules and are modelled as written.

Files are given as sequences of lines (`seq<string>`, already decompressed).
Each line is tokenised as Python's `line.strip().split()` does (`Text`). Integer
fields go through a concrete model of Python's `int()` (`Numbers.ParseInt`).
`float()` is a parameter, `FloatParser = string -> Option<real>`: any partial
map from a token to an exact real. The exceptions that parsing and arithmetic
can raise become `Failure(PyError)` values: `IndexError`, `ValueError(token)`,
`StopIteration` (`next(f)` on an empty file) and `ZeroDivisionError`. Errors
from opening or decoding a file are not modelled (see Left out).

Modules: `Wrappers` (Option, Result, PyError), `Text`, `Numbers`, `Fields`,
`DepthSummary`, `TargetBed`, `Thresholds`, `SexInference`, `Contamination`.

What the code does, stated plainly where a reader might expect otherwise:

- there is no Y/X ratio rule: the sex call uses only the Y depth and the
  relative difference above, so a zero X depth with Y at 1x or more is
  indeterminate, not female;
- nothing rejects `end <= start` in the BED sum: a reversed interval
  contributes a negative length, and an unreadable line aborts the sum;
- every data row of `.selfSM` is classified, not only the first, and a
  missing file only prints a "not found" message; it produces no value;
- the thresholds table is read at column 4, and the `.selfSM` rows at field
  7 (see Findings for both);
- there is no contamination fallback run, no resource-file check and no
  report file.

## Model

| member | source | states |
|---|---|---|
| Text.Split | pipeline.py:59 | every token of `split()` is non-empty and free of whitespace |
| Text.SplitWord | pipeline.py:59 | a whitespace-free word splits into exactly itself |
| Text.SplitAtSpace | pipeline.py:59 | any whitespace character separates: the tokens of `a + [c] + b` are those of `a` then those of `b` |
| Text.SplitBlank | pipeline.py:59 | a blank or empty line has no tokens |
| Text.StripThenSplit | pipeline.py:59 | `line.strip().split()`, the tokenising of every reader, gives the same tokens as `split()` alone |
| Text.StripExact | pipeline.py:59 | `strip()` removes exactly the whitespace at both ends: `a + t + b` with blank `a`, `b` and `t` neither starting nor ending in whitespace strips to `t` |
| Text.SplitTabLine | pipeline.py:59 | whitespace-free fields joined by tabs and a newline are split back into exactly those fields |
| Text.TabLineRows | pipeline.py:79 | a one-line file of tab-separated fields is read as one row of those fields |
| Numbers.ParseShowInt | pipeline.py:69 | `int(str(n)) == n` for every integer `n`, negative ones included (no digit limit, see Left out) |
| Numbers.ParseSigned | pipeline.py:69 | `int()` reads a digit group as the number it spells; a leading `-` negates it and a leading `+` changes nothing |
| Numbers.ParseSurroundingSpace | pipeline.py:69 | whitespace around a token never changes what `int()` returns |
| Numbers.UnderscoreAccepted | pipeline.py:83-85 | `int()` accepts digit groups separated by single underscores ("1_000" is 1000) |
| Numbers.LeadingUnderscore | pipeline.py:83-85 | a leading underscore is a ValueError |
| Numbers.TrailingUnderscore | pipeline.py:83-85 | a trailing underscore is a ValueError |
| Numbers.DoubledUnderscore | pipeline.py:83-85 | a doubled underscore is a ValueError |
| Numbers.FractionRejected | pipeline.py:83-85 | a token with a decimal point is a ValueError for `int()` |
| Fields.IntField | pipeline.py:69 | `int(cols[i])` raises IndexError exactly when `i` is past the end and succeeds exactly when the token parses |
| Fields.RealField | pipeline.py:60 | `float(cols[i])` raises IndexError exactly when `i` is past the end and succeeds exactly when the parser accepts the token |
| DepthSummary.MeanDepth | pipeline.py:55-61 | the result is field 3 of the first line starting with `total_region` (IndexError or ValueError when that field is missing or not a number), and 0.0 when no line starts with it |
| DepthSummary.MeanDepthIgnoresLaterLines | pipeline.py:57-60 | once a `total_region` line exists, nothing appended after the file changes the result |
| DepthSummary.MeanDepthOfTotalRow | pipeline.py:58-60 | a row `total_region 0 1000 <depth>` yields the depth token's value (42.5 for "42.5") whatever follows |
| TargetBed.FieldSpan | pipeline.py:68-69 | one BED line gives `end - start`; fewer than 3 fields is IndexError; a bad end token is reported before a bad start token |
| TargetBed.BedBases | pipeline.py:64-70 | the footprint succeeds exactly when every line can be read; there is no skipping |
| TargetBed.FirstFailure | pipeline.py:66-69 | the footprint fails with the error of the first line that cannot be read |
| TargetBed.FailedPrefix | pipeline.py:66-69 | lines after the first failing one change nothing |
| TargetBed.SumBedBases | pipeline.py:64-70 | tokenising the raw lines and summing them computes the footprint |
| TargetBed.SumRows | pipeline.py:66-70 | the accumulate-and-raise loop over tokenised lines computes the footprint: the total of all spans, or the first error |
| TargetBed.BedBasesAppend | pipeline.py:65-70 | the footprint of two files read in turn: the first file's error wins, then the second's, otherwise the sums add |
| TargetBed.IntervalSpan | pipeline.py:69 | a BED line written from an interval is read as `end - start`, negative for a reversed interval |
| TargetBed.SexChromosomeFootprints | pipeline.py:28-34 | an example: the synthetic chrX and chrY BED lines (which the script gives to mosdepth only) would span 156,040,895 and 57,227,415 bases |
| Thresholds.ReadRow | pipeline.py:79-92 | a row is used exactly when it has at least 5 fields and its start, end and column 4 all parse; it yields `end - start` and column 4 |
| Thresholds.Percentages | pipeline.py:73-95 | an empty table is StopIteration, a zero footprint is ZeroDivisionError, anything else succeeds |
| Thresholds.CountCoverage | pipeline.py:74-92 | tokenising the rows and counting them computes, for 10 and 30, the lengths of the readable rows whose column 4 reaches that value |
| Thresholds.CountRows | pipeline.py:78-92 | the single pass with two conditional additions equals the counters at 10 and at 30 |
| Thresholds.CalcPercentages | pipeline.py:73-95 | the source's procedure (skip the header, count, divide) computes `Percentages` |
| Thresholds.CoveredAppend | pipeline.py:78-92 | the counters over two row blocks add up |
| Thresholds.SkippedRowAddsNothing | pipeline.py:80-92 | a short or unparsable row, or one whose column 4 is below the depth, adds nothing to that depth's counter wherever it stands |
| Thresholds.CoveredSplit | pipeline.py:87-90 | every row credited at 30 is credited at 10 with the same length; `cov10 = cov30 +` the rows with column 4 in [10, 30) |
| Thresholds.CoveredBetweenNonNegative | pipeline.py:86-90 | without reversed intervals the counters are non-negative |
| Thresholds.CoveredMonotone | pipeline.py:86-90 | without reversed intervals a higher depth never credits more bases |
| Thresholds.CoveredWithinFootprint | pipeline.py:78-92 | when every row is a forward interval, each counter lies between 0 and the table's own footprint |
| Thresholds.PercentagesOrdered | pipeline.py:93-95 | over a positive footprint without reversed intervals, `0 <= pct30 <= pct10` |
| Thresholds.PercentagesBounded | pipeline.py:93-95 | when the table's rows are forward intervals spanning at most the BED footprint, `0 <= pct30 <= pct10 <= 100` |
| Thresholds.PercentMonotone | pipeline.py:93-94 | `100 * cov / total` is non-negative and grows with `cov` over a positive footprint |
| Thresholds.PercentOfWhole | pipeline.py:93-94 | covering the whole footprint gives exactly 100% |
| Thresholds.HeaderIgnored | pipeline.py:77 | the first line of the table never affects the result |
| Thresholds.ReadMosdepthRow | pipeline.py:83-86 | a row in mosdepth's layout is read as its length and its 1X count |
| Thresholds.FullCoverage | pipeline.py:73-95 | one region of n >= 30 bases fully covered, over an n-base footprint, gives 100% at both depths |
| Thresholds.OneXColumnMisread | pipeline.py:85-90 | a region of n bases with only 10 to 29 bases covered gives 100% at 10x as written, 0% from the 10X column |
| Thresholds.IntendedPercentages | pipeline.py:85-90 | the corrected reading of columns 10X and 30X keeps the source's StopIteration and ZeroDivisionError cases |
| Thresholds.IntendedBounded | pipeline.py:93-95 | for rows as mosdepth writes them, spanning at most the footprint, the corrected percentages satisfy `0 <= pct30 <= pct10 <= 100` |
| SexInference.CallSex | pipeline.py:105-110 | female exactly when Y < 1.0; male exactly when Y >= 1.0 and Y/2 < X < 2Y; indeterminate otherwise; the division is never by zero |
| SexInference.RelativeDifference | pipeline.py:107 | `abs(x - y) / max(x, y)` is never negative, is zero exactly when the depths are equal, and is at most 1 for non-negative depths |
| SexInference.RelativeDifferenceBelowHalf | pipeline.py:107 | `abs(x - y) / max(x, y) < 0.5` is the same test as `y/2 < x < 2y` once `y >= 1` |
| SexInference.RelativeDifferenceSymmetric | pipeline.py:107 | the male test treats X and Y alike |
| SexInference.InferSex | pipeline.py:98-110 | X is read first and its error wins; the call is made exactly when both summaries read, and it is `CallSex` of the two depths, female exactly when the Y depth is below 1.0 |
| SexInference.MissingYTotalIsFemale | pipeline.py:98-110 | a Y summary without a `total_region` line gives a female call whatever X shows, unless reading X raises |
| SexInference.MissingXTotalIsIndeterminate | pipeline.py:98-110 | an X summary without a `total_region` line, with Y at 1x or more, gives an indeterminate call |
| SexInference.CallSexBoundaries | pipeline.py:105-110 | Y = 0.02 with X = 40 is female; Y exactly 1.0 is not female; X exactly twice or half Y is not male |
| Contamination.Classify | pipeline.py:195-198 | the verdict carries the FREEMIX value it judged |
| Contamination.ThresholdIsStrict | pipeline.py:195 | contamination is reported exactly when FREEMIX > 0.03; 0.03 itself is clean |
| Contamination.ClassifyMonotone | pipeline.py:195 | a higher FREEMIX never turns a warning into a clean verdict |
| Contamination.ClassifyRows | pipeline.py:191-198 | each verdict is the classification of the chosen field of the row at its position; reading stops at the first row whose field cannot be read, with that row's error |
| Contamination.ReadFreemix | pipeline.py:187-200 | a missing output file is exactly the "not found" outcome; an empty one is StopIteration; otherwise verdict `i` classifies field 7 of data line `i`, and reading stops at the first line whose field 7 cannot be read, with its error |
| Contamination.IntendedReadFreemix | pipeline.py:187-200 | the same outcomes with verdict `i` classifying field 6, where VerifyBamID2 writes FREEMIX |
| Contamination.HeaderIgnored | pipeline.py:190 | the header line never affects the outcome |
| Contamination.ShortRowStops | pipeline.py:192-193 | a row with fewer than 8 fields stops the reading with IndexError after the verdicts of the rows before it |
| Contamination.SingleRow | pipeline.py:188-198 | a header plus one data row yields exactly that row's verdict |
| Contamination.FreelkReadAsFreemix | pipeline.py:193-195 | a row whose FREEMIX is at most 0.03 and whose FREELK1 is above it is reported as possible contamination as written, and as clean when field 6 is read |

## Left out

- The subprocesses (mosdepth, `samtools view`, `samtools index`, verifybamid2), directory creation and the `REF_PATH` environment variable: they are process and filesystem effects whose only signal is an exit status.
- File opening, gzip decompression and the splitting of a file into lines: every reader takes the file's lines as input.
- Printing and the `:.2f` / `:.4f` formatting: outputs are values and verdicts. `inferir_sexo` only prints its call; the model returns it.
- IEEE-754 behaviour of `float()` and `/`: depths, FREEMIX values and percentages are exact reals, with no rounding.
- `FloatParser` yields reals only, so tokens Python reads as `nan` or `inf` are outside the model.
- Numbers.ParseInt: does not accept the non-ASCII Unicode decimal digits Python's `int()` accepts, because the model's digits are `'0'..'9'`.
- Numbers.ParseInt: has no digit limit; Python 3.11 (and 3.10.7) raises ValueError on more than 4300 digits by default. `ParseShowInt` therefore holds for every integer, where Python's `int(str(n))` does so only below that length.
- Numbers.ParseInt, Text.Strip, Text.Tokens, Thresholds.CoveredAt and Thresholds.Percent: carry no postconditions of their own; their properties are the lemmas listed in the table, so that the proofs using them stay small.
- FileNotFoundError and UnicodeDecodeError from opening or decoding the summary, BED and thresholds files: file access is outside the model.
- The download script, the configuration constants and the hash checker: network I/O, constant tables and a foreign MD5 library.

## Findings

| source | as written | input that shows it | evidently intended | confidence | as-written member | corrected member |
|---|---|---|---|---|---|---|
| pipeline.py:85-90 | `threshold = int(cols[4])` reads mosdepth's 1X column, a base count, and compares it with 10 and 30 as if it were a depth, crediting the whole region | header plus one row `chr1 0 100 target 10 0 0` over a 100-base footprint: 100% at 10x, 0% at 30x | sum the 10X and 30X base counts (columns 5 and 6): 0% at both | high; not executed | Thresholds.OneXColumnMisread | Thresholds.IntendedBounded |
| pipeline.py:193 | `freemix = float(cols[7])` reads field 7, which in VerifyBamID2's `.selfSM` layout (`#SEQ_ID RG CHIP_ID #SNPS #READS AVG_DP FREEMIX FREELK1 ...`) is FREELK1, a log-likelihood, and compares it with 0.03 | header plus one row `s NA NA 9000 12000 1.5 0.01 12082.3 12083.1`: possible contamination reported with value 12082.3, though FREEMIX is 0.01 | read field 6: no clear sign of contamination, value 0.01 | medium; the column layout is VerifyBamID2's documented output, which is not part of this model; not executed | Contamination.FreelkReadAsFreemix | Contamination.IntendedReadFreemix |
