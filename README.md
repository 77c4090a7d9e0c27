# Motif scoring in liquidator, modelled in Dafny

`motif_liquidator` searches DNA sequences (FASTA records or the reads of a BAM file) for
occurrences of transcription-factor motifs. Each motif is a position weight matrix turned
into a `ScoreMatrix`. A `ScoreMatrix` holds the motif's name, a reverse-complement flag,
the background, the scaled unsigned matrix, the scale, `min_before_scaling` and a p-value
table. It is built in these steps:

- its log-odds values are affinely scaled into non-negative integers (`detail::scale`);
- the exact distribution of window scores under the background is computed
  (`detail::probability_distribution`); the matrix does not keep it;
- the p-value table is derived from that distribution (`detail::pdf_to_pvalues`);
- for the other strand, a second `ScoreMatrix` is built with the reverse-complement flag
  set, from the reverse-complemented frequencies (`detail::reverse_complement`).

`ScoreMatrix::score` slides a window as wide as the matrix across a sequence. For each
window it hands a `Score` to a consumer. For BAM input that consumer is `BamScorer`, which
counts hits (windows with a p-value below 0.0001). Per read it keeps five counters and,
when an output file is open, writes the reads that had a hit.

The project models this core:

- **Alphabet** (`alphabet.dfy`): the case-insensitive A/C/G/T column lookup and the "C"
  locale upper-casing.
- **Matrix** (`matrix.dfy`): rows and integer matrices, the largest achievable total
  (the sum of the row maxima), and a string of columns with its total (`Total`) and its
  background probability (`Weight`). Both read a column that names no base as 0.
- **WindowScore** (`window_score.dfy`): `detail::score`, the integer total of a window,
  or 0 when the window holds a non-base.
- **Distribution** (`distribution.dfy`): `detail::probability_distribution` as a row-by-row
  convolution, proved equal to a reference recursion (`Prob`). That gives its length,
  non-negativity and total mass.
- **Enumeration** (`enumeration.dfy`): a second, independent reading of the distribution.
  It lists all 4^n column strings in base-4 order and sums the background weight of those
  with a given score. The convolution is proved equal to that sum.
- **PValues** (`pvalues.dfy`): `detail::pdf_to_pvalues` as a method on an array,
  specified by the function `PValuesOf`. The resulting entries are the clamped tail sums,
  and they never increase.
- **RevComp** (`revcomp.dfy`): `detail::reverse_complement` as an in-place method on an
  array. It is an involution. For an integer matrix, its reverse complement scores the
  other strand's columns exactly as the matrix scores the window's columns. This is not
  claimed for the program's reverse-complement `ScoreMatrix`, which is rebuilt from the
  reversed frequencies (see Left out).
- **Scaling** (`scaling.dfy`): `detail::scale`, with bounds, order preservation, the
  endpoints and the round trip.
- **ScoreMatrices** (`score_matrix.dfy`):
  - `ScoreMatrix`, with `value`;
  - the `Score` record and its accessors;
  - the window scan `score`, as a method returning the sequence of consumer calls it
    makes, in order;
  - `operator<<`, as a method returning the written text.
- **BamScoring** (`bam_scorer.dfy`): the `BamScorer` class, with its five counters, its
  sequence buffer (an array) and the list of written reads. It has `operator()`,
  `score_read` and `score_all_reads` as methods, and the constructor without a region file.
  The counter relations are proved to hold after every read; they are what keeps the
  subtractions in the summary from wrapping.
- **InputTypes** (`input_type.dfy`): the choice of input type by file extension, and the
  region-filtering check (see Findings).

Modelling choices:

- **Reads.** A read is abstracted to its 16-bit SAM flag and its decoded bases.
  `unmapped` tests the flag bit of value 0x10 (`1 << 4`), as the code does. The comment
  next to it speaks of the "4th bit", and in SAM the bit 0x10 means "reverse strand";
  0x4 is "unmapped". The model follows the code.
- **The consumer.** It receives six values, as the header calls it: motif name, sequence
  name, forward-strand flag `!is_reverse_complement`, 1-based start, stop, and the
  `Score`. `BamScorer::operator()` is written with five parameters and calls a
  `Score::is_reverse_complement` that `Score` does not declare. The model's `Consume`
  takes the whole six-value call.
- **Unscorable windows.** `Score` carries a tagged outcome, `Scored(pvalue, score)` or
  `Unscorable`, in place of the NaN p-value. "`pvalue() < x`" is false for an unscorable
  window, as NaN comparisons are, and `score()` is 0.
- **`score_sequence`.** It is defined out of line; score_matrix.h:95 only declares it,
  and this model does not cover the file that defines it. It is modelled as
  `detail::score` followed by a lookup in the p-value table. The real score is
  `total / scale + length * min_before_scaling`: each row's scaling is undone.
- **Numbers.** Probabilities and log-odds values are exact reals; integer cells are
  unbounded naturals.

## Model

| member | source | states |
|---|---|---|
| Alphabet.ColumnIgnoresCase | liquidator/test.cpp:214 | an upper-cased character selects the same column as the character |
| Alphabet.Column | liquidator/score_matrix.h:81 | every character maps to a column or to AlphabetSize, which is no column (BaseLetters says which characters have a column) |
| Alphabet.ToUpper | liquidator/score_matrix.h:102 | a lower-case letter becomes the upper-case letter at the same position in the alphabet; every other character is unchanged |
| Alphabet.BaseLetters | liquidator/score_matrix.h:77-82 | a character has a column exactly when it is one of A C G T a c g t |
| Matrix.RowMax | liquidator/test.cpp:242-248 | the row maximum bounds every cell of the row |
| Matrix.TotalAtMostMaxSum | liquidator/test.cpp:238-264 | no column string scores more than the sum of the row maxima |
| Matrix.RowMaxAttained | liquidator/test.cpp:242-248 | the row maximum is one of the row's four cells |
| Matrix.TotalSnoc | liquidator/test.cpp:242-248 | extending a column string by one column adds that row's cell to its total |
| Matrix.MaxSumAttained | liquidator/test.cpp:238-264 | some column string scores exactly the sum of the row maxima, so no distribution entry is beyond every score |
| Matrix.TotalCons | liquidator/test.cpp:206-216 | the total of a column string is its first row's cell plus the total of the remaining rows |
| WindowScore.WindowTotalIsTotal | liquidator/test.cpp:206-216 | a window is scorable exactly when every character in it is a base, and then its score is the sum of matrix[i - begin][column(sequence[i])] over the window |
| WindowScore.ScoreBound | liquidator/test.cpp:206-216 | a window's score is at most the sum of the row maxima of the rows it uses |
| WindowScore.ScoreIgnoresCase | liquidator/test.cpp:214 | lower-case bases score as upper-case ones |
| WindowScore.ScoreIgnoresOutside | liquidator/test.cpp:215-216 | scoring [begin, end) of a string equals scoring that window cut out on its own |
| WindowScore.ScoreIgnoresSuffix | liquidator/test.cpp:215 | characters after the window are never read |
| WindowScore.NonBaseScoresZero | liquidator/test.cpp:208-209 | a window holding any non-base is unscorable and scores 0 |
| WindowScore.WindowTotal | liquidator/test.cpp:195-217 | the window total exists exactly when every character of the window is a base (WindowTotalIsTotal gives its value) |
| WindowScore.Score | liquidator/test.cpp:195-217 | a window holding a non-base scores 0 (WindowTotalIsTotal gives the value of any other window) |
| WindowScore.EmptyWindowScoresZero | liquidator/test.cpp:202-204 | an empty window [b, b) scores 0, whatever the string and the matrix |
| WindowScore.ScoreExamplesEmpty | liquidator/test.cpp:202-204 | the unit test's three empty windows score 0 |
| WindowScore.ScoreExamplesOne | liquidator/test.cpp:206-209 | the unit test's one-character windows: A is 24, T, N and Z are 0 |
| WindowScore.ScoreExamplesTwo | liquidator/test.cpp:211-214 | the unit test's two-character windows, rows relative to begin, either case |
| WindowScore.ScoreExamplesOutside | liquidator/test.cpp:215-216 | the unit test's windows inside longer strings ignore the characters outside |
| Distribution.Convolve | liquidator/test.cpp:242-248 | one row's convolution lengthens the distribution by exactly the row's largest cell |
| Distribution.ProbabilityDistribution | liquidator/test.cpp:224-264 | the distribution has 1 + (sum of row maxima) entries |
| Distribution.ProbOutside | liquidator/test.cpp:238-267 | the reference probability of a score below 0 or above the sum of row maxima is 0 |
| Distribution.ConvolveAgrees | liquidator/test.cpp:238-267 | one convolution step computes the reference probability for one more row |
| Distribution.DistributionAt | liquidator/test.cpp:238-267 | entry s is the probability that the rows' cells, each base drawn from the background, add up to s |
| Distribution.ProbBelowLastRow | liquidator/test.cpp:250-267 | the mass below a bound after one more row is the background mixture of the shifted masses of the shorter matrix |
| Distribution.ProbTotal | liquidator/test.cpp:250-267 | the reference's total mass is the background total to the power of the matrix length |
| Distribution.DistributionSum | liquidator/test.cpp:260-267 | the entries sum to the background total to the power of the matrix length |
| Distribution.DistributionIsProbability | liquidator/test.cpp:260-267 | under a background summing to 1 the entries sum to 1 |
| Distribution.ProbNonNegative | liquidator/test.cpp:238-267 | a non-negative background gives a non-negative reference probability |
| Distribution.DistributionNonNegative | liquidator/test.cpp:238-267 | a non-negative background gives non-negative entries |
| Distribution.ZeroMatrixDistribution | liquidator/test.cpp:223-236 | under a background summing to 1, an empty or all-zero matrix puts all the mass on score 0: the distribution is [1] |
| Distribution.DistributionExamplesZero | liquidator/test.cpp:223-236 | the unit test's empty and zero matrices give [1] under the uniform background |
| Distribution.DistributionExamplesOnes | liquidator/test.cpp:238-267 | the unit test's one-row and two-row matrices give [0.75, 0.25] and [0.25, 0.5, 0.25] |
| Enumeration.AllColumnStrings | liquidator/test.cpp:254-259 | there are 4^n column strings of length n |
| Enumeration.AllColumnStringsOfLength | liquidator/test.cpp:254-259 | every listed string has length n and names only bases |
| Enumeration.ValueOfListed | liquidator/test.cpp:254-259 | the string at position k of the listing spells k in base 4 |
| Enumeration.ListedAtValue | liquidator/test.cpp:254-259 | every column string of length n is listed, at the number it spells |
| Enumeration.ListedOnce | liquidator/test.cpp:254-259 | no string is listed twice |
| Enumeration.MassExtend | liquidator/test.cpp:254-262 | the mass of the extended listing splits by the last column into the background mixture of the shorter listing's masses |
| Enumeration.ProbIsMass | liquidator/test.cpp:254-262 | the row-by-row reference equals the summed background weight of all strings of the matrix's length that score s |
| Enumeration.DistributionIsMass | liquidator/test.cpp:254-262 | entry s of the distribution is the total background probability of all base strings that score s |
| PValues.AtMostOne | liquidator/test.cpp:294-299 | the clamped value is at most 1 and at most its argument, and equals one of the two |
| PValues.PValuesOf | liquidator/test.cpp:270-300 | the conversion preserves the length |
| PValues.PdfToPvalues | liquidator/test.cpp:270-300 | the in-place backward pass leaves the array holding PValuesOf of its old contents |
| PValues.PValuesStep | liquidator/test.cpp:281-299 | every entry except the last becomes min(1, old entry + new next entry) |
| PValues.PValuesLast | liquidator/test.cpp:276-297 | the last entry is unchanged |
| PValues.PValuesAreClampedTailSums | liquidator/test.cpp:287-299 | for a non-negative input, entry i is the sum of entries i and above, clamped at 1 except for the last entry |
| PValues.PValuesNonIncreasing | liquidator/test.cpp:287-299 | for a non-negative input whose last entry is at most 1, every entry lies in [0, 1] and none is below its successor |
| PValues.PValuesAntitone | liquidator/test.cpp:287-299 | the same input gives a table that never increases between any two indices |
| PValues.PValuesExamples | liquidator/test.cpp:270-300 | the unit test's five inputs, including the empty one and the clamp to 1 |
| RevComp.ComplementColumn | liquidator/test.cpp:302-317 | the complementary column is a column, and A/T and C/G pair up |
| RevComp.ComplementAt | liquidator/test.cpp:310-315 | the complemented row holds at each base the value of the complementary base |
| RevComp.ReverseComplement | liquidator/test.cpp:302-317 | the row count and the four columns per row are preserved |
| RevComp.ReverseComplementAt | liquidator/test.cpp:302-317 | row i of the result is row n - 1 - i of the input, complemented |
| RevComp.ReverseComplementTwice | liquidator/test.cpp:302-318 | applying the reverse complement twice restores the matrix |
| RevComp.ReverseComplementInPlace | liquidator/test.cpp:302-317 | the in-place swap loop leaves the array holding the reverse complement of its old contents |
| RevComp.OtherStrand | liquidator/score_matrix.h:26-31 | the other strand of a column string has the same length and names only bases |
| RevComp.ReverseComplementScores | liquidator/score_matrix.h:26-31 | the reverse complement of an integer matrix scores the other strand's column string exactly as the matrix scores the window's column string |
| RevComp.ReverseComplementExample | liquidator/test.cpp:302-317 | the unit test's five-row matrix and its expected reverse complement |
| Scaling.ScaleFactor | liquidator/test.cpp:181 | the factor is non-negative and stretches max - min to range |
| Scaling.Scale | liquidator/test.cpp:174-182 | number_of_sites is copied, min_before_scaling is min, range is recorded, the factor stretches max - min to range, and the row count is kept |
| Scaling.ScaleAt | liquidator/test.cpp:184-192 | every cell v becomes (v - min) times the factor |
| Scaling.ScaledWithinRange | liquidator/test.cpp:184-192 | a value in [min, max] is scaled into [0, range] |
| Scaling.ScaleEndpoints | liquidator/test.cpp:184-191 | min is scaled to 0 and max to range |
| Scaling.ScalePreservesOrder | liquidator/test.cpp:172-192 | a larger value never scales lower |
| Scaling.UnscaleRoundTrip | liquidator/test.cpp:180-181 | with a positive range the recorded factor is positive, and dividing a cell by it and adding min_before_scaling restores the value |
| Scaling.ScaleExample | liquidator/test.cpp:169-193 | the unit test: values in [-8, 2] scaled to [0, 30] give factor 3 and cells 24, 0 and 30 |
| ScoreMatrices.Score.PValueBelow | liquidator/score_matrix.h:44-46 | an unscorable window is below no threshold, as a NaN p-value compares false |
| ScoreMatrices.Score.ScoreValue | liquidator/score_matrix.h:48-49 | an unscorable window's score is 0 |
| ScoreMatrices.UnscorableNeverBelow | liquidator/score_matrix.h:44-49 | an unscorable window's p-value is below no threshold and its score is 0 |
| ScoreMatrices.ScoreMatrix.Value | liquidator/score_matrix.h:79-84 | value succeeds exactly for A C G T a c g t and fails with "Invalid base " followed by the character otherwise |
| ScoreMatrices.ValueReadsColumn | liquidator/score_matrix.h:75-84 | a successful value is the cell of the base's column, and a lower-case base gives the same result as its upper case |
| ScoreMatrices.ScoreMatrix.ScoreSequence | liquidator/score_matrix.h:95 | the Score refers to the given sequence and window |
| ScoreMatrices.ScoreMatrix.Scan | liquidator/score_matrix.h:63-70 | the scan makes \|sequence\| - m + 1 consumer calls when \|sequence\| >= m and none otherwise, and call k is the call of window k |
| ScoreMatrices.CallsUpToAt | liquidator/score_matrix.h:65-68 | call k of the scan is the call of window k, which fits in the sequence |
| ScoreMatrices.WindowCallShape | liquidator/score_matrix.h:65-68 | call k has start k + 1 and stop k + m, is exactly m wide, scores [start - 1, stop), names the motif and the sequence, and carries !is_reverse_complement |
| ScoreMatrices.ScoreSequenceOutcome | liquidator/score_matrix.h:44-49 | a window is unscorable exactly when it holds a non-base; a scored window's p-value is the table entry of its integer total |
| ScoreMatrices.PValueIsTailProbability | liquidator/score_matrix.h:93 | for a built matrix over a probability background, a window's p-value is the probability of a score at least its own, and lies in [0, 1] |
| ScoreMatrices.ScoredPValue | liquidator/score_matrix.h:93 | a scored window's p-value is the table entry of its integer score |
| ScoreMatrices.TableAntitone | liquidator/score_matrix.h:93 | the p-value table of a built matrix over a probability background never increases |
| ScoreMatrices.HigherScoreLowerPValue | liquidator/score_matrix.h:93 | for a built matrix over a probability background (non-negative, summing to 1), a window with a higher integer score never has a higher p-value |
| ScoreMatrices.LowestScoreHasPValueOne | liquidator/score_matrix.h:93 | for a built matrix over a probability background (non-negative, summing to 1), the lowest score has p-value 1 |
| ScoreMatrices.Write | liquidator/score_matrix.h:98-105 | operator<< writes exactly end - begin characters, character i being the upper case of sequence[begin + i] |
| ScoreMatrices.WrittenWindowScoresSame | liquidator/score_matrix.h:38-42 | the written text of a window, scored on its own, has the window's outcome |
| BamScoring.Unmapped | liquidator/motif_liquidator.m.cpp:167-171 | a read is unmapped exactly when flag bit 0x10 (1 << 4) is set |
| BamScoring.UnmappedFlagExamples | liquidator/motif_liquidator.m.cpp:167-171 | flags 0x10 and 0x14 count as unmapped; flag 0 and SAM's unmapped flag 0x4 alone do not |
| BamScoring.IsHit | liquidator/motif_liquidator.m.cpp:258 | an unscorable window is never a hit |
| BamScoring.Counters.Record | liquidator/motif_liquidator.m.cpp:337-385 | one read never lowers a counter, raises the read count, and only appends to the written reads (RecordCounts gives each counter exactly) |
| BamScoring.CountHits | liquidator/motif_liquidator.m.cpp:258-260 | a sequence of consumer calls has at most one hit per call |
| BamScoring.RecordCounts | liquidator/motif_liquidator.m.cpp:337-385 | each read adds 1 to the read count, and 1 to the unmapped count exactly when it is unmapped; the read hit count rises (by one) exactly when the total hit count rose; the unmapped hit count rises exactly when, in addition, the read is unmapped; a read is written at most once, exactly when an output is open and it had a hit |
| BamScoring.RecordKeepsInvariant | liquidator/motif_liquidator.m.cpp:339-385 | scoring a read keeps unmapped <= reads, unmapped hits <= unmapped, unmapped hits <= read hits <= reads, read hits <= total hits, mapped hits <= mapped reads, and one written read per hit read when an output is open |
| BamScoring.UnmappedReads | liquidator/motif_liquidator.m.cpp:167-171 | a run has at most as many unmapped reads as reads |
| BamScoring.HitsOf | liquidator/motif_liquidator.m.cpp:297-300 | one hit count per read of the run |
| BamScoring.HitsOfAt | liquidator/motif_liquidator.m.cpp:344-347 | read i contributes the hits of its own scans, and none when it is a mapped read skipped in unmapped-only mode |
| BamScoring.HitReads | liquidator/motif_liquidator.m.cpp:374-385 | a run has at most as many hit reads as reads |
| BamScoring.RunReadCounts | liquidator/motif_liquidator.m.cpp:291-301 | after a run the read count is the number of reads and the unmapped count the number of unmapped reads |
| BamScoring.RunHitCounts | liquidator/motif_liquidator.m.cpp:291-301 | after a run the total hit count is the sum of the reads' hits, the read hit count the number of reads with a hit, and the unmapped hit count the number of those that are unmapped |
| BamScoring.RunKeepsInvariant | liquidator/motif_liquidator.m.cpp:291-301 | every run keeps the counter relations |
| BamScoring.RunWritten | liquidator/motif_liquidator.m.cpp:374-385 | after a run the written reads are the reads with a hit, in order, when an output is open, and none otherwise |
| BamScoring.SequenceHitsStep | liquidator/motif_liquidator.m.cpp:370-373 | the hits of scanning with one more matrix add that matrix's hits |
| BamScoring.RunStep | liquidator/motif_liquidator.m.cpp:297-300 | scoring one more read of a run records that read's hits on top of the earlier reads |
| BamScoring.BamScorer.MappedReadCount | liquidator/motif_liquidator.m.cpp:232 | the summary's mapped-read count plus the unmapped count is the read count, so the subtraction does not wrap |
| BamScoring.BamScorer.MappedHitCount | liquidator/motif_liquidator.m.cpp:232 | the summary's mapped-hit count plus the unmapped hit count is the read hit count, and it is at most the mapped-read count |
| BamScoring.BamScorer.constructor | liquidator/motif_liquidator.m.cpp:176-221 | the scorer starts with zeroed counters and ends with the counters of scoring every read in order, with the counter relations holding |
| BamScoring.BamScorer.Consume | liquidator/motif_liquidator.m.cpp:252-260 | the total hit count rises by one exactly when the window's p-value is below 0.0001 |
| BamScoring.BamScorer.ConsumeAll | liquidator/score_matrix.h:65-69 | feeding a scan's calls to the consumer adds their number of hits to the total |
| BamScoring.BamScorer.ScanAll | liquidator/motif_liquidator.m.cpp:370-373 | scanning with every matrix in turn adds the hits of all their scans |
| BamScoring.BamScorer.Load | liquidator/motif_liquidator.m.cpp:358-366 | the buffer ends up holding the read's bases, reallocated only when the length differs |
| BamScoring.BamScorer.ScoreRead | liquidator/motif_liquidator.m.cpp:337-386 | the new counters are those of Record for the read and its hits (none for a skipped mapped read), and the counter relations still hold |
| BamScoring.BamScorer.RecordHits | liquidator/motif_liquidator.m.cpp:349-385 | the total hit count rises by the read's hits, the hit-read counters by one when there were any, and the read is written exactly then when an output is open |
| BamScoring.BamScorer.ScoreAllReads | liquidator/motif_liquidator.m.cpp:291-301 | the counters after all reads are those of scoring the run read by read in file order, with the counter relations holding |
| InputTypes.Extension | liquidator/motif_liquidator.m.cpp:88 | the extension is empty, or starts with '.' and ends the last path element |
| InputTypes.ClassifyInput | liquidator/motif_liquidator.m.cpp:88-101 | extension ".bam" gives bam input and ".fasta" gives fasta input, exactly; any refusal has exit status 1 (ClassifyByName restates this on file names) |
| InputTypes.CheckRegionAsWritten | liquidator/motif_liquidator.m.cpp:103-107 | the check as written passes the input type through, and refuses with status 1 only when the key "region_file_path" was stored and the input is fasta |
| InputTypes.LastIndex | liquidator/motif_liquidator.m.cpp:88 | the found index holds the character and none after it does; no index means the character does not occur |
| InputTypes.ExtensionIsSuffix | liquidator/motif_liquidator.m.cpp:88 | a path has extension ".x" (no '.' or '/' in x) exactly when its last element ends with ".x" |
| InputTypes.ClassifyByName | liquidator/motif_liquidator.m.cpp:88-101 | a last element ending in ".bam" gives bam input, one ending in ".fasta" gives fasta input, and anything else is refused with status 1 |
| InputTypes.ClassifyBamExample | liquidator/motif_liquidator.m.cpp:89-92 | "reads.bam" is bam input |
| InputTypes.ClassifyFastaExample | liquidator/motif_liquidator.m.cpp:93-96 | "data/genome.fasta" is fasta input |
| InputTypes.ClassifyCompressedExample | liquidator/motif_liquidator.m.cpp:97-101 | "reads.bam.gz" is refused with status 1 |
| InputTypes.RegionCheckNeverFires | liquidator/motif_liquidator.m.cpp:103-107 | with only registered option keys stored, the check as written never refuses an input |
| InputTypes.CheckRegion | liquidator/motif_liquidator.m.cpp:103-107 | the corrected check refuses with status 1 exactly when a region is given and the input is not bam |
| InputTypes.RegionNeedsBam | liquidator/motif_liquidator.m.cpp:103-107 | with a region given, an input is accepted exactly when its last element ends in ".bam" |
| InputTypes.RegionCheckCounterexample | liquidator/motif_liquidator.m.cpp:47 | fasta input with the registered "region" option passes the check as written and is refused by the corrected one |

## Left out

- Command-line parsing, file opening, stream setup, `process_fasta` and `main` are left out: they are I/O and library plumbing. Only the extension classification and the region check are kept.
- The samtools calls (`bam_open`, `bam_read1`, `bam_write1`, `bam_fetch`, `bam_parse_region`, `bam_index_load`) are foreign calls. A read is given as its flag and bases, the input file as a sequence of reads, and "written" as a list of reads.
- The `bam_nt16_rev_table` decoding of packed bases is left out: a read arrives with its bases already decoded.
- Region parsing and `score_regions` are left out: `parse_regions` is defined in the bamliquidator regions code (bamliquidator_regions.h), which this model does not cover. The constructor is modelled for the path without a region file.
- FASTA reading is left out: `FastaReader` lives in fasta_reader.h, which this model does not cover.
- The output is not modelled: `FimoStylePrinter`, the verbose `std::cout` lines in `operator()` and the verbose header line in the constructor.
- The destructor's statistics printout is left out, because it only prints floating-point percentages. Only the two differences it takes are modelled, as `MappedReadCount` and `MappedHitCount`.
- MEME-format parsing (`ScoreMatrix::read`, `detail::read_pwm`) is left out: it is text-to-double parsing, defined out of line (declared in score_matrix.h and detail/score_matrix_detail.h), which this model does not cover.
- The `log2` pseudocount transform (`detail::log_adjusted_likelihood_ratio`) is transcendental floating point and is left out. The scaling takes its (min, max) pair as given.
- IEEE doubles, NaN and rounding are left out: values are exact reals and NaN is the tagged `Unscorable` outcome. The 0.0001 threshold is kept as an exact constant.
- Scaling.Scale: the rounding of scaled reals to `unsigned` cells is left out. It happens in the out-of-line `ScoreMatrix` constructor, which this model does not cover. The scaled matrix is real-valued, and the integer matrix of a `ScoreMatrix` is taken as given.
- Scaling.Scale: requires min < max, because the factor divides by max - min. The unit test only uses such a pair, and this model does not describe a degenerate range.
- The clipping of log-odds values below `min_before_scaling` is left out. It is done in the out-of-line `ScoreMatrix` constructor, which this model does not cover. ScaledWithinRange states the bound only for values inside [min, max].
- BamScoring.BamScorer.Consume: takes the six-value consumer call that the header makes. The five-parameter signature and the `is_reverse_complement` call on `Score` in the source do not match the header.
- The `std::string` resizing subtleties of `m_sequence` are modelled as an array that is reallocated when the length differs. Aliasing of the buffer by the consumer's `Score` is not modelled: each scan works on a copy of the buffer's contents.
- The sequence name passed to `score_read` by `score_all_reads` is the unset (empty) name. The region path's names are not modelled.
- The interleaving of the consumer's side effects with the scan is simplified: a scan returns its consumer calls in order, and the scorer then consumes them in that order. Because the consumer only counts hits, the counters are the same.
- `boost::filesystem::extension` is modelled for '/'-separated paths. Root names, trailing separators and platform-specific path syntax are not modelled.
- `ScoreMatrix` construction, the steps that chain `scale`, `probability_distribution` and `pdf_to_pvalues` into a matrix, is left out. It is defined out of line (score_matrix.h:26-31 only declares the constructor), and this model does not cover that file. The model states it as the predicate `Built`: the table is `PValuesOf` of the distribution.
- The program's reverse-complement `ScoreMatrix` is left out. It is built by reversing and complementing the frequency matrix, then recomputing the log-odds against the background and rescaling. It matches `ReverseComplement` of the forward integer matrix only when the background is complement-symmetric (bg[A] = bg[T], bg[C] = bg[G]). ReverseComplementScores is stated for the reverse complement of a given integer matrix only.

## Findings

| source | as written | input that shows it | evidently intended | confidence | as-written member | corrected member |
|---|---|---|---|---|---|---|
| liquidator/motif_liquidator.m.cpp:103 | the region check looks up the key "region_file_path", but the option is registered as "region" (line 47), so the lookup never finds it | `motif_liquidator -r regions.bed motif.meme genome.fasta`: fasta input with a region file is not refused | region filtering is refused for any input but bam, with exit status 1 | not executed | InputTypes.RegionCheckNeverFires | InputTypes.RegionNeedsBam |
