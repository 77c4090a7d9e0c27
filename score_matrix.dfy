/** ScoreMatrix: a motif matrix ready for scanning, the Score record it hands out per
    window, and the window scan itself. */
module ScoreMatrices {
  import opened Wrappers
  import opened Alphabet
  import opened Matrix
  import opened Sums
  import opened Distribution
  import opened PValues
  import WindowScore

  /** How a window scored. Unscorable stands for the NaN p-value of a window that holds a
      character other than A, C, G, T. */
  datatype Outcome = Scored(pvalue: real, score: real) | Unscorable

  /** ScoreMatrix::Score: the window [begin, end) of a sequence and its outcome. */
  datatype Score = Score(sequence: string, begin: nat, end: nat, outcome: Outcome)
  {
    predicate Valid() {
      begin <= end <= |sequence|
    }

    /** pvalue() < x. A NaN p-value compares false with every x. */
    predicate PValueBelow(x: real)
      ensures outcome.Unscorable? ==> !PValueBelow(x)
    {
      outcome.Scored? && outcome.pvalue < x
    }

    /** score(): the score, or 0 for an unscorable window. */
    function ScoreValue(): (r: real)
      ensures outcome.Unscorable? ==> r == 0.0
    {
      if outcome.Scored? then outcome.score else 0.0
    }
  }

  /** An unscorable window scores 0 and is below no threshold. */
  lemma {:induction false} UnscorableNeverBelow(s: Score, x: real)
    requires s.outcome.Unscorable?
    ensures !s.PValueBelow(x) && s.ScoreValue() == 0.0
  {
  }

  /** One call of the score consumer: motif name, sequence name, forward-strand flag,
      1-based start, stop, and the window's Score. */
  datatype ConsumerCall = ConsumerCall(motifName: string, sequenceName: string, forwardStrand: bool,
                                       start: nat, stop: nat, score: Score)

  /** A scoring matrix: its name and strand, the background distribution, the
      integer-scaled matrix, the scaling to undo, and the p-value of every integer score. */
  datatype ScoreMatrix = ScoreMatrix(name: string, isReverseComplement: bool, background: RealRow,
                                     matrix: IntMatrix, scale: real, minBeforeScaling: real,
                                     pvalues: seq<real>)
  {
    /** One p-value per attainable integer score, and a scale that can be undone. */
    predicate Valid() {
      |pvalues| == 1 + MaxSum(matrix) && scale > 0.0
    }

    /** The p-value table is the one computed from the matrix and the background. */
    predicate Built() {
      pvalues == PValuesOf(ProbabilityDistribution(matrix, background)) && scale > 0.0
    }

    function Length(): nat {
      |matrix|
    }

    /** value(position, base): the cell of the base's column, or the "Invalid base"
        error for any other character. */
    function Value(position: nat, base: char): (r: Result<nat, string>)
      requires position < |matrix|
      ensures r.Success? <==> base in "ACGTacgt"
      ensures r.Failure? ==> r.error == "Invalid base " + [base]
    {
      BaseLetters(base);
      var column := Column(base);
      if column >= AlphabetSize then Failure("Invalid base " + [base])
      else Success(matrix[position][column])
    }

    /** score_sequence: the window's integer total picks its p-value from the table;
        the score undoes the scaling of every row. */
    function ScoreSequence(sequence: string, begin: nat, end: nat): (s: Score)
      requires Valid() && begin <= end <= |sequence| && end - begin == |matrix|
      ensures s.Valid() && s.sequence == sequence && s.begin == begin && s.end == end
    {
      match WindowScore.WindowTotal(matrix, sequence, begin, end)
      case None => Score(sequence, begin, end, Unscorable)
      case Some(t) =>
        WindowScore.ScoreBound(matrix, sequence, begin, end);
        assert matrix[..end - begin] == matrix;
        Score(sequence, begin, end,
              Scored(pvalues[t], t as real / scale + |matrix| as real * minBeforeScaling))
    }

    /** The consumer call for the window starting at 0-based offset k. */
    function WindowCall(sequence: string, sequenceName: string, k: nat): ConsumerCall
      requires Valid() && k + |matrix| <= |sequence|
    {
      ConsumerCall(name, sequenceName, !isReverseComplement, k + 1, k + |matrix|,
                   ScoreSequence(sequence, k, k + |matrix|))
    }

    /** The consumer calls of the first n windows, in order. */
    function CallsUpTo(sequence: string, sequenceName: string, n: nat): (calls: seq<ConsumerCall>)
      requires Valid() && (n == 0 || n - 1 + |matrix| <= |sequence|)
      ensures |calls| == n
    {
      if n == 0 then [] else CallsUpTo(sequence, sequenceName, n - 1) + [WindowCall(sequence, sequenceName, n - 1)]
    }

    /** All consumer calls of a scan, in order. */
    function Calls(sequence: string, sequenceName: string): seq<ConsumerCall>
      requires Valid()
    {
      CallsUpTo(sequence, sequenceName, if |matrix| <= |sequence| then |sequence| - |matrix| + 1 else 0)
    }

    /** score(sequence, sequence_name, consumer): one consumer call per window of the
        matrix length, left to right. */
    method Scan(sequence: string, sequenceName: string) returns (calls: seq<ConsumerCall>)
      requires Valid()
      ensures |calls| == if |matrix| <= |sequence| then |sequence| - |matrix| + 1 else 0
      ensures forall k :: 0 <= k < |calls| ==>
                k + |matrix| <= |sequence| && calls[k] == WindowCall(sequence, sequenceName, k)
      ensures calls == Calls(sequence, sequenceName)
    {
      calls := [];
      var start: nat, stop: nat := 1, |matrix|;
      while stop <= |sequence|
        invariant 1 <= start && stop == start - 1 + |matrix|
        invariant start - 1 <= (if |matrix| <= |sequence| then |sequence| - |matrix| + 1 else 0)
        invariant |calls| == start - 1
        invariant forall k :: 0 <= k < |calls| ==>
                    k + |matrix| <= |sequence| && calls[k] == WindowCall(sequence, sequenceName, k)
        decreases |sequence| + 1 - stop
      {
        var score := ScoreSequence(sequence, start - 1, stop);
        calls := calls + [ConsumerCall(name, sequenceName, !isReverseComplement, start, stop, score)];
        start, stop := start + 1, stop + 1;
      }
      CallsByWindows(this, sequence, sequenceName, calls);
    }
  }

  /** Call k of the first n is the call of window k. */
  lemma {:induction false} CallsUpToAt(sm: ScoreMatrix, sequence: string, sequenceName: string, n: nat, k: nat)
    requires sm.Valid() && (n == 0 || n - 1 + |sm.matrix| <= |sequence|) && k < n
    ensures k + |sm.matrix| <= |sequence|
    ensures sm.CallsUpTo(sequence, sequenceName, n)[k] == sm.WindowCall(sequence, sequenceName, k)
    decreases n
  {
    if k < n - 1 {
      CallsUpToAt(sm, sequence, sequenceName, n - 1, k);
    }
  }

  /** Calls that are the window calls one by one are the calls of the first windows. */
  lemma {:induction false} CallsByWindows(sm: ScoreMatrix, sequence: string, sequenceName: string,
                                          calls: seq<ConsumerCall>)
    requires sm.Valid() && (|calls| == 0 || |calls| - 1 + |sm.matrix| <= |sequence|)
    requires forall k :: 0 <= k < |calls| ==>
               k + |sm.matrix| <= |sequence| && calls[k] == sm.WindowCall(sequence, sequenceName, k)
    ensures calls == sm.CallsUpTo(sequence, sequenceName, |calls|)
    decreases |calls|
  {
    if |calls| > 0 {
      CallsByWindows(sm, sequence, sequenceName, calls[..|calls| - 1]);
    }
  }

  /** Every window is exactly as wide as the matrix, starts one after the previous one,
      names the matrix, and carries the strand of the matrix. */
  lemma {:induction false} WindowCallShape(sm: ScoreMatrix, sequence: string, sequenceName: string, k: nat)
    requires sm.Valid() && k + |sm.matrix| <= |sequence|
    ensures var c := sm.WindowCall(sequence, sequenceName, k);
            c.start == k + 1 && c.stop == k + |sm.matrix| && c.stop - (c.start - 1) == sm.Length() &&
            c.forwardStrand == !sm.isReverseComplement && c.motifName == sm.name &&
            c.sequenceName == sequenceName &&
            c.score.begin == c.start - 1 && c.score.end == c.stop && c.score.sequence == sequence
  {
  }

  /** value accepts a base in either case and reads the cell of its column, which is
      the same for both cases. */
  lemma {:induction false} ValueReadsColumn(sm: ScoreMatrix, position: nat, base: char)
    requires position < |sm.matrix|
    ensures sm.Value(position, base).Success? ==>
            IsBase(base) && sm.Value(position, base).value == sm.matrix[position][Column(base)]
    ensures sm.Value(position, base).Success? <==> sm.Value(position, ToUpper(base)).Success?
    ensures sm.Value(position, base).Success? ==>
            sm.Value(position, base).value == sm.Value(position, ToUpper(base)).value
  {
    ColumnIgnoresCase(base);
    BaseLetters(base);
    BaseLetters(ToUpper(base));
  }

  /** A window is unscorable exactly when it holds a non-base; a scored window's p-value is
      the table entry of its integer score, the sum of its cells. */
  lemma {:induction false} ScoreSequenceOutcome(sm: ScoreMatrix, sequence: string, begin: nat, end: nat)
    requires sm.Valid() && begin <= end <= |sequence| && end - begin == |sm.matrix|
    ensures sm.ScoreSequence(sequence, begin, end).outcome.Unscorable? <==>
            exists i :: begin <= i < end && !IsBase(sequence[i])
    ensures sm.ScoreSequence(sequence, begin, end).outcome.Scored? ==>
            IsColumnString(Columns(sequence[begin..end])) &&
            Total(sm.matrix, Columns(sequence[begin..end])) < |sm.pvalues| &&
            sm.ScoreSequence(sequence, begin, end).outcome.pvalue ==
            sm.pvalues[Total(sm.matrix, Columns(sequence[begin..end]))]
  {
    WindowScore.WindowTotalIsTotal(sm.matrix, sequence, begin, end);
    WindowScore.ScoreBound(sm.matrix, sequence, begin, end);
    assert sm.matrix[..end - begin] == sm.matrix;
  }

  /** For a built matrix over a probability background, the p-value of a scored window is
      the background probability of the scores at or above the window's score. */
  lemma {:induction false} PValueIsTailProbability(sm: ScoreMatrix, sequence: string, begin: nat, end: nat)
    requires sm.Built() && NonNegative(sm.background) && BackgroundTotal(sm.background) == 1.0
    requires begin <= end <= |sequence| && end - begin == |sm.matrix|
    requires sm.ScoreSequence(sequence, begin, end).outcome.Scored?
    ensures var t := WindowScore.Score(sm.matrix, sequence, begin, end);
            var pdf := ProbabilityDistribution(sm.matrix, sm.background);
            t < |pdf| && sm.ScoreSequence(sequence, begin, end).outcome.pvalue == Sum(pdf[t..])
    ensures 0.0 <= sm.ScoreSequence(sequence, begin, end).outcome.pvalue <= 1.0
  {
    var t := WindowScore.Score(sm.matrix, sequence, begin, end);
    var pdf := ProbabilityDistribution(sm.matrix, sm.background);
    WindowScore.ScoreBound(sm.matrix, sequence, begin, end);
    assert sm.matrix[..end - begin] == sm.matrix;
    DistributionNonNegative(sm.matrix, sm.background);
    DistributionIsProbability(sm.matrix, sm.background);
    PValuesAreClampedTailSums(pdf, t);
    SuffixAtMostSum(pdf, t);
  }

  /** For a built matrix over a probability background, a window with a higher integer
      score never gets a higher p-value. */
  lemma {:induction false} HigherScoreLowerPValue(sm: ScoreMatrix, sequence: string, begin: nat, begin': nat)
    requires sm.Built() && NonNegative(sm.background) && BackgroundTotal(sm.background) == 1.0
    requires begin + |sm.matrix| <= |sequence| && begin' + |sm.matrix| <= |sequence|
    requires sm.ScoreSequence(sequence, begin, begin + |sm.matrix|).outcome.Scored?
    requires sm.ScoreSequence(sequence, begin', begin' + |sm.matrix|).outcome.Scored?
    requires WindowScore.Score(sm.matrix, sequence, begin, begin + |sm.matrix|) <=
             WindowScore.Score(sm.matrix, sequence, begin', begin' + |sm.matrix|)
    ensures sm.ScoreSequence(sequence, begin', begin' + |sm.matrix|).outcome.pvalue <=
            sm.ScoreSequence(sequence, begin, begin + |sm.matrix|).outcome.pvalue
  {
    ScoredPValue(sm, sequence, begin);
    ScoredPValue(sm, sequence, begin');
    TableAntitone(sm, WindowScore.Score(sm.matrix, sequence, begin, begin + |sm.matrix|),
                  WindowScore.Score(sm.matrix, sequence, begin', begin' + |sm.matrix|));
  }

  /** A scored window's p-value is the table entry of its integer score. */
  lemma {:induction false} ScoredPValue(sm: ScoreMatrix, sequence: string, begin: nat)
    requires sm.Valid() && begin + |sm.matrix| <= |sequence|
    requires sm.ScoreSequence(sequence, begin, begin + |sm.matrix|).outcome.Scored?
    ensures var t := WindowScore.Score(sm.matrix, sequence, begin, begin + |sm.matrix|);
            t < |sm.pvalues| &&
            sm.ScoreSequence(sequence, begin, begin + |sm.matrix|).outcome.pvalue == sm.pvalues[t]
  {
    WindowScore.ScoreBound(sm.matrix, sequence, begin, begin + |sm.matrix|);
    assert sm.matrix[..|sm.matrix|] == sm.matrix;
  }

  /** The p-value table of a built matrix over a probability background never increases. */
  lemma {:induction false} TableAntitone(sm: ScoreMatrix, i: nat, j: nat)
    requires sm.Built() && NonNegative(sm.background) && BackgroundTotal(sm.background) == 1.0
    requires i <= j < |sm.pvalues|
    ensures sm.pvalues[j] <= sm.pvalues[i]
  {
    var pdf := ProbabilityDistribution(sm.matrix, sm.background);
    DistributionNonNegative(sm.matrix, sm.background);
    DistributionIsProbability(sm.matrix, sm.background);
    EntryAtMostSum(pdf, |pdf| - 1);
    PValuesAntitone(pdf, i, j);
  }

  /** For a built matrix over a probability background, the lowest score has p-value 1. */
  lemma {:induction false} LowestScoreHasPValueOne(sm: ScoreMatrix)
    requires sm.Built() && NonNegative(sm.background) && BackgroundTotal(sm.background) == 1.0
    ensures sm.pvalues[0] == 1.0
  {
    var pdf := ProbabilityDistribution(sm.matrix, sm.background);
    DistributionNonNegative(sm.matrix, sm.background);
    DistributionIsProbability(sm.matrix, sm.background);
    PValuesAreClampedTailSums(pdf, 0);
    assert pdf[0..] == pdf;
  }

  /** operator<<: the window's characters, upper-cased. */
  method Write(score: Score) returns (out: string)
    requires score.Valid()
    ensures |out| == score.end - score.begin
    ensures forall i :: 0 <= i < |out| ==> out[i] == ToUpper(score.sequence[score.begin + i])
  {
    out := "";
    var i := score.begin;
    while i < score.end
      invariant score.begin <= i <= score.end
      invariant |out| == i - score.begin
      invariant forall k :: 0 <= k < |out| ==> out[k] == ToUpper(score.sequence[score.begin + k])
    {
      out := out + [ToUpper(score.sequence[i])];
      i := i + 1;
    }
  }

  /** The text written for a window, scored on its own, scores as the window did. */
  lemma {:induction false} WrittenWindowScoresSame(sm: ScoreMatrix, sequence: string, begin: nat, out: string)
    requires sm.Valid() && begin + |sm.matrix| <= |sequence|
    requires |out| == |sm.matrix|
    requires forall i :: 0 <= i < |out| ==> out[i] == ToUpper(sequence[begin + i])
    ensures sm.ScoreSequence(out, 0, |out|).outcome ==
            sm.ScoreSequence(sequence, begin, begin + |sm.matrix|).outcome
  {
    var end := begin + |sm.matrix|;
    assert out == Upper(sequence[begin..end]);
    WindowScore.ScoreIgnoresOutside(sm.matrix, sequence, begin, end);
    WindowScore.ScoreIgnoresCase(sm.matrix, sequence[begin..end], 0, |out|);
  }
}
