/** The exact score distribution of an integer-scaled matrix (detail::probability_distribution):
    entry s is the background probability that a random base string of the matrix's
    length scores exactly s. It is computed row by row, each row convolving the running
    distribution into a fresh sequence that is longer by the row's largest cell. */
module Distribution {
  import opened Alphabet
  import opened Matrix
  import opened Sums

  /** Entry s of d moved `offset` places up; 0 where nothing lands. */
  function ShiftedAt(d: seq<real>, offset: nat, s: nat): real {
    if offset <= s < offset + |d| then d[s - offset] else 0.0
  }

  /** Weighted sum of four per-base values under a background. */
  function Mix(background: RealRow, x0: real, x1: real, x2: real, x3: real): real {
    Times(background[0], x0) + Times(background[1], x1) + Times(background[2], x2) + Times(background[3], x3)
  }

  /** Distribution after one more row: the mass on t moves to t + row[j] with weight
      background[j], for each of the four bases j. */
  function Convolve(d: seq<real>, row: IntRow, background: RealRow): (r: seq<real>)
    ensures |r| == |d| + RowMax(row)
  {
    seq(|d| + RowMax(row), s requires 0 <= s < |d| + RowMax(row) =>
      Mix(background, ShiftedAt(d, row[0], s), ShiftedAt(d, row[1], s),
                      ShiftedAt(d, row[2], s), ShiftedAt(d, row[3], s)))
  }

  /** detail::probability_distribution: all mass on score 0 before any row, then one
      convolution per row, in row order. */
  function ProbabilityDistribution(matrix: IntMatrix, background: RealRow): (r: seq<real>)
    ensures |r| == 1 + MaxSum(matrix)
  {
    if |matrix| == 0 then [1.0]
    else
      var n := |matrix| - 1;
      Convolve(ProbabilityDistribution(matrix[..n], background), matrix[n], background)
  }

  /** Reference for one entry: the probability that the rows' cells, each row's base
      drawn independently from the background, add up to s. */
  function Prob(matrix: IntMatrix, background: RealRow, s: int): real
    decreases |matrix|
  {
    if |matrix| == 0 then (if s == 0 then 1.0 else 0.0)
    else
      var n := |matrix| - 1;
      var row := matrix[n];
      Mix(background, Prob(matrix[..n], background, s - row[0]), Prob(matrix[..n], background, s - row[1]),
                      Prob(matrix[..n], background, s - row[2]), Prob(matrix[..n], background, s - row[3]))
  }

  /** No mass outside [0, MaxSum]. */
  lemma {:induction false} ProbOutside(matrix: IntMatrix, background: RealRow, s: int)
    requires s < 0 || s > MaxSum(matrix)
    ensures Prob(matrix, background, s) == 0.0
    decreases |matrix|
  {
    if |matrix| > 0 {
      var n := |matrix| - 1;
      var row := matrix[n];
      ProbOutside(matrix[..n], background, s - row[0]);
      ProbOutside(matrix[..n], background, s - row[1]);
      ProbOutside(matrix[..n], background, s - row[2]);
      ProbOutside(matrix[..n], background, s - row[3]);
      MixZero(background);
    }
  }

  /** A shifted copy of a sequence that agrees with the reference agrees with the
      reference shifted. */
  lemma {:induction false} ShiftedAgrees(d: seq<real>, matrix: IntMatrix, background: RealRow, offset: nat, s: nat)
    requires |d| == 1 + MaxSum(matrix)
    requires forall t :: 0 <= t < |d| ==> d[t] == Prob(matrix, background, t)
    ensures ShiftedAt(d, offset, s) == Prob(matrix, background, s - offset)
  {
    if !(offset <= s < offset + |d|) {
      ProbOutside(matrix, background, s - offset);
    }
  }

  /** One convolution step agrees with the reference for one more row. */
  lemma {:induction false} ConvolveAgrees(d: seq<real>, matrix: IntMatrix, background: RealRow, s: nat)
    requires |matrix| > 0
    requires |d| == 1 + MaxSum(matrix[..|matrix| - 1])
    requires forall t :: 0 <= t < |d| ==> d[t] == Prob(matrix[..|matrix| - 1], background, t)
    requires s < |d| + RowMax(matrix[|matrix| - 1])
    ensures Convolve(d, matrix[|matrix| - 1], background)[s] == Prob(matrix, background, s)
  {
    var n := |matrix| - 1;
    var row := matrix[n];
    forall j | 0 <= j < AlphabetSize
      ensures ShiftedAt(d, row[j], s) == Prob(matrix[..n], background, s - row[j])
    {
      ShiftedAgrees(d, matrix[..n], background, row[j], s);
    }
  }

  /** The convolution computes the reference entry by entry. */
  lemma {:induction false} DistributionAt(matrix: IntMatrix, background: RealRow)
    ensures var d := ProbabilityDistribution(matrix, background);
      forall s :: 0 <= s < |d| ==> d[s] == Prob(matrix, background, s)
    decreases |matrix|
  {
    if |matrix| > 0 {
      var n := |matrix| - 1;
      DistributionAt(matrix[..n], background);
      var d := ProbabilityDistribution(matrix[..n], background);
      forall s | 0 <= s < |d| + RowMax(matrix[n])
        ensures Convolve(d, matrix[n], background)[s] == Prob(matrix, background, s)
      {
        ConvolveAgrees(d, matrix, background, s);
      }
    }
  }

  /** Mass of the reference on the scores [0, hi). */
  function ProbBelow(matrix: IntMatrix, background: RealRow, hi: nat): real {
    if hi == 0 then 0.0 else ProbBelow(matrix, background, hi - 1) + Prob(matrix, background, hi - 1)
  }

  /** Mass of the reference on the scores [-k, hi - k). */
  function ShiftedBelow(matrix: IntMatrix, background: RealRow, k: nat, hi: nat): real {
    if hi == 0 then 0.0 else ShiftedBelow(matrix, background, k, hi - 1) + Prob(matrix, background, hi - 1 - k)
  }

  lemma {:induction false} ShiftedBelowIs(matrix: IntMatrix, background: RealRow, k: nat, hi: nat)
    ensures ShiftedBelow(matrix, background, k, hi) ==
            if hi <= k then 0.0 else ProbBelow(matrix, background, hi - k)
    decreases hi
  {
    if hi > 0 {
      ShiftedBelowIs(matrix, background, k, hi - 1);
      if hi <= k {
        ProbOutside(matrix, background, hi - 1 - k);
      }
    }
  }

  /** Mass below hi after one more row: each base's share of the shorter matrix's mass. */
  lemma {:induction false} ProbBelowLastRow(matrix: IntMatrix, background: RealRow, hi: nat)
    requires |matrix| > 0
    ensures var n := |matrix| - 1;
      var row := matrix[n];
      ProbBelow(matrix, background, hi) ==
        Mix(background, ShiftedBelow(matrix[..n], background, row[0], hi), ShiftedBelow(matrix[..n], background, row[1], hi),
                        ShiftedBelow(matrix[..n], background, row[2], hi), ShiftedBelow(matrix[..n], background, row[3], hi))
    decreases hi
  {
    if hi > 0 {
      ProbBelowLastRow(matrix, background, hi - 1);
      var n := |matrix| - 1;
      var row := matrix[n];
      var b := background;
      var m := matrix[..n];
      var p0, p1, p2, p3 := Prob(m, b, hi - 1 - row[0]), Prob(m, b, hi - 1 - row[1]), Prob(m, b, hi - 1 - row[2]), Prob(m, b, hi - 1 - row[3]);
      var s0, s1, s2, s3 := ShiftedBelow(m, b, row[0], hi - 1), ShiftedBelow(m, b, row[1], hi - 1), ShiftedBelow(m, b, row[2], hi - 1), ShiftedBelow(m, b, row[3], hi - 1);
      assert E1: Prob(matrix, b, hi - 1) == Mix(b, p0, p1, p2, p3);
      assert E2: ProbBelow(matrix, b, hi) == Mix(b, s0, s1, s2, s3) + Mix(b, p0, p1, p2, p3);
      MixAdd(b, s0, s1, s2, s3, p0, p1, p2, p3);
    } else {
      MixZero(background);
    }
  }

  lemma {:induction false} MixZero(b: RealRow)
    ensures Mix(b, 0.0, 0.0, 0.0, 0.0) == 0.0
  {
  }

  lemma {:induction false} MixAdd(b: RealRow, x0: real, x1: real, x2: real, x3: real, y0: real, y1: real, y2: real, y3: real)
    ensures Mix(b, x0, x1, x2, x3) + Mix(b, y0, y1, y2, y3) == Mix(b, x0 + y0, x1 + y1, x2 + y2, x3 + y3)
  {
  }

  /** Beyond MaxSum there is nothing more to add. */
  lemma {:induction false} ProbBelowSaturates(matrix: IntMatrix, background: RealRow, hi: nat)
    requires hi >= 1 + MaxSum(matrix)
    ensures ProbBelow(matrix, background, hi) == ProbBelow(matrix, background, 1 + MaxSum(matrix))
    decreases hi
  {
    if hi > 1 + MaxSum(matrix) {
      ProbBelowSaturates(matrix, background, hi - 1);
      ProbOutside(matrix, background, hi - 1);
    }
  }

  /** A shifted window that covers all of the reference's support holds all of its mass. */
  lemma {:induction false} ShiftedBelowAll(matrix: IntMatrix, background: RealRow, k: nat, hi: nat)
    requires k + 1 + MaxSum(matrix) <= hi
    ensures ShiftedBelow(matrix, background, k, hi) == ProbBelow(matrix, background, 1 + MaxSum(matrix))
  {
    ShiftedBelowIs(matrix, background, k, hi);
    ProbBelowSaturates(matrix, background, hi - k);
  }

  /** Total mass of the reference: the background's total to the power of the matrix length. */
  lemma {:induction false} ProbTotal(matrix: IntMatrix, background: RealRow)
    ensures ProbBelow(matrix, background, 1 + MaxSum(matrix)) == Power(BackgroundTotal(background), |matrix|)
    decreases |matrix|
  {
    var b := background;
    if |matrix| == 0 {
      assert ProbBelow(matrix, b, 1) == Prob(matrix, b, 0);
    } else {
      var n := |matrix| - 1;
      var m := matrix[..n];
      var row := matrix[n];
      var hi := 1 + MaxSum(matrix);
      assert hi == 1 + MaxSum(m) + RowMax(row);
      ProbBelowLastRow(matrix, b, hi);
      ProbTotal(m, b);
      var p := Power(BackgroundTotal(b), n);
      ShiftedBelowAll(m, b, row[0], hi);
      ShiftedBelowAll(m, b, row[1], hi);
      ShiftedBelowAll(m, b, row[2], hi);
      ShiftedBelowAll(m, b, row[3], hi);
      assert ProbBelow(matrix, b, hi) == Mix(b, p, p, p, p);
      MixPower(b, |matrix|);
    }
  }

  lemma {:induction false} MixPower(background: RealRow, n: nat)
    requires n > 0
    ensures var p := Power(BackgroundTotal(background), n - 1);
      Mix(background, p, p, p, p) == Power(BackgroundTotal(background), n)
  {
  }

  /** A sequence that agrees with the reference below hi sums to its mass below hi. */
  lemma {:induction false} SumAgreeing(x: seq<real>, matrix: IntMatrix, background: RealRow)
    requires forall s :: 0 <= s < |x| ==> x[s] == Prob(matrix, background, s)
    ensures Sum(x) == ProbBelow(matrix, background, |x|)
    decreases |x|
  {
    if |x| > 0 {
      SumAgreeing(x[..|x| - 1], matrix, background);
    }
  }

  /** Total mass of the distribution: the background's total to the power of the matrix
      length (so 1 for a background that sums to 1). */
  lemma {:induction false} DistributionSum(matrix: IntMatrix, background: RealRow)
    ensures Sum(ProbabilityDistribution(matrix, background)) == Power(BackgroundTotal(background), |matrix|)
  {
    DistributionAt(matrix, background);
    SumAgreeing(ProbabilityDistribution(matrix, background), matrix, background);
    ProbTotal(matrix, background);
  }

  /** Under a background summing to 1 the distribution sums to 1. */
  lemma {:induction false} DistributionIsProbability(matrix: IntMatrix, background: RealRow)
    requires BackgroundTotal(background) == 1.0
    ensures Sum(ProbabilityDistribution(matrix, background)) == 1.0
  {
    DistributionSum(matrix, background);
    PowerOfOne(|matrix|);
  }

  lemma {:induction false} ProbNonNegative(matrix: IntMatrix, background: RealRow, s: int)
    requires NonNegative(background)
    ensures 0.0 <= Prob(matrix, background, s)
    decreases |matrix|
  {
    if |matrix| > 0 {
      var n := |matrix| - 1;
      var row := matrix[n];
      var b := background;
      ProbNonNegative(matrix[..n], b, s - row[0]);
      ProbNonNegative(matrix[..n], b, s - row[1]);
      ProbNonNegative(matrix[..n], b, s - row[2]);
      ProbNonNegative(matrix[..n], b, s - row[3]);
      NonNegative4(b[0], b[1], b[2], b[3],
                   Prob(matrix[..n], b, s - row[0]), Prob(matrix[..n], b, s - row[1]),
                   Prob(matrix[..n], b, s - row[2]), Prob(matrix[..n], b, s - row[3]));
    }
  }

  lemma {:induction false} NonNegative4(b0: real, b1: real, b2: real, b3: real, x0: real, x1: real, x2: real, x3: real)
    requires 0.0 <= b0 && 0.0 <= b1 && 0.0 <= b2 && 0.0 <= b3
    requires 0.0 <= x0 && 0.0 <= x1 && 0.0 <= x2 && 0.0 <= x3
    ensures 0.0 <= b0 * x0 + b1 * x1 + b2 * x2 + b3 * x3
  {
  }

  /** A non-negative background gives non-negative entries. */
  lemma {:induction false} DistributionNonNegative(matrix: IntMatrix, background: RealRow)
    requires NonNegative(background)
    ensures NonNegative(ProbabilityDistribution(matrix, background))
  {
    var d := ProbabilityDistribution(matrix, background);
    DistributionAt(matrix, background);
    forall s | 0 <= s < |d|
      ensures 0.0 <= d[s]
    {
      ProbNonNegative(matrix, background, s);
    }
  }

  predicate IsZeroMatrix(matrix: IntMatrix) {
    forall i :: 0 <= i < |matrix| ==> matrix[i] == [0, 0, 0, 0]
  }

  lemma {:induction false} ZeroMatrixProb(matrix: IntMatrix, background: RealRow)
    requires IsZeroMatrix(matrix) && BackgroundTotal(background) == 1.0
    ensures MaxSum(matrix) == 0 && Prob(matrix, background, 0) == 1.0
    decreases |matrix|
  {
    if |matrix| > 0 {
      ZeroMatrixProb(matrix[..|matrix| - 1], background);
    }
  }

  /** An all-zero matrix (or no rows at all) puts all the mass on score 0. */
  lemma {:induction false} ZeroMatrixDistribution(matrix: IntMatrix, background: RealRow)
    requires IsZeroMatrix(matrix) && BackgroundTotal(background) == 1.0
    ensures ProbabilityDistribution(matrix, background) == [1.0]
  {
    ZeroMatrixProb(matrix, background);
    DistributionAt(matrix, background);
  }

  /** The probability-distribution unit test under the uniform background: no rows, and
      two all-zero rows. */
  lemma DistributionExamplesZero()
    ensures ProbabilityDistribution([], Uniform) == [1.0]
    ensures ProbabilityDistribution([[0, 0, 0, 0], [0, 0, 0, 0]], Uniform) == [1.0]
  {
    ZeroMatrixDistribution([[0, 0, 0, 0], [0, 0, 0, 0]], Uniform);
  }

  /** The probability-distribution unit test under the uniform background: one row with
      a single 1, and two rows with two 1s each. */
  lemma DistributionExamplesOnes()
    ensures ProbabilityDistribution([[0, 0, 1, 0]], Uniform) == [0.75, 0.25]
    ensures ProbabilityDistribution([[0, 0, 1, 1], [1, 0, 1, 0]], Uniform) == [0.25, 0.5, 0.25]
  {
    var one: IntMatrix := [[0, 0, 1, 0]];
    assert one[..0] == [];
    var two: IntMatrix := [[0, 0, 1, 1], [1, 0, 1, 0]];
    assert two[..1] == [[0, 0, 1, 1]];
    assert two[..1][..0] == [];
    assert ProbabilityDistribution(two[..1], Uniform) == [0.5, 0.5];
  }

  const Uniform: RealRow := [0.25, 0.25, 0.25, 0.25]
}
