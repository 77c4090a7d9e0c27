/** The integer score of one window of a base string: the detail::score routine behind
    the score matrix. Row i - begin of the matrix scores character i of the window. */
module WindowScore {
  import opened Wrappers
  import opened Alphabet
  import opened Matrix

  /** Sum of the cells the window [begin, end) selects, or None when a character of the
      window is not a base. Characters outside the window are never read. */
  function WindowTotal(matrix: IntMatrix, sequence: string, begin: nat, end: nat): (r: Option<nat>)
    requires begin <= end <= |sequence| && end - begin <= |matrix|
    ensures r.Some? <==> forall i :: begin <= i < end ==> IsBase(sequence[i])
    decreases end - begin
  {
    if end == begin then Some(0)
    else
      var col := Column(sequence[end - 1]);
      match WindowTotal(matrix, sequence, begin, end - 1)
      case None => None
      case Some(t) =>
        if col < AlphabetSize then Some(t + matrix[end - 1 - begin][col]) else None
  }

  /** detail::score: the window total, and 0 for a window holding a non-base. */
  function Score(matrix: IntMatrix, sequence: string, begin: nat, end: nat): (r: nat)
    requires begin <= end <= |sequence| && end - begin <= |matrix|
    ensures (exists i :: begin <= i < end && !IsBase(sequence[i])) ==> r == 0
  {
    match WindowTotal(matrix, sequence, begin, end)
    case None => 0
    case Some(t) => t
  }

  /** The window is scorable exactly when all its characters are bases, and then its
      total is the Total of its column string over the first end - begin rows. */
  lemma {:induction false} WindowTotalIsTotal(matrix: IntMatrix, sequence: string, begin: nat, end: nat)
    requires begin <= end <= |sequence| && end - begin <= |matrix|
    ensures WindowTotal(matrix, sequence, begin, end).Some? <==>
            forall i :: begin <= i < end ==> IsBase(sequence[i])
    ensures WindowTotal(matrix, sequence, begin, end).Some? ==>
            IsColumnString(Columns(sequence[begin..end])) &&
            WindowTotal(matrix, sequence, begin, end).value ==
            Total(matrix[..end - begin], Columns(sequence[begin..end]))
    decreases end - begin
  {
    if end > begin {
      WindowTotalIsTotal(matrix, sequence, begin, end - 1);
      var n := end - 1 - begin;
      var w := Columns(sequence[begin..end]);
      assert w[..n] == Columns(sequence[begin..end - 1]);
      assert matrix[..end - begin][..n] == matrix[..n];
      assert w[n] == Column(sequence[end - 1]);
    }
  }

  /** No window scores more than the sum of the row maxima of the rows it uses. */
  lemma {:induction false} ScoreBound(matrix: IntMatrix, sequence: string, begin: nat, end: nat)
    requires begin <= end <= |sequence| && end - begin <= |matrix|
    ensures Score(matrix, sequence, begin, end) <= MaxSum(matrix[..end - begin])
  {
    WindowTotalIsTotal(matrix, sequence, begin, end);
    if WindowTotal(matrix, sequence, begin, end).Some? {
      TotalAtMostMaxSum(matrix[..end - begin], Columns(sequence[begin..end]));
    }
  }

  /** Lower-case bases score the same as upper-case ones. */
  lemma {:induction false} ScoreIgnoresCase(matrix: IntMatrix, sequence: string, begin: nat, end: nat)
    requires begin <= end <= |sequence| && end - begin <= |matrix|
    ensures WindowTotal(matrix, sequence, begin, end) == WindowTotal(matrix, Upper(sequence), begin, end)
    ensures Score(matrix, sequence, begin, end) == Score(matrix, Upper(sequence), begin, end)
    decreases end - begin
  {
    if end > begin {
      ScoreIgnoresCase(matrix, sequence, begin, end - 1);
      ColumnIgnoresCase(sequence[end - 1]);
      assert Column(Upper(sequence)[end - 1]) == Column(sequence[end - 1]);
    }
  }

  /** Only the characters inside the window matter: scoring [begin, end) of a string is
      scoring the window cut out on its own. */
  lemma {:induction false} ScoreIgnoresOutside(matrix: IntMatrix, sequence: string, begin: nat, end: nat)
    requires begin <= end <= |sequence| && end - begin <= |matrix|
    ensures WindowTotal(matrix, sequence, begin, end) ==
            WindowTotal(matrix, sequence[begin..end], 0, end - begin)
    decreases end - begin
  {
    if end > begin {
      ScoreIgnoresOutside(matrix, sequence, begin, end - 1);
      ScoreIgnoresSuffix(matrix, sequence[begin..end], end - 1 - begin);
      assert sequence[begin..end][..end - 1 - begin] == sequence[begin..end - 1];
    }
  }

  /** Characters after the window are not read. */
  lemma {:induction false} ScoreIgnoresSuffix(matrix: IntMatrix, sequence: string, end: nat)
    requires end < |sequence| && end <= |matrix|
    ensures WindowTotal(matrix, sequence, 0, end) == WindowTotal(matrix, sequence[..end], 0, end)
    decreases end
  {
    if end > 0 {
      ScoreIgnoresSuffix(matrix, sequence, end - 1);
      ScoreIgnoresSuffix(matrix, sequence[..end], end - 1);
      assert sequence[..end][..end - 1] == sequence[..end - 1];
    }
  }

  /** A window holding a non-base scores 0. */
  lemma {:induction false} NonBaseScoresZero(matrix: IntMatrix, sequence: string, begin: nat, end: nat, i: nat)
    requires begin <= i < end <= |sequence| && end - begin <= |matrix|
    requires !IsBase(sequence[i])
    ensures WindowTotal(matrix, sequence, begin, end) == None
    ensures Score(matrix, sequence, begin, end) == 0
  {
    WindowTotalIsTotal(matrix, sequence, begin, end);
  }

  /** An empty window scores 0, whatever the string and wherever it starts. */
  lemma {:induction false} EmptyWindowScoresZero(matrix: IntMatrix, sequence: string, b: nat)
    requires b <= |sequence|
    ensures Score(matrix, sequence, b, b) == 0
  {
  }

  /** The matrix of the scaled-score unit test: rows A C G T = 24 24 24 0 and 0 0 30 0. */
  const TestMatrix: IntMatrix := [[24, 24, 24, 0], [0, 0, 30, 0]]

  /** Scaled-score unit test: empty windows score 0. */
  lemma ScoreExamplesEmpty()
    ensures Score(TestMatrix, "", 0, 0) == 0
    ensures Score(TestMatrix, "AA", 0, 0) == 0
    ensures Score(TestMatrix, "AG", 2, 2) == 0
  {
  }

  /** Scaled-score unit test: one-character windows. */
  lemma ScoreExamplesOne()
    ensures Score(TestMatrix, "A", 0, 1) == 24
    ensures Score(TestMatrix, "T", 0, 1) == 0
    ensures Score(TestMatrix, "N", 0, 1) == 0
    ensures Score(TestMatrix, "Z", 0, 1) == 0
  {
  }

  /** Scaled-score unit test: two-character windows, in either case, inside longer strings. */
  lemma ScoreExamplesTwo()
    ensures Score(TestMatrix, "AA", 0, 2) == 24
    ensures Score(TestMatrix, "AA", 1, 2) == 24
    ensures Score(TestMatrix, "AG", 0, 2) == 54
    ensures Score(TestMatrix, "ag", 0, 2) == 54
  {
  }

  /** Scaled-score unit test: characters outside the window are ignored. */
  lemma ScoreExamplesOutside()
    ensures Score(TestMatrix, "AGN", 0, 2) == 54
    ensures Score(TestMatrix, "NAGN", 1, 3) == 54
  {
  }
}
