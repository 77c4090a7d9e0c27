/** Rows and matrices of the scoring engine, and the score and background weight of a
    string of columns (one column per matrix row). */
module Matrix {
  import opened Alphabet

  /** One row of the integer-scaled matrix: one non-negative cell per base. */
  type IntRow = r: seq<nat> | |r| == AlphabetSize witness [0, 0, 0, 0]

  /** One row of a frequency or log-odds matrix, and the background distribution. */
  type RealRow = r: seq<real> | |r| == AlphabetSize witness [0.0, 0.0, 0.0, 0.0]

  type IntMatrix = seq<IntRow>

  /** The largest cell of a row. */
  function RowMax(row: IntRow): (r: nat)
    ensures forall j :: 0 <= j < AlphabetSize ==> row[j] <= r
  {
    var ab := if row[0] < row[1] then row[1] else row[0];
    var cd := if row[2] < row[3] then row[3] else row[2];
    if ab < cd then cd else ab
  }

  /** The largest cell is one of the row's cells. */
  lemma {:induction false} RowMaxAttained(row: IntRow)
    ensures exists j :: 0 <= j < AlphabetSize && row[j] == RowMax(row)
  {
    if RowMax(row) == row[0] {
    } else if RowMax(row) == row[1] {
    } else if RowMax(row) == row[2] {
    } else {
      assert row[3] == RowMax(row);
    }
  }

  /** The largest achievable total: the sum of the row maxima. */
  function MaxSum(m: IntMatrix): nat {
    if |m| == 0 then 0 else MaxSum(m[..|m| - 1]) + RowMax(m[|m| - 1])
  }

  /** A string of column indices, each naming one of the four bases. */
  predicate IsColumnString(w: seq<nat>) {
    forall i :: 0 <= i < |w| ==> w[i] < AlphabetSize
  }

  /** The columns of the bases of a string (AlphabetSize for a non-base). */
  function Columns(s: string): (w: seq<nat>)
    ensures |w| == |s|
  {
    seq(|s|, i requires 0 <= i < |s| => Column(s[i]))
  }

  /** The cell of a row at column j; a column that names no base reads as 0. */
  function Cell(row: IntRow, j: nat): nat {
    if j < AlphabetSize then row[j] else 0
  }

  /** The background probability of column j; a column that names no base has none. */
  function Share(background: RealRow, j: nat): real {
    if j < AlphabetSize then background[j] else 0.0
  }

  /** Integer score of a column string: one cell per row, row i read at column w[i]. */
  function Total(m: IntMatrix, w: seq<nat>): (t: nat)
    requires |w| == |m|
  {
    if |w| == 0 then 0
    else
      var n := |w| - 1;
      Total(m[..n], w[..n]) + Cell(m[n], w[n])
  }

  /** Probability of a column string when every position is drawn independently from
      the background distribution. */
  function Weight(background: RealRow, w: seq<nat>): real {
    if |w| == 0 then 1.0 else Weight(background, w[..|w| - 1]) * Share(background, w[|w| - 1])
  }

  /** Total probability of a background distribution. */
  function BackgroundTotal(background: RealRow): real {
    background[0] + background[1] + background[2] + background[3]
  }

  /** No column string scores more than the sum of the row maxima. */
  lemma {:induction false} TotalAtMostMaxSum(m: IntMatrix, w: seq<nat>)
    requires |w| == |m| && IsColumnString(w)
    ensures Total(m, w) <= MaxSum(m)
    decreases |w|
  {
    if |w| > 0 {
      var n := |w| - 1;
      TotalAtMostMaxSum(m[..n], w[..n]);
    }
  }

  /** Total of a string extended at its end by one row. */
  lemma {:induction false} TotalSnoc(m: IntMatrix, row: IntRow, w: seq<nat>, j: nat)
    requires |w| == |m| && IsColumnString(w) && j < AlphabetSize
    ensures IsColumnString(w + [j])
    ensures Total(m + [row], w + [j]) == Total(m, w) + row[j]
  {
    assert (m + [row])[..|m|] == m;
    assert (w + [j])[..|w|] == w;
  }

  /** The sum of the row maxima is achieved: some column string scores exactly MaxSum,
      so the distribution's last entry belongs to a real score. */
  lemma {:induction false} MaxSumAttained(m: IntMatrix)
    ensures exists w :: |w| == |m| && IsColumnString(w) && Total(m, w) == MaxSum(m)
    decreases |m|
  {
    if |m| == 0 {
      assert Total(m, []) == 0;
    } else {
      var n := |m| - 1;
      MaxSumAttained(m[..n]);
      var w: seq<nat> :| |w| == n && IsColumnString(w) && Total(m[..n], w) == MaxSum(m[..n]);
      RowMaxAttained(m[n]);
      var j: nat :| j < AlphabetSize && m[n][j] == RowMax(m[n]);
      TotalSnoc(m[..n], m[n], w, j);
      assert m[..n] + [m[n]] == m;
      assert Total(m, w + [j]) == MaxSum(m);
    }
  }

  /** Total of a string split at its first row. */
  lemma {:induction false} TotalCons(m: IntMatrix, w: seq<nat>)
    requires |w| == |m| > 0 && IsColumnString(w)
    ensures Total(m, w) == m[0][w[0]] + Total(m[1..], w[1..])
    decreases |w|
  {
    var n := |w| - 1;
    if n > 0 {
      TotalCons(m[..n], w[..n]);
      assert m[..n][1..] == m[1..][..n - 1];
      assert w[..n][1..] == w[1..][..n - 1];
    } else {
      assert m[..0] == [] && w[..0] == [];
    }
  }
}
