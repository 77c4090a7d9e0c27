/** detail::reverse_complement: turns a matrix for one strand into the matrix for the
    other strand, in place. Row order is reversed and inside each row the values of A and
    T swap, as do those of C and G. */
module RevComp {
  import opened Alphabet
  import opened Matrix

  /** Column of the complementary base: A (0) and T (3), C (1) and G (2). */
  function ComplementColumn(j: nat): (c: nat)
    requires j < AlphabetSize
    ensures c < AlphabetSize && c + j == AlphabetSize - 1
  {
    AlphabetSize - 1 - j
  }

  /** A row with the values of complementary bases swapped. */
  function Complement<T>(row: seq<T>): (r: seq<T>)
    requires |row| == AlphabetSize
    ensures |r| == AlphabetSize
  {
    [row[3], row[2], row[1], row[0]]
  }

  /** The complemented row holds at each base the value of the complementary base. */
  lemma {:induction false} ComplementAt<T>(row: seq<T>, j: nat)
    requires |row| == AlphabetSize && j < AlphabetSize
    ensures Complement(row)[j] == row[ComplementColumn(j)]
  {
  }

  predicate HasFourColumns<T>(m: seq<seq<T>>) {
    forall i :: 0 <= i < |m| ==> |m[i]| == AlphabetSize
  }

  /** The reverse complement of a matrix: the last row, complemented, comes first. */
  function ReverseComplement<T>(m: seq<seq<T>>): (r: seq<seq<T>>)
    requires HasFourColumns(m)
    ensures |r| == |m| && HasFourColumns(r)
    decreases |m|
  {
    if |m| == 0 then []
    else [Complement(m[|m| - 1])] + ReverseComplement(m[..|m| - 1])
  }

  /** Row i of the reverse complement is row |m| - 1 - i complemented. */
  lemma {:induction false} ReverseComplementAt<T>(m: seq<seq<T>>, i: nat)
    requires HasFourColumns(m) && i < |m|
    ensures ReverseComplement(m)[i] == Complement(m[|m| - 1 - i])
    decreases |m|
  {
    if i > 0 {
      ReverseComplementAt(m[..|m| - 1], i - 1);
    }
  }

  /** Complementing twice restores a row. */
  lemma {:induction false} ComplementTwice<T>(row: seq<T>)
    requires |row| == AlphabetSize
    ensures Complement(Complement(row)) == row
  {
  }

  /** Taking the reverse complement twice restores the matrix. */
  lemma {:induction false} ReverseComplementTwice<T>(m: seq<seq<T>>)
    requires HasFourColumns(m)
    ensures ReverseComplement(ReverseComplement(m)) == m
  {
    var r := ReverseComplement(m);
    var n := |m|;
    forall i | 0 <= i < n
      ensures ReverseComplement(r)[i] == m[i]
    {
      ReverseComplementAt(r, i);
      ReverseComplementAt(m, n - 1 - i);
      ComplementTwice(m[i]);
    }
  }

  /** reverse_complement: swaps the rows pairwise from both ends, complementing each,
      and complements the middle row of an odd-length matrix. */
  method ReverseComplementInPlace(a: array<RealRow>)
    modifies a
    ensures a[..] == ReverseComplement(old(a[..]))
  {
    ghost var m := a[..];
    var n := a.Length;
    var i := 0;
    while 2 * i < n - 1
      invariant 0 <= i && 2 * i <= n
      invariant forall k :: 0 <= k < i ==> a[k] == Complement(m[n - 1 - k])
      invariant forall k :: n - i <= k < n ==> a[k] == Complement(m[n - 1 - k])
      invariant forall k :: i <= k < n - i ==> a[k] == m[k]
      decreases n - 2 * i
    {
      SwapComplemented(a, i, n - 1 - i);
      i := i + 1;
    }
    if 2 * i == n - 1 {
      a[i] := Complement(a[i]);
    }
    forall k | 0 <= k < n
      ensures a[k] == ReverseComplement(m)[k]
    {
      ReverseComplementAt(m, k);
    }
  }

  /** One step of reverse_complement: rows i and j trade places, each complemented. */
  method SwapComplemented(a: array<RealRow>, i: nat, j: nat)
    requires i < j < a.Length
    modifies a
    ensures a[i] == Complement(old(a[j])) && a[j] == Complement(old(a[i]))
    ensures forall k :: 0 <= k < a.Length && k != i && k != j ==> a[k] == old(a[k])
  {
    var front, back := a[i], a[j];
    a[i] := Complement(back);
    a[j] := Complement(front);
  }

  /** The column string of the other strand: reversed, each column complemented. */
  function OtherStrand(w: seq<nat>): (c: seq<nat>)
    requires IsColumnString(w)
    ensures |c| == |w| && IsColumnString(c)
  {
    seq(|w|, i requires 0 <= i < |w| => ComplementColumn(w[|w| - 1 - i]))
  }

  /** The reverse-complement matrix scores the other strand of a window exactly as the
      original matrix scores the window. */
  lemma {:induction false} ReverseComplementScores(m: IntMatrix, w: seq<nat>)
    requires |w| == |m| && IsColumnString(w)
    ensures Total(ReverseComplement<nat>(m), OtherStrand(w)) == Total(m, w)
    decreases |w|
  {
    if |w| > 0 {
      var n := |w| - 1;
      var r: IntMatrix := ReverseComplement<nat>(m);
      var c := OtherStrand(w);
      TotalCons(r, c);
      assert r[0] == Complement(m[n]);
      assert c[0] == ComplementColumn(w[n]);
      ComplementAt(m[n], c[0]);
      assert r[0][c[0]] == m[n][w[n]];
      assert r[1..] == ReverseComplement<nat>(m[..n]);
      assert c[1..] == OtherStrand(w[..n]);
      ReverseComplementScores(m[..n], w[..n]);
    }
  }

  /** The reverse-complement unit test. */
  lemma ReverseComplementExample()
    ensures ReverseComplement([[1.0, 0.0, 0.0, 0.0],
                               [0.0, 2.0, 0.0, 0.0],
                               [0.0, 0.0, 3.0, 0.0],
                               [0.0, 0.0, 0.0, 4.0],
                               [1.0, 2.0, 3.0, 4.0]]) ==
            [[4.0, 3.0, 2.0, 1.0],
             [4.0, 0.0, 0.0, 0.0],
             [0.0, 3.0, 0.0, 0.0],
             [0.0, 0.0, 2.0, 0.0],
             [0.0, 0.0, 0.0, 1.0]]
  {
    var m: seq<seq<real>> := [[1.0, 0.0, 0.0, 0.0],
                              [0.0, 2.0, 0.0, 0.0],
                              [0.0, 0.0, 3.0, 0.0],
                              [0.0, 0.0, 0.0, 4.0],
                              [1.0, 2.0, 3.0, 4.0]];
    forall i | 0 <= i < |m|
      ensures ReverseComplement(m)[i] == Complement(m[|m| - 1 - i])
    {
      ReverseComplementAt(m, i);
    }
  }
}
