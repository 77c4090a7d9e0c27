/** detail::pdf_to_pvalues: turns a score distribution into the p-value table in place.
    Entry i becomes the probability of scoring i or more, clamped at 1; the last entry is
    left as it is. */
module PValues {
  import opened Sums

  /** x clamped at 1 from above. */
  function AtMostOne(x: real): (r: real)
    ensures r <= 1.0 && r <= x && (r == x || r == 1.0)
  {
    if x < 1.0 then x else 1.0
  }

  /** The p-value table of a distribution, computed from the last entry towards the
      first: each entry adds the already-converted entry after it. */
  function PValuesOf(pdf: seq<real>): (r: seq<real>)
    ensures |r| == |pdf|
    decreases |pdf|
  {
    if |pdf| <= 1 then pdf
    else
      var rest := PValuesOf(pdf[1..]);
      [AtMostOne(pdf[0] + rest[0])] + rest
  }

  /** pdf_to_pvalues: one backward pass over the array. */
  method PdfToPvalues(a: array<real>)
    modifies a
    ensures a[..] == PValuesOf(old(a[..]))
  {
    if a.Length == 0 {
      return;
    }
    ghost var pdf := a[..];
    var i := a.Length - 1;
    assert pdf[i..] == [pdf[i]];
    while i > 0
      invariant 0 <= i < a.Length
      invariant a[..i] == pdf[..i]
      invariant a[i..] == PValuesOf(pdf[i..])
      decreases i
    {
      ghost var tail := a[i..];
      a[i - 1] := AtMostOne(a[i - 1] + a[i]);
      i := i - 1;
      assert pdf[i..][1..] == pdf[i + 1..];
      assert a[i + 1..] == tail;
      assert a[i..] == [a[i]] + a[i + 1..];
      assert a[..i] == old(a[..i]);
    }
  }

  /** Entry i of the table, for every entry but the last, converts entry i of the input
      using the table's entry i + 1. */
  lemma {:induction false} PValuesStep(pdf: seq<real>, i: nat)
    requires i + 1 < |pdf|
    ensures PValuesOf(pdf)[i] == AtMostOne(pdf[i] + PValuesOf(pdf)[i + 1])
    decreases i
  {
    if i > 0 {
      PValuesStep(pdf[1..], i - 1);
    }
  }

  /** The last entry is unchanged. */
  lemma {:induction false} PValuesLast(pdf: seq<real>)
    requires |pdf| > 0
    ensures PValuesOf(pdf)[|pdf| - 1] == pdf[|pdf| - 1]
    decreases |pdf|
  {
    if |pdf| > 1 {
      PValuesLast(pdf[1..]);
    }
  }

  /** For a non-negative distribution, entry i (but the last) is the clamped mass of the
      scores i and above, and the last entry is its own mass. */
  lemma {:induction false} PValuesAreClampedTailSums(pdf: seq<real>, i: nat)
    requires i < |pdf| && NonNegative(pdf)
    ensures PValuesOf(pdf)[i] == if i + 1 < |pdf| then AtMostOne(Sum(pdf[i..])) else Sum(pdf[i..])
    decreases |pdf| - i
  {
    SumCons(pdf[i..]);
    assert pdf[i..][1..] == pdf[i + 1..];
    if i + 1 < |pdf| {
      PValuesStep(pdf, i);
      PValuesAreClampedTailSums(pdf, i + 1);
      SumNonNegative(pdf[i + 1..]);
    } else {
      PValuesLast(pdf);
      assert pdf[i + 1..] == [];
    }
  }

  /** A non-negative distribution whose last entry is at most 1 gives a table of values
      in [0, 1] that never increases. */
  lemma {:induction false} PValuesNonIncreasing(pdf: seq<real>, i: nat)
    requires NonNegative(pdf) && |pdf| > 0 && pdf[|pdf| - 1] <= 1.0
    requires i < |pdf|
    ensures 0.0 <= PValuesOf(pdf)[i] <= 1.0
    ensures i + 1 < |pdf| ==> PValuesOf(pdf)[i + 1] <= PValuesOf(pdf)[i]
    decreases |pdf| - i
  {
    if i + 1 < |pdf| {
      PValuesStep(pdf, i);
      PValuesNonIncreasing(pdf, i + 1);
    } else {
      PValuesLast(pdf);
    }
  }

  /** The table never increases between any two indices. */
  lemma {:induction false} PValuesAntitone(pdf: seq<real>, i: nat, j: nat)
    requires NonNegative(pdf) && |pdf| > 0 && pdf[|pdf| - 1] <= 1.0
    requires i <= j < |pdf|
    ensures PValuesOf(pdf)[j] <= PValuesOf(pdf)[i]
    decreases j - i
  {
    if i < j {
      PValuesNonIncreasing(pdf, i);
      PValuesAntitone(pdf, i + 1, j);
    }
  }

  /** The assertions of the p-value unit test. */
  lemma PValuesExamples()
    ensures PValuesOf([]) == []
    ensures PValuesOf([0.1]) == [0.1]
    ensures PValuesOf([0.1, 0.2]) == [0.1 + 0.2, 0.2]
    ensures PValuesOf([0.1, 0.2, 0.3]) == [0.3 + 0.2 + 0.1, 0.3 + 0.2, 0.3]
    ensures PValuesOf([0.9, 0.2, 0.3]) == [1.0, 0.3 + 0.2, 0.3]
  {
    assert [0.1, 0.2][1..] == [0.2];
    assert [0.1, 0.2, 0.3][1..] == [0.2, 0.3];
    assert [0.9, 0.2, 0.3][1..] == [0.2, 0.3];
  }
}
