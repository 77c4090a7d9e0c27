/** Sums of sequences of reals. */
module Sums {

  predicate NonNegative(s: seq<real>) {
    forall i :: 0 <= i < |s| ==> 0.0 <= s[i]
  }

  /** Sum of a sequence, added from its end. */
  function Sum(s: seq<real>): real {
    if |s| == 0 then 0.0 else Sum(s[..|s| - 1]) + s[|s| - 1]
  }

  /** The product of two reals, named so that products of equal factors are recognised
      as equal without arithmetic reasoning. */
  function Times(x: real, y: real): real {
    x * y
  }

  function Power(x: real, n: nat): real {
    if n == 0 then 1.0 else Power(x, n - 1) * x
  }

  lemma {:induction false} PowerOfOne(n: nat)
    ensures Power(1.0, n) == 1.0
  {
    if n > 0 {
      PowerOfOne(n - 1);
    }
  }

  /** Sum of a sequence split at its first element. */
  lemma {:induction false} SumCons(s: seq<real>)
    requires |s| > 0
    ensures Sum(s) == s[0] + Sum(s[1..])
    decreases |s|
  {
    if |s| > 1 {
      var n := |s| - 1;
      SumCons(s[..n]);
      assert s[..n][1..] == s[1..][..n - 1];
    } else {
      assert s[1..] == [];
    }
  }

  /** Every entry of a non-negative sequence is at most its sum. */
  lemma {:induction false} EntryAtMostSum(s: seq<real>, i: nat)
    requires forall k :: 0 <= k < |s| ==> 0.0 <= s[k]
    requires i < |s|
    ensures s[i] <= Sum(s)
    decreases |s|
  {
    var n := |s| - 1;
    if i < n {
      EntryAtMostSum(s[..n], i);
    } else {
      SumNonNegative(s[..n]);
    }
  }

  lemma {:induction false} SumNonNegative(s: seq<real>)
    requires forall i :: 0 <= i < |s| ==> 0.0 <= s[i]
    ensures 0.0 <= Sum(s)
    decreases |s|
  {
    if |s| > 0 {
      SumNonNegative(s[..|s| - 1]);
    }
  }

  /** The sum splits at any index into the sums of the two parts. */
  lemma {:induction false} SumSplit(s: seq<real>, k: nat)
    requires k <= |s|
    ensures Sum(s) == Sum(s[..k]) + Sum(s[k..])
    decreases |s|
  {
    if k == |s| {
      assert s[..k] == s && s[k..] == [];
    } else {
      var n := |s| - 1;
      SumSplit(s[..n], k);
      assert s[..n][..k] == s[..k];
      assert s[k..][..|s[k..]| - 1] == s[..n][k..];
    }
  }

  /** A suffix of a non-negative sequence sums to at most the whole sequence and to at
      least 0. */
  lemma {:induction false} SuffixAtMostSum(s: seq<real>, k: nat)
    requires NonNegative(s) && k <= |s|
    ensures 0.0 <= Sum(s[k..]) <= Sum(s)
  {
    SumSplit(s, k);
    SumNonNegative(s[..k]);
    SumNonNegative(s[k..]);
  }
}
