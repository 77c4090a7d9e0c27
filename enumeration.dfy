/** An independent reading of the score distribution: entry s is the total background
    probability of all base strings whose integer score is s. The strings are listed
    explicitly, all 4^n of them, in base-4 counting order. */
module Enumeration {
  import opened Alphabet
  import opened Matrix
  import opened Distribution
  import opened Sums

  function Pow4(n: nat): nat {
    if n == 0 then 1 else 4 * Pow4(n - 1)
  }

  /** Every element is a column string of length n. */
  predicate AllOfLength(ws: seq<seq<nat>>, n: nat) {
    forall k :: 0 <= k < |ws| ==> |ws[k]| == n && IsColumnString(ws[k])
  }

  /** Each string followed by each of the four columns, in order. */
  function Extend(ws: seq<seq<nat>>): (r: seq<seq<nat>>)
    ensures |r| == AlphabetSize * |ws|
  {
    if |ws| == 0 then [] else Extensions(ws[0]) + Extend(ws[1..])
  }

  /** The four one-column extensions of a string. */
  function Extensions(w: seq<nat>): seq<seq<nat>> {
    [w + [0], w + [1], w + [2], w + [3]]
  }

  /** Position 4i + j of the extended listing holds string i followed by column j. */
  lemma {:induction false} ExtendAt(ws: seq<seq<nat>>, i: nat, j: nat)
    requires i < |ws| && j < AlphabetSize
    ensures Extend(ws)[AlphabetSize * i + j] == ws[i] + [j]
    decreases i
  {
    if i > 0 {
      ExtendAt(ws[1..], i - 1, j);
    }
  }

  lemma {:induction false} ExtendAtIndex(ws: seq<seq<nat>>, k: nat)
    requires k < AlphabetSize * |ws|
    ensures Extend(ws)[k] == ws[k / AlphabetSize] + [k % AlphabetSize]
  {
    ExtendAt(ws, k / AlphabetSize, k % AlphabetSize);
  }

  lemma {:induction false} ExtendOfLength(ws: seq<seq<nat>>, n: nat)
    requires AllOfLength(ws, n)
    ensures AllOfLength(Extend(ws), n + 1)
  {
    forall k | 0 <= k < |Extend(ws)|
      ensures |Extend(ws)[k]| == n + 1 && IsColumnString(Extend(ws)[k])
    {
      ExtendAtIndex(ws, k);
    }
  }

  /** All column strings of length n; string k spells k in base 4, last column fastest. */
  function AllColumnStrings(n: nat): (ws: seq<seq<nat>>)
    ensures |ws| == Pow4(n)
  {
    if n == 0 then [[]] else Extend(AllColumnStrings(n - 1))
  }

  /** Every listed string is a column string of length n. */
  lemma {:induction false} AllColumnStringsOfLength(n: nat)
    ensures AllOfLength(AllColumnStrings(n), n)
  {
    if n > 0 {
      AllColumnStringsOfLength(n - 1);
      ExtendOfLength(AllColumnStrings(n - 1), n - 1);
    }
  }

  /** The number a column string spells in base 4. */
  function Value(w: seq<nat>): nat {
    if |w| == 0 then 0 else 4 * Value(w[..|w| - 1]) + w[|w| - 1]
  }

  /** The listing holds each column string exactly once: string k spells k ... */
  lemma {:induction false} ValueOfListed(n: nat, k: nat)
    requires k < Pow4(n)
    ensures Value(AllColumnStrings(n)[k]) == k
  {
    if n > 0 {
      var q, r := k / 4, k % 4;
      assert k == 4 * q + r && q < Pow4(n - 1);
      var ws := AllColumnStrings(n - 1);
      var u := ws[q];
      assert AllColumnStrings(n)[k] == u + [r] by {
        ExtendAt(ws, q, r);
      }
      assert Value(u) == q by {
        ValueOfListed(n - 1, q);
      }
      ValueSnoc(u, r);
    }
  }

  /** Appending a column shifts the number one base-4 digit up. */
  lemma {:induction false} ValueSnoc(u: seq<nat>, r: nat)
    ensures Value(u + [r]) == 4 * Value(u) + r
  {
    assert (u + [r])[..|u|] == u;
  }

  /** A column string of length n spells a number below 4^n. */
  lemma {:induction false} ValueBound(w: seq<nat>)
    requires IsColumnString(w)
    ensures Value(w) < Pow4(|w|)
    decreases |w|
  {
    var n := |w|;
    if n > 0 {
      var u := w[..n - 1];
      ValueBound(u);
      assert Value(w) == 4 * Value(u) + w[n - 1];
    }
  }

  /** ... and every column string of length n is listed, at the number it spells. */
  lemma {:induction false} ListedAtValue(w: seq<nat>)
    requires IsColumnString(w)
    ensures Value(w) < Pow4(|w|)
    ensures AllColumnStrings(|w|)[Value(w)] == w
    decreases |w|
  {
    ValueBound(w);
    var n := |w|;
    if n > 0 {
      var u, r := w[..n - 1], w[n - 1];
      var ws := AllColumnStrings(n - 1);
      var v := Value(u);
      assert v < |ws| && ws[v] == u by {
        ListedAtValue(u);
      }
      assert w == u + [r];
      assert Value(w) == 4 * v + r by {
        ValueSnoc(u, r);
      }
      ExtendAt(ws, v, r);
    }
  }

  /** Distinct positions of the listing hold distinct strings. */
  lemma {:induction false} ListedOnce(n: nat, i: nat, k: nat)
    requires i < Pow4(n) && k < Pow4(n)
    requires AllColumnStrings(n)[i] == AllColumnStrings(n)[k]
    ensures i == k
  {
    ValueOfListed(n, i);
    ValueOfListed(n, k);
  }

  /** Contribution of one string to score s: its weight if it has the matrix's length and
      scores s, else 0. */
  function Term(matrix: IntMatrix, background: RealRow, s: int, w: seq<nat>): real {
    if |w| == |matrix| && Total(matrix, w) == s then Weight(background, w) else 0.0
  }

  /** Total weight of the listed strings that score s. */
  function Mass(matrix: IntMatrix, background: RealRow, s: int, ws: seq<seq<nat>>): real {
    if |ws| == 0 then 0.0 else Term(matrix, background, s, ws[0]) + Mass(matrix, background, s, ws[1..])
  }

  /** A string extended by column j contributes its own share times background[j]. */
  lemma {:induction false} TermExtend(matrix: IntMatrix, background: RealRow, s: int, w: seq<nat>, j: nat, v: seq<nat>)
    requires |matrix| > 0 && |w| == |matrix| - 1 && j < AlphabetSize && v == w + [j]
    ensures Term(matrix, background, s, v) ==
            Times(background[j], Term(matrix[..|w|], background, s - matrix[|w|][j], w))
  {
    var shorter, cell := matrix[..|w|], matrix[|w|][j];
    assert v[..|w|] == w;
    assert Total(matrix, v) == Total(shorter, w) + cell;
    assert Weight(background, v) == Weight(background, w) * background[j];
    if Total(shorter, w) != s - cell {
      assert Term(shorter, background, s - cell, w) == 0.0;
    }
  }

  /** Mass over a concatenation of listings. */
  lemma {:induction false} MassAppend(matrix: IntMatrix, background: RealRow, s: int, xs: seq<seq<nat>>, ys: seq<seq<nat>>)
    ensures Mass(matrix, background, s, xs + ys) == Mass(matrix, background, s, xs) + Mass(matrix, background, s, ys)
    decreases |xs|
  {
    if |xs| > 0 {
      MassAppend(matrix, background, s, xs[1..], ys);
      assert (xs + ys)[1..] == xs[1..] + ys;
    } else {
      assert xs + ys == ys;
    }
  }

  /** Mass of a listing of four strings. */
  lemma {:induction false} MassOfFour(matrix: IntMatrix, background: RealRow, s: int, x0: seq<nat>, x1: seq<nat>, x2: seq<nat>, x3: seq<nat>)
    ensures Mass(matrix, background, s, [x0, x1, x2, x3]) ==
      Term(matrix, background, s, x0) + Term(matrix, background, s, x1) +
      Term(matrix, background, s, x2) + Term(matrix, background, s, x3)
  {
    var x := [x0, x1, x2, x3];
    assert x[1..] == [x1, x2, x3] && x[1..][1..] == [x2, x3] && x[1..][1..][1..] == [x3];
    assert Mass(matrix, background, s, [x3]) == Term(matrix, background, s, x3);
    assert Mass(matrix, background, s, [x2, x3]) == Term(matrix, background, s, x2) + Term(matrix, background, s, x3);
  }

  /** Each string of a listing followed by column j. */
  function Appended(ws: seq<seq<nat>>, j: nat): (r: seq<seq<nat>>)
    ensures |r| == |ws|
  {
    if |ws| == 0 then [] else [ws[0] + [j]] + Appended(ws[1..], j)
  }

  lemma {:induction false} Distribute(x: real, a: real, c: real)
    ensures Times(x, a) + Times(x, c) == Times(x, a + c)
  {
  }

  /** The strings of a listing followed by column j carry background[j] times the mass
      the listing has, against the shorter matrix, at the score less that column's cell. */
  lemma {:induction false} MassAppended(matrix: IntMatrix, background: RealRow, s: int, ws: seq<seq<nat>>, j: nat)
    requires |matrix| > 0 && j < AlphabetSize
    requires forall k :: 0 <= k < |ws| ==> |ws[k]| == |matrix| - 1
    ensures Mass(matrix, background, s, Appended(ws, j)) ==
            Times(background[j], Mass(matrix[..|matrix| - 1], background, s - matrix[|matrix| - 1][j], ws))
    decreases |ws|
  {
    var n := |matrix| - 1;
    var m, b, t := matrix[..n], background, s - matrix[n][j];
    if |ws| == 0 {
      assert Times(b[j], 0.0) == 0.0;
    } else {
      var w, rest := ws[0], ws[1..];
      var tw, mr := Term(m, b, t, w), Mass(m, b, t, rest);
      assert Mass(matrix, b, s, Appended(rest, j)) == Times(b[j], mr) by {
        MassAppended(matrix, b, s, rest, j);
      }
      assert Term(matrix, b, s, w + [j]) == Times(b[j], tw) by {
        TermExtend(matrix, b, s, w, j, w + [j]);
      }
      assert Mass(matrix, b, s, Appended(ws, j)) == Term(matrix, b, s, w + [j]) + Mass(matrix, b, s, Appended(rest, j)) by {
        assert Appended(ws, j)[0] == w + [j] && Appended(ws, j)[1..] == Appended(rest, j);
      }
      assert Mass(m, b, t, ws) == tw + mr;
      Distribute(b[j], tw, mr);
    }
  }

  /** Mass over the extensions of a listing is the mass of its strings followed by each
      of the four columns. */
  lemma {:induction false} MassOfExtend(matrix: IntMatrix, background: RealRow, s: int, ws: seq<seq<nat>>)
    ensures Mass(matrix, background, s, Extend(ws)) ==
      Mass(matrix, background, s, Appended(ws, 0)) + Mass(matrix, background, s, Appended(ws, 1)) +
      Mass(matrix, background, s, Appended(ws, 2)) + Mass(matrix, background, s, Appended(ws, 3))
    decreases |ws|
  {
    if |ws| > 0 {
      var m, b, w, rest := matrix, background, ws[0], ws[1..];
      MassOfExtend(m, b, s, rest);
      MassAppend(m, b, s, Extensions(w), Extend(rest));
      MassOfFour(m, b, s, w + [0], w + [1], w + [2], w + [3]);
      assert Extend(ws) == Extensions(w) + Extend(rest);
      assert Appended(ws, 0)[1..] == Appended(rest, 0);
      assert Appended(ws, 1)[1..] == Appended(rest, 1);
      assert Appended(ws, 2)[1..] == Appended(rest, 2);
      assert Appended(ws, 3)[1..] == Appended(rest, 3);
    }
  }

  /** Mass over the extensions of a listing, split by the last column. */
  lemma {:induction false} MassExtend(matrix: IntMatrix, background: RealRow, s: int, ws: seq<seq<nat>>)
    requires |matrix| > 0 && forall k :: 0 <= k < |ws| ==> |ws[k]| == |matrix| - 1
    ensures var n := |matrix| - 1;
      var row := matrix[n];
      Mass(matrix, background, s, Extend(ws)) ==
        Mix(background, Mass(matrix[..n], background, s - row[0], ws), Mass(matrix[..n], background, s - row[1], ws),
                        Mass(matrix[..n], background, s - row[2], ws), Mass(matrix[..n], background, s - row[3], ws))
  {
    var m, b := matrix[..|matrix| - 1], background;
    var row := matrix[|matrix| - 1];
    var total := Mass(matrix, b, s, Extend(ws));
    var a0, a1, a2, a3 := Mass(matrix, b, s, Appended(ws, 0)), Mass(matrix, b, s, Appended(ws, 1)),
                          Mass(matrix, b, s, Appended(ws, 2)), Mass(matrix, b, s, Appended(ws, 3));
    var x0, x1, x2, x3 := Mass(m, b, s - row[0], ws), Mass(m, b, s - row[1], ws),
                          Mass(m, b, s - row[2], ws), Mass(m, b, s - row[3], ws);
    assert total == a0 + a1 + a2 + a3 by { MassOfExtend(matrix, b, s, ws); }
    assert a0 == Times(b[0], x0) by { MassAppended(matrix, b, s, ws, 0); }
    assert a1 == Times(b[1], x1) by { MassAppended(matrix, b, s, ws, 1); }
    assert a2 == Times(b[2], x2) by { MassAppended(matrix, b, s, ws, 2); }
    assert a3 == Times(b[3], x3) by { MassAppended(matrix, b, s, ws, 3); }
    Collect(b, total, a0, a1, a2, a3, x0, x1, x2, x3);
  }

  lemma {:induction false} Collect(b: RealRow, total: real, a0: real, a1: real, a2: real, a3: real, x0: real, x1: real, x2: real, x3: real)
    requires total == a0 + a1 + a2 + a3
    requires a0 == Times(b[0], x0) && a1 == Times(b[1], x1) && a2 == Times(b[2], x2) && a3 == Times(b[3], x3)
    ensures total == Mix(b, x0, x1, x2, x3)
  {
  }

  /** The row-by-row reference agrees with the enumeration of all strings. */
  lemma {:induction false} ProbIsMass(matrix: IntMatrix, background: RealRow, s: int)
    ensures Prob(matrix, background, s) == Mass(matrix, background, s, AllColumnStrings(|matrix|))
    decreases |matrix|
  {
    var b := background;
    if |matrix| == 0 {
      assert AllColumnStrings(0)[1..] == [];
    } else {
      var n := |matrix| - 1;
      var row, m, ws := matrix[n], matrix[..n], AllColumnStrings(n);
      var p0, p1, p2, p3 := Prob(m, b, s - row[0]), Prob(m, b, s - row[1]), Prob(m, b, s - row[2]), Prob(m, b, s - row[3]);
      assert p0 == Mass(m, b, s - row[0], ws) by { ProbIsMass(m, b, s - row[0]); }
      assert p1 == Mass(m, b, s - row[1], ws) by { ProbIsMass(m, b, s - row[1]); }
      assert p2 == Mass(m, b, s - row[2], ws) by { ProbIsMass(m, b, s - row[2]); }
      assert p3 == Mass(m, b, s - row[3], ws) by { ProbIsMass(m, b, s - row[3]); }
      assert Mass(matrix, b, s, AllColumnStrings(|matrix|)) ==
             Mix(b, Mass(m, b, s - row[0], ws), Mass(m, b, s - row[1], ws),
                    Mass(m, b, s - row[2], ws), Mass(m, b, s - row[3], ws)) by {
        AllColumnStringsOfLength(n);
        assert forall k :: 0 <= k < |ws| ==> |ws[k]| == n;
        MassExtend(matrix, b, s, ws);
      }
      assert Prob(matrix, b, s) == Mix(b, p0, p1, p2, p3);
    }
  }

  /** Entry s of the convolution is the total background probability of the base strings
      of the matrix's length that score s. */
  lemma {:induction false} DistributionIsMass(matrix: IntMatrix, background: RealRow, s: nat)
    requires s <= MaxSum(matrix)
    ensures ProbabilityDistribution(matrix, background)[s] == Mass(matrix, background, s, AllColumnStrings(|matrix|))
  {
    DistributionAt(matrix, background);
    ProbIsMass(matrix, background, s);
  }
}
