/** detail::scale: the affine map of a log-odds matrix onto the integer range [0, range]
    that the integer score and the score distribution work on. */
module Scaling {
  import opened Alphabet
  import opened Matrix
  import opened Sums

  /** A position weight matrix and the number of sites it was estimated from. */
  datatype PWM = PWM(numberOfSites: nat, matrix: seq<RealRow>)

  /** A scaled matrix with what is needed to undo the scaling. */
  datatype ScaledPWM = ScaledPWM(numberOfSites: nat, minBeforeScaling: real, scale: real,
                                 range: nat, matrix: seq<RealRow>)

  /** Factor that stretches [min, max] to a width of range. */
  function ScaleFactor(min: real, max: real, range: nat): (s: real)
    requires min < max
    ensures 0.0 <= s && Times(max - min, s) == range as real
  {
    range as real / (max - min)
  }

  function ScaleRow(row: RealRow, min: real, s: real): (r: RealRow)
  {
    [Times(row[0] - min, s), Times(row[1] - min, s), Times(row[2] - min, s), Times(row[3] - min, s)]
  }

  /** detail::scale(pwm, (min, max), range). */
  function Scale(pwm: PWM, minMax: (real, real), range: nat): (r: ScaledPWM)
    requires minMax.0 < minMax.1
    ensures r.numberOfSites == pwm.numberOfSites
    ensures r.minBeforeScaling == minMax.0 && r.range == range
    ensures 0.0 <= r.scale && Times(minMax.1 - minMax.0, r.scale) == range as real
    ensures |r.matrix| == |pwm.matrix|
  {
    var s := ScaleFactor(minMax.0, minMax.1, range);
    ScaledPWM(pwm.numberOfSites, minMax.0, s, range,
              seq(|pwm.matrix|, i requires 0 <= i < |pwm.matrix| => ScaleRow(pwm.matrix[i], minMax.0, s)))
  }

  /** Every cell moves by the same affine map. */
  lemma {:induction false} ScaleAt(pwm: PWM, minMax: (real, real), range: nat, i: nat, j: nat)
    requires minMax.0 < minMax.1 && i < |pwm.matrix| && j < AlphabetSize
    ensures Scale(pwm, minMax, range).matrix[i][j] ==
            Times(pwm.matrix[i][j] - minMax.0, Scale(pwm, minMax, range).scale)
  {
  }

  /** The affine map on one value, with its factor written out. */
  lemma {:induction false} AffineBounds(v: real, min: real, max: real, s: real, range: real)
    requires min <= v <= max && 0.0 <= s && Times(max - min, s) == range
    ensures 0.0 <= Times(v - min, s) <= range
  {
    assert (v - min) * s <= (max - min) * s;
  }

  /** A matrix whose values lie in [min, max] is scaled into [0, range]. */
  lemma {:induction false} ScaledWithinRange(pwm: PWM, minMax: (real, real), range: nat, i: nat, j: nat)
    requires minMax.0 < minMax.1 && i < |pwm.matrix| && j < AlphabetSize
    requires minMax.0 <= pwm.matrix[i][j] <= minMax.1
    ensures 0.0 <= Scale(pwm, minMax, range).matrix[i][j] <= range as real
  {
    var r := Scale(pwm, minMax, range);
    ScaleAt(pwm, minMax, range, i, j);
    AffineBounds(pwm.matrix[i][j], minMax.0, minMax.1, r.scale, range as real);
  }

  /** The minimum maps to 0 and the maximum to range. */
  lemma {:induction false} ScaleEndpoints(pwm: PWM, minMax: (real, real), range: nat, i: nat, j: nat)
    requires minMax.0 < minMax.1 && i < |pwm.matrix| && j < AlphabetSize
    ensures pwm.matrix[i][j] == minMax.0 ==> Scale(pwm, minMax, range).matrix[i][j] == 0.0
    ensures pwm.matrix[i][j] == minMax.1 ==> Scale(pwm, minMax, range).matrix[i][j] == range as real
  {
    var r := Scale(pwm, minMax, range);
    ScaleAt(pwm, minMax, range, i, j);
    assert Times(0.0, r.scale) == 0.0;
  }

  /** Scaling keeps the order of the cells: a larger log-odds value never scales lower. */
  lemma {:induction false} ScalePreservesOrder(pwm: PWM, minMax: (real, real), range: nat, i: nat, j: nat, i': nat, j': nat)
    requires minMax.0 < minMax.1 && i < |pwm.matrix| && i' < |pwm.matrix|
    requires j < AlphabetSize && j' < AlphabetSize
    requires pwm.matrix[i][j] <= pwm.matrix[i'][j']
    ensures Scale(pwm, minMax, range).matrix[i][j] <= Scale(pwm, minMax, range).matrix[i'][j']
  {
    var r := Scale(pwm, minMax, range);
    var a, c := pwm.matrix[i][j], pwm.matrix[i'][j'];
    ScaleAt(pwm, minMax, range, i, j);
    ScaleAt(pwm, minMax, range, i', j');
    MulMonotone(a - minMax.0, c - minMax.0, r.scale);
  }

  lemma {:induction false} MulMonotone(a: real, c: real, s: real)
    requires a <= c && 0.0 <= s
    ensures Times(a, s) <= Times(c, s)
  {
    assert (c - a) * s >= 0.0;
  }

  /** With a positive range the recorded minimum and factor undo the scaling. */
  lemma {:induction false} UnscaleRoundTrip(pwm: PWM, minMax: (real, real), range: nat, i: nat, j: nat)
    requires minMax.0 < minMax.1 && range > 0 && i < |pwm.matrix| && j < AlphabetSize
    ensures Scale(pwm, minMax, range).scale > 0.0
    ensures Scale(pwm, minMax, range).matrix[i][j] / Scale(pwm, minMax, range).scale +
            Scale(pwm, minMax, range).minBeforeScaling == pwm.matrix[i][j]
  {
    var r := Scale(pwm, minMax, range);
    var v := pwm.matrix[i][j];
    PositiveFactor(r.scale, minMax.1 - minMax.0, range as real);
    ScaleAt(pwm, minMax, range, i, j);
    Unscale(v, minMax.0, r.scale);
  }

  lemma {:induction false} PositiveFactor(s: real, width: real, range: real)
    requires 0.0 <= s && Times(width, s) == range && range > 0.0
    ensures s > 0.0
  {
    if s == 0.0 {
      assert false;
    }
  }

  lemma {:induction false} Unscale(v: real, min: real, s: real)
    requires s > 0.0
    ensures Times(v - min, s) / s + min == v
  {
    var p := (v - min) * s;
    assert p / s == v - min;
  }

  /** The scaling unit test: values in [-8, 2] scaled to [0, 30]. */
  lemma ScaleExample()
    ensures var r := Scale(PWM(10, [[0.0, 0.0, 0.0, 0.0], [-8.0, -8.0, 2.0, -8.0]]), (-8.0, 2.0), 30);
            |r.matrix| == 2 && r.numberOfSites == 10 && r.minBeforeScaling == -8.0 &&
            r.scale == 3.0 && r.range == 30 &&
            r.matrix[0] == [24.0, 24.0, 24.0, 24.0] && r.matrix[1] == [0.0, 0.0, 30.0, 0.0]
  {
  }
}
