/**
 * Turning raw sample bytes into volts and sample indices into seconds, over
 * exact reals. Volts are centred on the mean of the captured bytes
 * themselves, not on the reference code the preamble reports.
 */
module Calibration {
  import opened Transport

  function Sum(b: seq<byte>): int {
    if |b| == 0 then 0 else Sum(b[..|b| - 1]) + b[|b| - 1]
  }

  function SumReals(s: seq<real>): real {
    if |s| == 0 then 0.0 else SumReals(s[..|s| - 1]) + s[|s| - 1]
  }

  /** `np.mean` of the bytes. */
  function Mean(b: seq<byte>): real
    requires |b| > 0
  {
    Sum(b) as real / |b| as real
  }

  /** `(bytes - mean(bytes)) * y_increment`; no bytes give no volts. */
  function Voltages(b: seq<byte>, yIncrement: real): seq<real> {
    if |b| == 0 then []
    else
      var m := Mean(b);
      seq(|b|, i requires 0 <= i < |b| => (b[i] as real - m) * yIncrement)
  }

  /** `arange(n) * x_increment + x_origin`. */
  function TimeAxis(n: nat, xIncrement: real, xOrigin: real): seq<real> {
    seq(n, i requires 0 <= i < n => i as real * xIncrement + xOrigin)
  }

  function Centered(b: seq<byte>, m: real, y: real, k: nat): seq<real>
    requires k <= |b|
  {
    seq(k, i requires 0 <= i < k => (b[i] as real - m) * y)
  }

  lemma {:induction false} CenteredSum(b: seq<byte>, m: real, y: real, k: nat)
    requires k <= |b|
    ensures SumReals(Centered(b, m, y, k)) == (Sum(b[..k]) as real - k as real * m) * y
  {
    if k > 0 {
      CenteredSum(b, m, y, k - 1);
      var c := Centered(b, m, y, k);
      assert c[..k - 1] == Centered(b, m, y, k - 1);
      assert b[..k][..k - 1] == b[..k - 1];
      var s := Sum(b[..k - 1]) as real;
      assert (s - (k - 1) as real * m) * y + (b[k - 1] as real - m) * y
             == (s + b[k - 1] as real - k as real * m) * y;
    }
  }

  /** There is one volt value per byte, and the volts add up to zero. */
  lemma VoltagesSumToZero(b: seq<byte>, yIncrement: real)
    ensures |Voltages(b, yIncrement)| == |b|
    ensures SumReals(Voltages(b, yIncrement)) == 0.0
  {
    if |b| > 0 {
      var m := Mean(b);
      assert Voltages(b, yIncrement) == Centered(b, m, yIncrement, |b|);
      CenteredSum(b, m, yIncrement, |b|);
      assert b[..|b|] == b;
      assert |b| as real * m == Sum(b) as real;
    }
  }

  /** Every byte moved by the same amount `k`. */
  function Shifted(b: seq<byte>, k: int): seq<byte>
    requires forall i :: 0 <= i < |b| ==> 0 <= b[i] + k < 256
  {
    seq(|b|, i requires 0 <= i < |b| => (b[i] + k) as byte)
  }

  lemma {:induction false} ShiftedSum(b: seq<byte>, k: int)
    requires forall i :: 0 <= i < |b| ==> 0 <= b[i] + k < 256
    ensures Sum(Shifted(b, k)) == Sum(b) + |b| * k
  {
    if |b| > 0 {
      var n := |b| - 1;
      assert Shifted(b, k)[..n] == Shifted(b[..n], k);
      ShiftedSum(b[..n], k);
    }
  }

  lemma ShiftedMean(b: seq<byte>, k: int)
    requires |b| > 0
    requires forall i :: 0 <= i < |b| ==> 0 <= b[i] + k < 256
    ensures Mean(Shifted(b, k)) == Mean(b) + k as real
  {
    ShiftedSum(b, k);
    var n := |b| as real;
    var s := Sum(b) as real;
    var m := Mean(b);
    assert m * n == s;
    assert (m + k as real) * n == s + n * k as real;
  }

  /**
   * Moving every byte by the same amount gives the same volts: the mean
   * moves with the bytes, which is what centring on the mean is for.
   */
  lemma ShiftInvariant(b: seq<byte>, k: int, yIncrement: real)
    requires forall i :: 0 <= i < |b| ==> 0 <= b[i] + k < 256
    ensures Voltages(Shifted(b, k), yIncrement) == Voltages(b, yIncrement)
  {
    if |b| > 0 {
      ShiftedMean(b, k);
      var m := Mean(b);
      var v := Voltages(Shifted(b, k), yIncrement);
      var w := Voltages(b, yIncrement);
      assert |v| == |w|;
      forall i | 0 <= i < |b| ensures v[i] == w[i] {
        assert (b[i] + k) as real - (m + k as real) == b[i] as real - m;
      }
    }
  }

  lemma {:induction false} ConstantSum(b: seq<byte>, c: byte)
    requires forall i :: 0 <= i < |b| ==> b[i] == c
    ensures Sum(b) == |b| * c
  {
    if |b| > 0 {
      ConstantSum(b[..|b| - 1], c);
    }
  }

  /** A flat trace reads as zero volts everywhere. */
  lemma FlatTraceIsZero(b: seq<byte>, yIncrement: real)
    requires forall i :: 0 <= i < |b| ==> b[i] == b[0]
    ensures forall i :: 0 <= i < |Voltages(b, yIncrement)| ==> Voltages(b, yIncrement)[i] == 0.0
  {
    if |b| > 0 {
      ConstantSum(b, b[0]);
      assert Mean(b) * |b| as real == (|b| * b[0]) as real;
      assert Mean(b) == b[0] as real;
    }
  }

  /**
   * The time axis starts at the origin and advances by one increment per
   * sample, so it rises strictly whenever the increment is positive.
   */
  lemma TimeAxisSpec(n: nat, xIncrement: real, xOrigin: real)
    ensures |TimeAxis(n, xIncrement, xOrigin)| == n
    ensures n > 0 ==> TimeAxis(n, xIncrement, xOrigin)[0] == xOrigin
    ensures forall i :: 0 <= i < n - 1 ==>
              TimeAxis(n, xIncrement, xOrigin)[i + 1] - TimeAxis(n, xIncrement, xOrigin)[i] == xIncrement
    ensures xIncrement > 0.0 ==> forall i, j :: 0 <= i < j < n ==>
              TimeAxis(n, xIncrement, xOrigin)[i] < TimeAxis(n, xIncrement, xOrigin)[j]
  {
    var t := TimeAxis(n, xIncrement, xOrigin);
    if xIncrement > 0.0 {
      forall i, j | 0 <= i < j < n ensures t[i] < t[j] {
        assert t[j] - t[i] == (j - i) as real * xIncrement;
        assert (j - i) as real * xIncrement > 0.0;
      }
    }
  }
}
