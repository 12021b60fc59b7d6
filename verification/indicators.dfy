/** `calculate_rsi`: the relative strength index with simple rolling means of gains and
    losses (not Wilder's smoothing), the division guarded by a small epsilon. */
module Indicators {
  import opened Optional
  import opened Series

  /** The window `calculate_rsi` is called with: its default. */
  const RsiWindow: nat := 14

  /** The guard added to the average loss before dividing. */
  const Epsilon: real := 0.000000001

  /** `delta.where(delta > 0, 0)`: positive moves kept, everything else (NaN included) 0. */
  function Gains(close: seq<real>): (g: seq<real>)
    ensures |g| == |close|
    ensures forall i :: 0 <= i < |close| ==> g[i] >= 0.0
    ensures forall i :: 0 <= i < |close| ==> (g[i] > 0.0 <==> i > 0 && close[i] > close[i - 1])
  {
    var delta := Diff(close);
    seq(|close|, i requires 0 <= i < |close| => if delta[i].Some? && delta[i].value > 0.0 then delta[i].value else 0.0)
  }

  /** `-delta.where(delta < 0, 0)`: sizes of negative moves, everything else 0. */
  function Losses(close: seq<real>): (l: seq<real>)
    ensures |l| == |close|
    ensures forall i :: 0 <= i < |close| ==> l[i] >= 0.0
    ensures forall i :: 0 <= i < |close| ==> (l[i] > 0.0 <==> i > 0 && close[i] < close[i - 1])
  {
    var delta := Diff(close);
    seq(|close|, i requires 0 <= i < |close| => -(if delta[i].Some? && delta[i].value < 0.0 then delta[i].value else 0.0))
  }

  /** Each day's move splits into its gain and its loss: the gain less the loss is the
      move, and at most one of them is non-zero. The first day, with no move, has
      neither. */
  lemma GainsAndLossesSplitMoves(close: seq<real>)
    ensures |close| > 0 ==> Gains(close)[0] == 0.0 && Losses(close)[0] == 0.0
    ensures forall i :: 1 <= i < |close| ==>
      Gains(close)[i] - Losses(close)[i] == close[i] - close[i - 1]
      && (Gains(close)[i] == 0.0 || Losses(close)[i] == 0.0)
  {
  }

  /** `100 - 100 / (1 + rs)` with `rs = gain / (loss + 1e-9)`. For non-negative averages
      it equals `100 * gain / (gain + loss + 1e-9)`, so it lies in [0, 100) and reaches
      100 for no input. */
  function RsiOf(gain: real, loss: real): (r: real)
    requires gain >= 0.0 && loss >= 0.0
    ensures 0.0 <= r < 100.0
    ensures r == 100.0 * gain / (gain + loss + Epsilon)
    ensures r == 0.0 <==> gain == 0.0
  {
    var d := loss + Epsilon;
    var rs := gain / d;
    assert rs >= 0.0;
    assert rs * d == gain;
    assert (1.0 + rs) * d == d + gain;
    var q := 100.0 / (1.0 + rs);
    assert q * (1.0 + rs) == 100.0;
    assert q * (d + gain) == 100.0 * d by {
      calc {
        q * (d + gain);
        q * ((1.0 + rs) * d);
        (q * (1.0 + rs)) * d;
      }
    }
    assert (100.0 - q) * (d + gain) == 100.0 * gain;
    100.0 - 100.0 / (1.0 + rs)
  }

  /** `calculate_rsi(close, w)`: NaN exactly in the first `w - 1` cells, because the
      first difference is turned into 0 rather than left NaN. */
  function Rsi(close: seq<real>, w: nat): (r: seq<Option<real>>)
    requires w >= 1
    ensures |r| == |close|
    ensures forall i :: 0 <= i < |close| ==> (r[i].Some? <==> i >= w - 1)
    ensures forall i :: 0 <= i < |close| && r[i].Some? ==> 0.0 <= r[i].value < 100.0
  {
    var gain := RollingMean(Gains(close), w);
    var loss := RollingMean(Losses(close), w);
    RollingMeanNonNegative(Gains(close), w);
    RollingMeanNonNegative(Losses(close), w);
    seq(|close|, i requires 0 <= i < |close| =>
      if gain[i].Some? && loss[i].Some? then Some(RsiOf(gain[i].value, loss[i].value)) else None)
  }

  /** A window with no rise at all has an RSI of exactly 0. */
  lemma RsiWithoutGainsIsZero(close: seq<real>, w: nat, i: nat)
    requires w >= 1 && w - 1 <= i < |close|
    requires forall k :: i - w + 1 <= k <= i && k > 0 ==> close[k] <= close[k - 1]
    ensures Rsi(close, w)[i] == Some(0.0)
  {
    SumConstant(Gains(close), i - w + 1, i + 1, 0.0);
  }
}
