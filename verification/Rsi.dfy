/** The relative strength index of the workflow chart, with Wilder's running averages. */
module Rsi {
  import opened Reals
  import opened Wrappers

  type Size = x: real | x >= 0.0

  /** The rise of the close at `i`, zero where it fell and at the first bar. */
  function Gain(closes: seq<real>, i: nat): Size
    requires i < |closes|
  {
    if i == 0 then 0.0 else Max(closes[i] - closes[i - 1], 0.0)
  }

  function Fall(closes: seq<real>, i: nat): Size
    requires i < |closes|
  {
    if i == 0 then 0.0 else Max(-(closes[i] - closes[i - 1]), 0.0)
  }

  function Gains(closes: seq<real>): (r: seq<Size>)
    ensures |r| == |closes|
    ensures forall i :: 0 <= i < |r| ==> r[i] == Gain(closes, i)
  {
    seq(|closes|, i requires 0 <= i < |closes| => Gain(closes, i))
  }

  function Falls(closes: seq<real>): (r: seq<Size>)
    ensures |r| == |closes|
    ensures forall i :: 0 <= i < |r| ==> r[i] == Fall(closes, i)
  {
    seq(|closes|, i requires 0 <= i < |closes| => Fall(closes, i))
  }

  function Smooth(average: Size, value: Size, period: nat): Size
    requires period > 0
  {
    SmoothSign(average, value, period);
    (average * (period - 1) as real + value) / period as real
  }

  function Mean(total: Size, period: nat): (r: Size)
    requires period > 0
    ensures r > 0.0 <==> total > 0.0
  {
    total / period as real
  }

  /** The running value at `i`: a sum up to the period, an average from there on. */
  function Running(values: seq<Size>, period: nat, i: nat): Size
    requires 0 < period && i < |values|
  {
    if i == 0 then 0.0
    else Advance(Running(values, period, i - 1), values[i], period, i)
  }

  function Advance(before: Size, value: Size, period: nat, i: nat): Size
    requires 0 < period
  {
    if i < period then before + value
    else if i == period then Mean(before + value, period)
    else Smooth(before, value, period)
  }

  /** The index of an average gain and an average fall. */
  function Index(gain: Size, fall: Size): real {
    var rs: Size := if fall == 0.0 then 100.0 else gain / fall;
    100.0 - 100.0 / (1.0 + rs)
  }

  /** Smoothing gives zero only from zeros. */
  lemma SmoothSign(average: Size, value: Size, period: nat)
    requires period > 0
    ensures (average * (period - 1) as real + value) / period as real >= 0.0
    ensures period > 1 ==>
              ((average * (period - 1) as real + value) / period as real > 0.0 <==> average > 0.0 || value > 0.0)
  {
    var weight := (period - 1) as real;
    assert average * weight >= 0.0;
    assert period > 1 && average > 0.0 ==> average * weight > 0.0;
  }

  /** A bar's change is its rise less its fall, and one of the two is zero. */
  lemma GainLessFall(closes: seq<real>, i: nat)
    requires 0 < i < |closes|
    ensures Gain(closes, i) - Fall(closes, i) == closes[i] - closes[i - 1]
    ensures Gain(closes, i) == 0.0 || Fall(closes, i) == 0.0
  {
  }

  function Total(values: seq<Size>, i: nat): real
    requires i < |values|
  {
    if i == 0 then 0.0 else Total(values, i - 1) + values[i]
  }

  lemma {:induction false} RunningIsTotal(values: seq<Size>, period: nat, i: nat)
    requires i < |values| && i < period
    ensures Running(values, period, i) == Total(values, i)
  {
    if i > 0 {
      RunningIsTotal(values, period, i - 1);
    }
  }

  /** At the period the average is the mean of the values up to it, the first bar's left out. */
  lemma FirstAverage(values: seq<Size>, period: nat)
    requires 0 < period < |values|
    ensures period as real * Running(values, period, period) == Total(values, period)
  {
    RunningIsTotal(values, period, period - 1);
  }

  /** From there on each value closes one part in `period` of its distance to the average. */
  lemma WilderStep(values: seq<Size>, period: nat, i: nat)
    requires 0 < period < i < |values|
    ensures period as real * (Running(values, period, i) - Running(values, period, i - 1))
            == values[i] - Running(values, period, i - 1)
  {
    SmoothStep(Running(values, period, i - 1), values[i], period);
  }

  lemma SmoothStep(average: Size, value: Size, period: nat)
    requires 0 < period
    ensures period as real * (Smooth(average, value, period) - average) == value - average
  {
    var n := period as real;
    assert Smooth(average, value, period) * n == average * (n - 1.0) + value;
    assert n * (Smooth(average, value, period) - average) == Smooth(average, value, period) * n - average * n;
  }

  /** The index is the gain's share of both averages in per cent; without falls it is 100 - 100 / 101. */
  lemma IndexIsShare(gain: Size, fall: Size)
    ensures fall > 0.0 ==> Index(gain, fall) * (gain + fall) == 100.0 * gain
    ensures fall == 0.0 ==> Index(gain, fall) * 101.0 == 10000.0
  {
    if fall > 0.0 {
      var q: Size := gain / fall;
      var x := 100.0 / (1.0 + q);
      assert q * fall == gain && x * (1.0 + q) == 100.0;
      assert (1.0 + q) * fall == gain + fall;
      assert (x * (1.0 + q)) * fall == x * ((1.0 + q) * fall);
      assert (100.0 - x) * (gain + fall) == 100.0 * (gain + fall) - x * (gain + fall);
    }
  }

  function RsiAt(closes: seq<real>, period: nat, i: nat): Option<real>
    requires 0 < period && i < |closes|
  {
    IndexAt(Gains(closes), Falls(closes), period, i)
  }

  function IndexAt(gains: seq<Size>, falls: seq<Size>, period: nat, i: nat): Option<real>
    requires 0 < period && i < |gains| == |falls|
  {
    if i < period then None
    else Some(Index(Running(gains, period, i), Running(falls, period, i)))
  }

  method CalculateRsi(closes: seq<real>, period: nat) returns (out: seq<Option<real>>)
    requires 0 < period
    ensures |out| == |closes|
    ensures forall i :: 0 <= i < |closes| ==> out[i] == RsiAt(closes, period, i)
  {
    if |closes| == 0 {
      return [];
    }
    var gains, falls := Gains(closes), Falls(closes);
    var avgGain: Size, avgLoss: Size := 0.0, 0.0;
    out := [None];
    for idx := 1 to |closes|
      invariant |out| == idx
      invariant avgGain == Running(gains, period, idx - 1) && avgLoss == Running(falls, period, idx - 1)
      invariant forall i :: 0 <= i < idx ==> out[i] == IndexAt(gains, falls, period, i)
    {
      if idx <= period {
        avgGain := avgGain + gains[idx];
        avgLoss := avgLoss + falls[idx];
        if idx == period {
          avgGain := Mean(avgGain, period);
          avgLoss := Mean(avgLoss, period);
          out := out + [Some(Index(avgGain, avgLoss))];
        } else {
          out := out + [None];
        }
        continue;
      }
      avgGain := Smooth(avgGain, gains[idx], period);
      avgLoss := Smooth(avgLoss, falls[idx], period);
      out := out + [Some(Index(avgGain, avgLoss))];
    }
  }

  // ---------- Range and symmetry ----------

  lemma SignOfProduct(a: real, b: real)
    requires b > 0.0
    ensures a * b > 0.0 <==> a > 0.0
    ensures a * b == 0.0 <==> a == 0.0
  {
  }

  lemma IndexInRange(gain: Size, fall: Size)
    ensures 0.0 <= Index(gain, fall) < 100.0
    ensures Index(gain, fall) == 0.0 <==> gain == 0.0 && fall > 0.0
  {
    var rs: Size := if fall == 0.0 then 100.0 else gain / fall;
    Reciprocal(1.0 + rs);
    if fall > 0.0 {
      assert rs * fall == gain;
      SignOfProduct(rs, fall);
    }
  }

  lemma Reciprocal(d: real)
    requires d >= 1.0
    ensures 0.0 < 100.0 / d <= 100.0
    ensures 100.0 / d == 100.0 <==> d == 1.0
  {
    var q := 100.0 / d;
    assert q * d == 100.0;
    SignOfProduct(q, d);
    assert (d - 1.0) * q == 100.0 - q;
    SignOfProduct(d - 1.0, q);
  }

  /** Exchanging gains and falls mirrors the index exactly when there are both. */
  lemma IndexMirror(gain: Size, fall: Size)
    ensures Index(gain, fall) + Index(fall, gain) == 100.0 <==> gain > 0.0 && fall > 0.0
  {
    IndexInRange(gain, fall);
    IndexInRange(fall, gain);
    if gain > 0.0 && fall > 0.0 {
      PositiveMirror(gain, fall);
    }
  }

  lemma PositiveMirror(gain: real, fall: real)
    requires gain > 0.0 && fall > 0.0
    ensures gain / fall > 0.0 && fall / gain > 0.0
    ensures 100.0 / (1.0 + gain / fall) + 100.0 / (1.0 + fall / gain) == 100.0
  {
    Share(gain, fall);
    Share(fall, gain);
    var x, y := 100.0 / (1.0 + gain / fall), 100.0 / (1.0 + fall / gain);
    assert (x + y - 100.0) * (gain + fall) == 0.0;
    SignOfProduct(x + y - 100.0, gain + fall);
  }

  lemma Share(a: real, b: real)
    requires a > 0.0 && b > 0.0
    ensures a / b > 0.0
    ensures 100.0 / (1.0 + a / b) * (a + b) == 100.0 * b
  {
    var q := a / b;
    assert q * b == a;
    SignOfProduct(q, b);
    var x := 100.0 / (1.0 + q);
    assert x * (1.0 + q) == 100.0;
    assert (1.0 + q) * b == a + b;
    assert (x * (1.0 + q)) * b == x * ((1.0 + q) * b);
  }

  lemma {:induction false} RunningPositive(values: seq<Size>, period: nat, i: nat)
    requires 1 < period && i < |values| && values[0] == 0.0
    ensures Running(values, period, i) > 0.0 <==> AnyUpTo(values, i)
  {
    if i > 0 {
      RunningPositive(values, period, i - 1);
      AdvancePositive(Running(values, period, i - 1), values[i], period, i);
    }
  }

  lemma AdvancePositive(before: Size, value: Size, period: nat, i: nat)
    requires 1 < period
    ensures Advance(before, value, period, i) > 0.0 <==> before > 0.0 || value > 0.0
  {
    SmoothSign(before, value, period);
  }

  ghost predicate AnyUpTo(values: seq<Size>, i: nat)
    requires i < |values|
  {
    exists j :: 0 <= j <= i && values[j] > 0.0
  }

  /** Values lie in [0, 100) and start at the period. */
  lemma RsiInRange(closes: seq<real>, period: nat, i: nat)
    requires 0 < period && i < |closes|
    ensures RsiAt(closes, period, i).Some? <==> i >= period
    ensures i >= period ==> 0.0 <= RsiAt(closes, period, i).value < 100.0
  {
    if i >= period {
      IndexInRange(Running(Gains(closes), period, i), Running(Falls(closes), period, i));
    }
  }

  ghost predicate Rose(closes: seq<real>, j: nat)
    requires 0 < j < |closes|
  {
    closes[j - 1] < closes[j]
  }

  ghost predicate Fell(closes: seq<real>, j: nat)
    requires 0 < j < |closes|
  {
    closes[j - 1] > closes[j]
  }

  lemma GainsMeaning(closes: seq<real>, i: nat)
    requires i < |closes|
    ensures AnyUpTo(Gains(closes), i) <==> exists j :: 1 <= j <= i && Rose(closes, j)
  {
    assert forall j :: 0 < j < |closes| ==> (Gain(closes, j) > 0.0 <==> Rose(closes, j));
  }

  lemma FallsMeaning(closes: seq<real>, i: nat)
    requires i < |closes|
    ensures AnyUpTo(Falls(closes), i) <==> exists j :: 1 <= j <= i && Fell(closes, j)
  {
    assert forall j :: 0 < j < |closes| ==> (Fall(closes, j) > 0.0 <==> Fell(closes, j));
  }

  lemma MirrorSwaps(closes: seq<real>)
    ensures Gains(Negated(closes)) == Falls(closes)
    ensures Falls(Negated(closes)) == Gains(closes)
  {
    forall i | 0 <= i < |closes|
      ensures Gain(Negated(closes), i) == Fall(closes, i) && Fall(Negated(closes), i) == Gain(closes, i)
    {
      if i > 0 {
        assert Negated(closes)[i] == -closes[i] && Negated(closes)[i - 1] == -closes[i - 1];
      }
    }
  }

  /**
   Turning the prices over turns the index over, value and mirror adding up to
   100 - exactly when the close has both risen and fallen so far. Before that
   the cap on a vanished average fall breaks the symmetry.
   */
  lemma {:induction false} RsiMirror(closes: seq<real>, period: nat, i: nat)
    requires 1 < period <= i < |closes|
    ensures RsiAt(closes, period, i).value + RsiAt(Negated(closes), period, i).value == 100.0
       <==> (exists j :: 1 <= j <= i && Rose(closes, j)) && (exists j :: 1 <= j <= i && Fell(closes, j))
  {
    MirrorSwaps(closes);
    var gains, falls := Gains(closes), Falls(closes);
    var gain, fall := Running(gains, period, i), Running(falls, period, i);
    IndexMirror(gain, fall);
    RunningPositive(gains, period, i);
    RunningPositive(falls, period, i);
    GainsMeaning(closes, i);
    FallsMeaning(closes, i);
  }

  /** A close that only rises: the index is 100 - 100 / 101, its mirror 0. */
  lemma RisingBreaksMirror()
    ensures RsiAt([1.0, 2.0, 3.0], 2, 2).value + RsiAt(Negated([1.0, 2.0, 3.0]), 2, 2).value != 100.0
  {
    var closes := [1.0, 2.0, 3.0];
    RsiMirror(closes, 2, 2);
    assert closes[0] <= closes[1] <= closes[2];
    assert !Fell(closes, 1) && !Fell(closes, 2);
  }
}
