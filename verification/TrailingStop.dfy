/**
 The ATR trailing-stop display model: rolling mean, modified true range, seeded
 exponential average, the long/short machine that ratchets a stop, and the
 run-length segments. Prices are reals, so rounding for display is not modelled.
 */
module TrailingStop {
  import opened Reals
  import opened Sequences
  import opened Wrappers

  const ATR_PERIOD: nat := 9
  const ATR_FACTOR: real := 2.9

  datatype State = Long | Short

  const FIRST_TRADE := Long

  datatype Candle = Candle(time: int, high: real, low: real, close: real)
  datatype Mark = Mark(state: State, stop: real)
  datatype Point = Point(time: int, value: real, close: real, state: State)
  datatype NumericPoint = NumericPoint(time: int, value: real)
  datatype Segment = Segment(state: State, points: seq<NumericPoint>)

  // ---------- Rolling mean ----------

  function Sum(s: seq<real>): real {
    if s == [] then 0.0 else Sum(s[..|s| - 1]) + s[|s| - 1]
  }

  /** The last `period` values up to and including `i`, or all there are. */
  function Window(values: seq<real>, period: nat, i: nat): seq<real>
    requires i < |values|
  {
    values[if i + 1 <= period then 0 else i + 1 - period..i + 1]
  }

  function WindowMean(values: seq<real>, period: nat, i: nat): real
    requires 0 < period && i < |values|
  {
    Sum(Window(values, period, i)) / (|Window(values, period, i)| as real)
  }

  lemma SumAppend(s: seq<real>, x: real)
    ensures Sum(s + [x]) == Sum(s) + x
  {
    assert (s + [x])[..|s|] == s;
  }

  lemma {:induction false} SumDropFirst(s: seq<real>)
    requires s != []
    ensures Sum(s[1..]) == Sum(s) - s[0]
  {
    if |s| > 1 {
      var n := |s| - 1;
      SumDropFirst(s[..n]);
      assert s[..n][1..] == s[1..][..n - 1];
    }
  }

  /** Sliding the window by one: add the value coming in, drop the one leaving. */
  lemma WindowSlides(values: seq<real>, period: nat, i: nat)
    requires 0 < period && i < |values|
    ensures |Window(values, period, i)| == if i + 1 <= period then i + 1 else period
    ensures Sum(Window(values, period, i)) ==
            (if i == 0 then 0.0 else Sum(Window(values, period, i - 1)))
            + values[i] - (if i >= period then values[i - period] else 0.0)
  {
    if i >= period {
      var grown := values[i - period..i + 1];
      assert grown == values[i - period..i] + [values[i]];
      SumAppend(values[i - period..i], values[i]);
      SumDropFirst(grown);
      assert grown[1..] == Window(values, period, i);
    } else {
      assert values[..i + 1] == values[..i] + [values[i]];
      SumAppend(values[..i], values[i]);
    }
  }

  method RollingSimple(values: seq<real>, period: nat) returns (output: seq<real>)
    requires 0 < period
    ensures |output| == |values|
    ensures forall i :: 0 <= i < |values| ==> output[i] == WindowMean(values, period, i)
  {
    output := [];
    var running := 0.0;
    for idx := 0 to |values|
      invariant |output| == idx
      invariant running == if idx == 0 then 0.0 else Sum(Window(values, period, idx - 1))
      invariant forall i :: 0 <= i < idx ==> output[i] == WindowMean(values, period, i)
    {
      WindowSlides(values, period, idx);
      running := running + values[idx];
      if idx >= period {
        running := running - values[idx - period];
      }
      output := output + [running / ((if idx + 1 <= period then idx + 1 else period) as real)];
    }
  }

  /** The plain moving average of the chart: null until a window is full. */
  function Sma(values: seq<real>, period: nat): seq<Option<real>>
    requires 0 < period
  {
    seq(|values|, i requires 0 <= i < |values| =>
      if i < period - 1 then None
      else Some(Sum(values[i - period + 1..i + 1]) / (period as real)))
  }

  /** The running sum gives the plain average exactly where there is one. */
  lemma RollingIsSma(values: seq<real>, period: nat, i: nat)
    requires 0 < period && i < |values|
    ensures Sma(values, period)[i] == if i + 1 < period then None else Some(WindowMean(values, period, i))
  {
    WindowSlides(values, period, i);
  }

  lemma {:induction false} SumBetween(s: seq<real>, lo: real, hi: real)
    requires forall i :: 0 <= i < |s| ==> lo <= s[i] <= hi
    ensures lo * |s| as real <= Sum(s) <= hi * |s| as real
  {
    if s != [] {
      var n := |s| - 1;
      SumBetween(s[..n], lo, hi);
      assert lo * |s| as real == lo * n as real + lo && hi * |s| as real == hi * n as real + hi;
    }
  }

  lemma QuotientBetween(sum: real, count: real, lo: real, hi: real)
    requires count > 0.0 && lo * count <= sum <= hi * count
    ensures lo <= sum / count <= hi
  {
    var q := sum / count;
    assert q * count == sum;
    ProductSign(q - lo, count);
    ProductSign(hi - q, count);
  }

  lemma ProductSign(x: real, y: real)
    requires y > 0.0
    ensures x * y >= 0.0 <==> x >= 0.0
  {
  }

  /** The mean lies between the least and the greatest of its window. */
  lemma WindowMeanBetween(values: seq<real>, period: nat, i: nat, lo: real, hi: real)
    requires 0 < period && i < |values|
    requires forall j :: 0 <= j <= i && i < j + period ==> lo <= values[j] <= hi
    ensures lo <= WindowMean(values, period, i) <= hi
  {
    var window := Window(values, period, i);
    var start := if i + 1 <= period then 0 else i + 1 - period;
    assert forall j :: 0 <= j < |window| ==> window[j] == values[start + j];
    SumBetween(window, lo, hi);
    QuotientBetween(Sum(window), |window| as real, lo, hi);
  }

  // ---------- Modified true range ----------

  function Ranges(candles: seq<Candle>): seq<real> {
    seq(|candles|, i requires 0 <= i < |candles| => candles[i].high - candles[i].low)
  }

  /** The range of a bar against the bar before it and the average bar. */
  function BarRange(prev: Candle, bar: Candle, average: real): real {
    var hiLo := Min(bar.high - bar.low, 1.5 * average);
    var hRef := if bar.low <= prev.high then bar.high - prev.close
                else bar.high - prev.close - 0.5 * (bar.low - prev.high);
    var lRef := if bar.high >= prev.low then prev.close - bar.low
                else prev.close - bar.low - 0.5 * (prev.low - bar.high);
    Max(hiLo, Max(hRef, lRef))
  }

  /** The range of bar `i`, the first one without a bar before it. */
  function RangeOf(candles: seq<Candle>, i: nat, average: real): real
    requires i < |candles|
  {
    if i == 0 then Max(0.0, candles[0].high - candles[0].low)
    else BarRange(candles[i - 1], candles[i], average)
  }

  function TrueRangeAt(candles: seq<Candle>, period: nat, i: nat): real
    requires 0 < period && i < |candles|
  {
    RangeOf(candles, i, WindowMean(Ranges(candles), period, i))
  }

  function TrueRanges(candles: seq<Candle>, period: nat): (r: seq<real>)
    requires 0 < period
    ensures |r| == |candles|
    ensures forall i :: 0 <= i < |r| ==> r[i] == TrueRangeAt(candles, period, i)
  {
    seq(|candles|, i requires 0 <= i < |candles| => TrueRangeAt(candles, period, i))
  }

  /** The classic true range: the spread of the bar and the close before it. */
  function ClassicRange(prev: Candle, bar: Candle): real {
    Max(bar.high, prev.close) - Min(bar.low, prev.close)
  }

  /**
   Discounting gaps and capping wide bars never adds range and never takes more
   than half of it away, whatever the average bar is.
   */
  lemma ModifiedRangeBounds(prev: Candle, bar: Candle, average: real)
    requires prev.low <= prev.close <= prev.high && bar.low <= bar.high
    ensures ClassicRange(prev, bar) / 2.0 <= BarRange(prev, bar, average) <= ClassicRange(prev, bar)
    ensures bar.low <= prev.high && prev.low <= bar.high && bar.high - bar.low <= 1.5 * average ==>
              BarRange(prev, bar, average) == ClassicRange(prev, bar)
  {
  }

  /** A gap between the bars: they share no price. */
  predicate Gapped(prev: Candle, bar: Candle) {
    bar.low > prev.high || bar.high < prev.low
  }

  /** The width of the gap. */
  function GapOf(prev: Candle, bar: Candle): real
    requires Gapped(prev, bar)
  {
    if bar.low > prev.high then bar.low - prev.high else prev.low - bar.high
  }

  /** On a gap half of it is taken off the classic range, and nothing else. */
  lemma GapDiscount(prev: Candle, bar: Candle, average: real)
    requires prev.low <= prev.close <= prev.high && bar.low <= bar.high && Gapped(prev, bar)
    ensures BarRange(prev, bar, average) == ClassicRange(prev, bar) - GapOf(prev, bar) / 2.0
  {
  }

  /**
   Without a gap the cap cuts exactly a bar wider than one and a half average
   bars with the close before it strictly inside, down to the greatest of the cap
   and the two moves from that close.
   */
  lemma CapIff(prev: Candle, bar: Candle, average: real)
    requires prev.low <= prev.close <= prev.high && bar.low <= bar.high && !Gapped(prev, bar)
    ensures BarRange(prev, bar, average) == ClassicRange(prev, bar)
       <==> bar.high - bar.low <= 1.5 * average || prev.close <= bar.low || prev.close >= bar.high
    ensures bar.low <= prev.close <= bar.high && bar.high - bar.low > 1.5 * average ==>
              BarRange(prev, bar, average) == Max(1.5 * average, Max(bar.high - prev.close, prev.close - bar.low))
  {
  }

  /** With bars between `lo` and `hi` wide the cap lies between one and a half times each. */
  lemma AverageSpread(candles: seq<Candle>, period: nat, i: nat, lo: real, hi: real)
    requires 0 < period && i < |candles|
    requires forall j :: 0 <= j <= i && i < j + period ==> lo <= candles[j].high - candles[j].low <= hi
    ensures lo <= WindowMean(Ranges(candles), period, i) <= hi
  {
    WindowMeanBetween(Ranges(candles), period, i, lo, hi);
  }

  /** The first bar has no bar before it: its range is its spread. */
  lemma FirstRange(candles: seq<Candle>, period: nat)
    requires 0 < period && candles != [] && candles[0].low <= candles[0].high
    ensures TrueRanges(candles, period)[0] == candles[0].high - candles[0].low
  {
  }

  method CalculateModifiedTrueRange(candles: seq<Candle>, period: nat) returns (output: seq<real>)
    requires 0 < period
    ensures output == TrueRanges(candles, period)
  {
    var highLowAverage := RollingSimple(Ranges(candles), period);
    output := seq(|candles|, i requires 0 <= i < |candles| => RangeOf(candles, i, highLowAverage[i]));
  }

  // ---------- Seeded exponential average ----------

  function Multiplier(period: nat): real {
    2.0 / (period + 1) as real
  }

  function Blend(value: real, prev: real, m: real): real {
    value * m + prev * (1.0 - m)
  }

  function EmaAt(values: seq<real>, period: nat, i: nat): real
    requires i < |values|
  {
    if i == 0 then values[0]
    else Blend(values[i], EmaAt(values, period, i - 1), Multiplier(period))
  }

  method SeededEma(values: seq<real>, period: nat) returns (output: seq<real>)
    ensures |output| == |values|
    ensures forall i :: 0 <= i < |values| ==> output[i] == EmaAt(values, period, i)
  {
    if |values| == 0 {
      return [];
    }
    var multiplier := Multiplier(period);
    output := [values[0]];
    for idx := 1 to |values|
      invariant |output| == idx
      invariant forall i :: 0 <= i < idx ==> output[i] == EmaAt(values, period, i)
    {
      output := output + [Blend(values[idx], output[idx - 1], multiplier)];
    }
  }

  /** Each value closes two parts in `period + 1` of its distance to the average. */
  lemma EmaStep(values: seq<real>, period: nat, i: nat)
    requires 0 < i < |values|
    ensures (period + 1) as real * (EmaAt(values, period, i) - EmaAt(values, period, i - 1))
            == 2.0 * (values[i] - EmaAt(values, period, i - 1))
  {
    var m, before := Multiplier(period), EmaAt(values, period, i - 1);
    assert m * (period + 1) as real == 2.0;
    assert Blend(values[i], before, m) - before == m * (values[i] - before);
    Regroup(m, (period + 1) as real, values[i] - before);
  }

  lemma Regroup(m: real, n: real, x: real)
    ensures n * (m * x) == (m * n) * x
  {
  }

  function Power(base: real, k: nat): real {
    if k == 0 then 1.0 else base * Power(base, k - 1)
  }

  /** Where an average that started at `start` stands after `k` values of `v`. */
  function Decayed(v: real, start: real, ratio: real, k: nat): real {
    v + Power(ratio, k) * (start - v)
  }

  function Ratio(period: nat): real {
    (period as real - 1.0) / (period + 1) as real
  }

  /** Once the values stay at `v`, the distance to it shrinks by (period - 1) / (period + 1) a bar. */
  lemma {:induction false} EmaDecay(values: seq<real>, period: nat, s: nat, k: nat, v: real)
    requires s + k < |values|
    requires forall j :: s < j <= s + k ==> values[j] == v
    ensures EmaAt(values, period, s + k) == Decayed(v, EmaAt(values, period, s), Ratio(period), k)
  {
    var start := EmaAt(values, period, s);
    if k > 0 {
      EmaDecay(values, period, s, k - 1, v);
      RatioIsRest(period);
      Shrink(v, start, Ratio(period), Multiplier(period), k);
    } else {
      NoDecay(v, start, Ratio(period), k);
    }
  }

  lemma NoDecay(v: real, start: real, ratio: real, k: nat)
    requires k == 0
    ensures Decayed(v, start, ratio, k) == start
  {
  }

  lemma Shrink(v: real, start: real, ratio: real, m: real, k: nat)
    requires k > 0 && ratio == 1.0 - m
    ensures Blend(v, Decayed(v, start, ratio, k - 1), m) == Decayed(v, start, ratio, k)
  {
    var before := Decayed(v, start, ratio, k - 1);
    assert Blend(v, before, m) - v == ratio * (before - v);
    Regroup(Power(ratio, k - 1), ratio, start - v);
  }

  lemma RatioIsRest(period: nat)
    ensures Ratio(period) == 1.0 - Multiplier(period)
  {
    var n := (period + 1) as real;
    assert (n - 2.0) / n == n / n - 2.0 / n;
  }

  function Losses(candles: seq<Candle>): seq<real> {
    var ranges := TrueRanges(candles, ATR_PERIOD);
    seq(|candles|, i requires 0 <= i < |candles| => EmaAt(ranges, ATR_PERIOD, i) * ATR_FACTOR)
  }

  function Closes(candles: seq<Candle>): seq<real> {
    seq(|candles|, i requires 0 <= i < |candles| => candles[i].close)
  }

  // ---------- The stop machine ----------

  function Open(state: State, close: real, loss: real): real {
    if state == Long then close - loss else close + loss
  }

  /** One bar of the machine. */
  function Step(prev: Option<Mark>, first: State, close: real, loss: real): Mark {
    match prev
    case None => Mark(first, Open(first, close, loss))
    case Some(Mark(Long, stop)) =>
      if close > stop then Mark(Long, Max(stop, close - loss)) else Mark(Short, close + loss)
    case Some(Mark(Short, stop)) =>
      if close < stop then Mark(Short, Min(stop, close + loss)) else Mark(Long, close - loss)
  }

  /** The machine run over all bars. */
  function Marks(closes: seq<real>, losses: seq<real>, first: State): (marks: seq<Mark>)
    requires |closes| == |losses|
    ensures |marks| == |closes|
  {
    if closes == [] then []
    else
      var n := |closes| - 1;
      var before := Marks(closes[..n], losses[..n], first);
      before + [Step(if n == 0 then None else Some(before[n - 1]), first, closes[n], losses[n])]
  }

  function Points(candles: seq<Candle>, marks: seq<Mark>): seq<Point>
    requires |candles| == |marks|
  {
    seq(|candles|, i requires 0 <= i < |candles| =>
      Point(candles[i].time, marks[i].stop, candles[i].close, marks[i].state))
  }

  function Display(candles: seq<Candle>, first: State): seq<Point> {
    Points(candles, Marks(Closes(candles), Losses(candles), first))
  }

  // ---------- Closed form ----------

  /** The highest close minus loss (long), or lowest close plus loss (short), on s..i. */
  function Bound(state: State, closes: seq<real>, losses: seq<real>, s: nat, i: nat): real
    requires |closes| == |losses| && s <= i < |closes|
    decreases i
  {
    var here := Open(state, closes[i], losses[i]);
    if i == s then here
    else if state == Long then Max(Bound(state, closes, losses, s, i - 1), here)
    else Min(Bound(state, closes, losses, s, i - 1), here)
  }

  /** `Bound` really is the extreme of the run. */
  lemma {:induction false} BoundIsExtreme(state: State, closes: seq<real>, losses: seq<real>, s: nat, i: nat)
    requires |closes| == |losses| && s <= i < |closes|
    ensures exists j :: s <= j <= i && Bound(state, closes, losses, s, i) == Open(state, closes[j], losses[j])
    ensures forall j :: s <= j <= i ==>
              if state == Long then Open(state, closes[j], losses[j]) <= Bound(state, closes, losses, s, i)
              else Bound(state, closes, losses, s, i) <= Open(state, closes[j], losses[j])
    decreases i
  {
    if i > s {
      BoundIsExtreme(state, closes, losses, s, i - 1);
      assert Bound(state, closes, losses, s, i) == Bound(state, closes, losses, s, i - 1)
          || Bound(state, closes, losses, s, i) == Open(state, closes[i], losses[i]);
    } else {
      assert Bound(state, closes, losses, s, i) == Open(state, closes[s], losses[s]);
    }
  }

  /** Where the run of equal states that holds `i` began. */
  function RunStart(marks: seq<Mark>, i: nat): (s: nat)
    requires i < |marks|
    ensures s <= i
    ensures forall j :: s <= j <= i ==> marks[j].state == marks[i].state
    ensures s > 0 ==> marks[s - 1].state != marks[i].state
  {
    if i == 0 || marks[i - 1].state != marks[i].state then i else RunStart(marks, i - 1)
  }

  /** Close reached the stop that protects a position in `state`. */
  predicate Reached(state: State, close: real, bound: real) {
    if state == Long then close <= bound else close >= bound
  }

  /** The extreme of the run so far that holds `i`. */
  function RunBound(closes: seq<real>, losses: seq<real>, marks: seq<Mark>, i: nat): real
    requires |closes| == |losses| == |marks| && i < |marks|
  {
    Bound(marks[i].state, closes, losses, RunStart(marks, i), i)
  }

  predicate TrailsAt(closes: seq<real>, losses: seq<real>, first: State, marks: seq<Mark>, i: nat)
    requires |closes| == |losses| == |marks| && i < |marks|
  {
    && marks[i].stop == RunBound(closes, losses, marks, i)
    && (i == 0 ==> marks[0].state == first)
    && (i > 0 ==>
          (marks[i].state != marks[i - 1].state <==>
           Reached(marks[i - 1].state, closes[i], RunBound(closes, losses, marks, i - 1))))
  }

  /**
   A trailing stop, declared without a running value: every stop is the extreme
   of its run so far, and the state flips exactly when the close reaches it.
   */
  predicate IsTrailingStop(closes: seq<real>, losses: seq<real>, first: State, marks: seq<Mark>)
    requires |closes| == |losses|
  {
    |marks| == |closes| && forall i :: 0 <= i < |marks| ==> TrailsAt(closes, losses, first, marks, i)
  }

  lemma {:induction false} MarksPrefix(closes: seq<real>, losses: seq<real>, first: State, k: nat)
    requires |closes| == |losses| && k <= |closes|
    ensures Marks(closes[..k], losses[..k], first) == Marks(closes, losses, first)[..k]
  {
    if k == |closes| {
      assert closes[..k] == closes && losses[..k] == losses;
    } else {
      var n := |closes| - 1;
      MarksPrefix(closes[..n], losses[..n], first, k);
      assert closes[..n][..k] == closes[..k] && losses[..n][..k] == losses[..k];
    }
  }

  /** Each mark is one step from the mark before it. */
  lemma MarksStep(closes: seq<real>, losses: seq<real>, first: State, i: nat)
    requires |closes| == |losses| && i < |closes|
    ensures var marks := Marks(closes, losses, first);
            marks[i] == Step(if i == 0 then None else Some(marks[i - 1]), first, closes[i], losses[i])
  {
    var k := i + 1;
    MarksPrefix(closes, losses, first, k);
    MarksPrefix(closes, losses, first, i);
    assert closes[..k][..i] == closes[..i] && losses[..k][..i] == losses[..i];
  }

  lemma {:induction false} StopIsBound(closes: seq<real>, losses: seq<real>, first: State, i: nat)
    requires |closes| == |losses| && i < |closes|
    ensures var marks := Marks(closes, losses, first);
            marks[i].stop == RunBound(closes, losses, marks, i)
  {
    MarksStep(closes, losses, first, i);
    if i > 0 {
      StopIsBound(closes, losses, first, i - 1);
    }
  }

  /** The incremental machine computes a trailing stop. */
  lemma MarksTrail(closes: seq<real>, losses: seq<real>, first: State, i: nat)
    requires |closes| == |losses| && i < |closes|
    ensures TrailsAt(closes, losses, first, Marks(closes, losses, first), i)
  {
    StopIsBound(closes, losses, first, i);
    MarksStep(closes, losses, first, i);
    if i > 0 {
      StopIsBound(closes, losses, first, i - 1);
    }
  }

  lemma {:induction false} TrailingStopDetermined(closes: seq<real>, losses: seq<real>, first: State,
                                                  a: seq<Mark>, b: seq<Mark>, i: nat)
    requires |closes| == |losses| && i < |closes|
    requires IsTrailingStop(closes, losses, first, a) && IsTrailingStop(closes, losses, first, b)
    ensures a[i] == b[i] && RunStart(a, i) == RunStart(b, i)
  {
    assert TrailsAt(closes, losses, first, a, i) && TrailsAt(closes, losses, first, b, i);
    if i > 0 {
      TrailingStopDetermined(closes, losses, first, a, b, i - 1);
    }
  }

  /** The declaration has one solution: the machine's marks. */
  lemma TrailingStopIffMarks(closes: seq<real>, losses: seq<real>, first: State, marks: seq<Mark>)
    requires |closes| == |losses|
    ensures IsTrailingStop(closes, losses, first, marks) <==> marks == Marks(closes, losses, first)
  {
    forall i | 0 <= i < |closes|
      ensures TrailsAt(closes, losses, first, Marks(closes, losses, first), i)
    {
      MarksTrail(closes, losses, first, i);
    }
    if IsTrailingStop(closes, losses, first, marks) {
      forall i | 0 <= i < |marks|
        ensures marks[i] == Marks(closes, losses, first)[i]
      {
        TrailingStopDetermined(closes, losses, first, marks, Marks(closes, losses, first), i);
      }
    }
  }

  // ---------- No lookahead ----------

  lemma WindowMeanPrefix(values: seq<real>, period: nat, i: nat, k: nat)
    requires 0 < period && i < k <= |values|
    ensures WindowMean(values[..k], period, i) == WindowMean(values, period, i)
  {
    assert Window(values[..k], period, i) == Window(values, period, i);
  }

  lemma {:induction false} EmaPrefix(values: seq<real>, period: nat, i: nat, k: nat)
    requires i < k <= |values|
    ensures EmaAt(values[..k], period, i) == EmaAt(values, period, i)
  {
    if i > 0 {
      EmaPrefix(values, period, i - 1, k);
    }
  }

  lemma TrueRangesPrefix(candles: seq<Candle>, period: nat, k: nat)
    requires 0 < period && k <= |candles|
    ensures TrueRanges(candles[..k], period) == TrueRanges(candles, period)[..k]
  {
    assert Ranges(candles[..k]) == Ranges(candles)[..k];
    forall i | 0 <= i < k
      ensures TrueRangeAt(candles[..k], period, i) == TrueRangeAt(candles, period, i)
    {
      WindowMeanPrefix(Ranges(candles), period, i, k);
    }
  }

  lemma LossesPrefix(candles: seq<Candle>, k: nat)
    requires k <= |candles|
    ensures Losses(candles[..k]) == Losses(candles)[..k]
  {
    TrueRangesPrefix(candles, ATR_PERIOD, k);
    forall i | 0 <= i < k
      ensures Losses(candles[..k])[i] == Losses(candles)[i]
    {
      EmaPrefix(TrueRanges(candles, ATR_PERIOD), ATR_PERIOD, i, k);
    }
  }

  /** The first k points depend on the first k candles alone. */
  lemma NoLookahead(candles: seq<Candle>, first: State, k: nat)
    requires k <= |candles|
    ensures Display(candles[..k], first) == Display(candles, first)[..k]
  {
    LossesPrefix(candles, k);
    assert Closes(candles[..k]) == Closes(candles)[..k];
    MarksPrefix(Closes(candles), Losses(candles), first, k);
  }

  // ---------- Mirror symmetry ----------

  function Opposite(state: State): State {
    if state == Long then Short else Long
  }

  function Mirror(candles: seq<Candle>): (r: seq<Candle>)
    ensures |r| == |candles|
  {
    seq(|candles|, i requires 0 <= i < |candles| =>
      Candle(candles[i].time, -candles[i].low, -candles[i].high, -candles[i].close))
  }

  function MirrorMarks(marks: seq<Mark>): seq<Mark> {
    seq(|marks|, i requires 0 <= i < |marks| => Mark(Opposite(marks[i].state), -marks[i].stop))
  }

  function MirrorPoints(points: seq<Point>): seq<Point> {
    seq(|points|, i requires 0 <= i < |points| =>
      Point(points[i].time, -points[i].value, -points[i].close, Opposite(points[i].state)))
  }

  lemma StepMirror(prev: Option<Mark>, first: State, close: real, loss: real)
    ensures var m := Step(prev, first, close, loss);
            var turned := if prev.None? then None else Some(Mark(Opposite(prev.value.state), -prev.value.stop));
            Step(turned, Opposite(first), -close, loss) == Mark(Opposite(m.state), -m.stop)
  {
  }

  lemma {:induction false} MarkMirror(closes: seq<real>, losses: seq<real>, first: State, i: nat)
    requires |closes| == |losses| && i < |closes|
    ensures var mark := Marks(closes, losses, first)[i];
            Marks(Negated(closes), losses, Opposite(first))[i] == Mark(Opposite(mark.state), -mark.stop)
  {
    if i > 0 {
      MarkMirror(closes, losses, first, i - 1);
    }
    MarksStep(closes, losses, first, i);
    MarksStep(Negated(closes), losses, Opposite(first), i);
    StepMirror(if i == 0 then None else Some(Marks(closes, losses, first)[i - 1]), first, closes[i], losses[i]);
  }

  lemma {:induction false} MarksMirror(closes: seq<real>, losses: seq<real>, first: State)
    requires |closes| == |losses|
    ensures Marks(Negated(closes), losses, Opposite(first)) == MirrorMarks(Marks(closes, losses, first))
  {
    forall i | 0 <= i < |closes|
      ensures Marks(Negated(closes), losses, Opposite(first))[i] == MirrorMarks(Marks(closes, losses, first))[i]
    {
      MarkMirror(closes, losses, first, i);
    }
  }

  lemma LossesMirror(candles: seq<Candle>)
    ensures TrueRanges(Mirror(candles), ATR_PERIOD) == TrueRanges(candles, ATR_PERIOD)
    ensures Losses(Mirror(candles)) == Losses(candles)
  {
    assert Ranges(Mirror(candles)) == Ranges(candles);
    assert TrueRanges(Mirror(candles), ATR_PERIOD) == TrueRanges(candles, ATR_PERIOD);
  }

  lemma PointsMirror(candles: seq<Candle>, marks: seq<Mark>)
    requires |candles| == |marks|
    ensures Points(Mirror(candles), MirrorMarks(marks)) == MirrorPoints(Points(candles, marks))
  {
  }

  /**
   Turning every price over and swapping the first trade leaves every loss,
   swaps every state and negates every stop: long and short are treated alike.
   */
  lemma MirrorSymmetry(candles: seq<Candle>, first: State)
    ensures Display(Mirror(candles), Opposite(first)) == MirrorPoints(Display(candles, first))
  {
    LossesMirror(candles);
    assert Closes(Mirror(candles)) == Negated(Closes(candles));
    MarksMirror(Closes(candles), Losses(candles), first);
    PointsMirror(candles, Marks(Closes(candles), Losses(candles), first));
  }

  // ---------- Order and sign ----------

  lemma ProductNonNegative(x: real, y: real)
    requires 0.0 <= x && 0.0 <= y
    ensures 0.0 <= x * y
  {
  }

  /** The average stays between the least and the greatest value it has seen. */
  lemma {:induction false} EmaAtLeast(values: seq<real>, period: nat, i: nat, lo: real)
    requires 0 < period && i < |values|
    requires forall j :: 0 <= j <= i ==> lo <= values[j]
    ensures lo <= EmaAt(values, period, i)
  {
    if i > 0 {
      EmaAtLeast(values, period, i - 1, lo);
      var m, before := Multiplier(period), EmaAt(values, period, i - 1);
      ProductNonNegative(values[i] - lo, m);
      ProductNonNegative(before - lo, 1.0 - m);
      assert Blend(values[i], before, m) - lo == (values[i] - lo) * m + (before - lo) * (1.0 - m);
    }
  }

  lemma {:induction false} EmaAtMost(values: seq<real>, period: nat, i: nat, hi: real)
    requires 0 < period && i < |values|
    requires forall j :: 0 <= j <= i ==> values[j] <= hi
    ensures EmaAt(values, period, i) <= hi
  {
    if i > 0 {
      EmaAtMost(values, period, i - 1, hi);
      var m, before := Multiplier(period), EmaAt(values, period, i - 1);
      ProductNonNegative(hi - values[i], m);
      ProductNonNegative(hi - before, 1.0 - m);
      assert hi - Blend(values[i], before, m) == (hi - values[i]) * m + (hi - before) * (1.0 - m);
    }
  }

  predicate WellOrdered(candles: seq<Candle>) {
    forall i :: 0 <= i < |candles| ==> candles[i].low <= candles[i].high
  }

  lemma TrueRangeNonNegative(candles: seq<Candle>, period: nat, i: nat)
    requires 0 < period && i < |candles| && WellOrdered(candles)
    ensures 0.0 <= TrueRangeAt(candles, period, i)
  {
    var window := Window(Ranges(candles), period, i);
    SumNonNegative(window);
    assert WindowMean(Ranges(candles), period, i) >= 0.0;
  }

  lemma {:induction false} SumNonNegative(s: seq<real>)
    requires forall i :: 0 <= i < |s| ==> 0.0 <= s[i]
    ensures 0.0 <= Sum(s)
  {
    if s != [] {
      SumNonNegative(s[..|s| - 1]);
    }
  }

  lemma LossNonNegative(candles: seq<Candle>, i: nat)
    requires i < |candles| && WellOrdered(candles)
    ensures 0.0 <= Losses(candles)[i]
  {
    forall j | 0 <= j <= i
      ensures 0.0 <= TrueRanges(candles, ATR_PERIOD)[j]
    {
      TrueRangeNonNegative(candles, ATR_PERIOD, j);
    }
    EmaAtLeast(TrueRanges(candles, ATR_PERIOD), ATR_PERIOD, i, 0.0);
  }

  /** On ordered bars the stop stays on its side of the close and only tightens in a run. */
  lemma StopGuards(candles: seq<Candle>, first: State, i: nat)
    requires i < |candles| && WellOrdered(candles)
    ensures var points := Display(candles, first);
            if points[i].state == Long then points[i].value <= points[i].close
            else points[i].close <= points[i].value
    ensures var points := Display(candles, first);
            i > 0 && points[i].state == points[i - 1].state ==>
              if points[i].state == Long then points[i - 1].value <= points[i].value
              else points[i].value <= points[i - 1].value
  {
    LossNonNegative(candles, i);
    MarksStep(Closes(candles), Losses(candles), first, i);
  }

  // ---------- Segments ----------

  function Dots(points: seq<Point>): seq<(State, NumericPoint)> {
    seq(|points|, i requires 0 <= i < |points| =>
      (points[i].state, NumericPoint(points[i].time, points[i].value)))
  }

  function Tagged(state: State, points: seq<NumericPoint>): seq<(State, NumericPoint)> {
    seq(|points|, i requires 0 <= i < |points| => (state, points[i]))
  }

  function Flatten(segments: seq<Segment>): seq<(State, NumericPoint)> {
    if segments == [] then []
    else
      var n := |segments| - 1;
      Flatten(segments[..n]) + Tagged(segments[n].state, segments[n].points)
  }

  /** Non-empty runs whose neighbours differ in state. */
  predicate Alternating(segments: seq<Segment>) {
    && (forall i :: 0 <= i < |segments| ==> segments[i].points != [])
    && (forall i, j :: 0 <= i < |segments| && 0 <= j < |segments| && j == i + 1 ==>
          segments[i].state != segments[j].state)
  }

  lemma CloseSegment(segments: seq<Segment>, last: Segment)
    requires Alternating(segments) && last.points != []
    requires segments != [] ==> segments[|segments| - 1].state != last.state
    ensures Alternating(segments + [last])
  {
  }

  lemma FlattenAppend(segments: seq<Segment>, last: Segment)
    ensures Flatten(segments + [last]) == Flatten(segments) + Tagged(last.state, last.points)
  {
    assert (segments + [last])[..|segments|] == segments;
  }

  lemma TaggedAppend(state: State, points: seq<NumericPoint>, last: NumericPoint)
    ensures Tagged(state, points + [last]) == Tagged(state, points) + [(state, last)]
  {
  }

  /** Closed segments and the open one hold `dots`. */
  ghost predicate Holds(segments: seq<Segment>, active: Option<State>, open: seq<NumericPoint>,
                        dots: seq<(State, NumericPoint)>)
  {
    && Alternating(segments)
    && (active.None? ==> open == [] && segments == [] && dots == [])
    && (active.Some? ==>
          && open != []
          && (segments != [] ==> segments[|segments| - 1].state != active.value)
          && dots == Flatten(segments) + Tagged(active.value, open))
  }

  /** The open segment, if it has points, joins the closed ones. */
  function Flush(segments: seq<Segment>, active: Option<State>, open: seq<NumericPoint>): seq<Segment> {
    if active.Some? && |open| > 0 then segments + [Segment(active.value, open)] else segments
  }

  lemma Flushed(segments: seq<Segment>, active: Option<State>, open: seq<NumericPoint>,
                dots: seq<(State, NumericPoint)>)
    requires Holds(segments, active, open, dots)
    ensures Alternating(Flush(segments, active, open)) && Flatten(Flush(segments, active, open)) == dots
  {
    if active.Some? {
      FlattenAppend(segments, Segment(active.value, open));
      CloseSegment(segments, Segment(active.value, open));
    }
  }

  lemma Extended(segments: seq<Segment>, state: State, open: seq<NumericPoint>,
                 dots: seq<(State, NumericPoint)>, next: NumericPoint)
    requires Holds(segments, Some(state), open, dots)
    ensures Holds(segments, Some(state), open + [next], dots + [(state, next)])
  {
    TaggedAppend(state, open, next);
    ConcatAssociative(Flatten(segments), Tagged(state, open), [(state, next)]);
  }

  lemma {:induction false} Turned(segments: seq<Segment>, active: Option<State>, open: seq<NumericPoint>,
               dots: seq<(State, NumericPoint)>, state: State, next: NumericPoint)
    requires Holds(segments, active, open, dots) && active != Some(state)
    ensures Holds(Flush(segments, active, open), Some(state), [next], dots + [(state, next)])
  {
    var flushed := Flush(segments, active, open);
    Flushed(segments, active, open, dots);
    assert flushed != [] ==> flushed[|flushed| - 1].state != state;
    Started(flushed, state, dots, next);
  }

  lemma Started(segments: seq<Segment>, state: State, dots: seq<(State, NumericPoint)>, next: NumericPoint)
    requires Alternating(segments) && Flatten(segments) == dots
    requires segments != [] ==> segments[|segments| - 1].state != state
    ensures Holds(segments, Some(state), [next], dots + [(state, next)])
  {
    assert Tagged(state, [next]) == [(state, next)];
  }

  lemma DotsNext(points: seq<Point>, i: nat)
    requires i < |points|
    ensures Dots(points)[..i + 1]
            == Dots(points)[..i] + [(points[i].state, NumericPoint(points[i].time, points[i].value))]
  {
  }

  method SegmentAtrTrailingStop(points: seq<Point>) returns (segments: seq<Segment>)
    ensures Alternating(segments)
    ensures Flatten(segments) == Dots(points)
    ensures |Flatten(segments)| == |points|
    ensures forall i :: 0 <= i < |points| ==>
              Flatten(segments)[i] == (points[i].state, NumericPoint(points[i].time, points[i].value))
  {
    segments := [];
    var activeState: Option<State> := None;
    var activePoints: seq<NumericPoint> := [];
    ghost var seen: seq<(State, NumericPoint)> := [];
    for i := 0 to |points|
      invariant seen == Dots(points)[..i]
      invariant Holds(segments, activeState, activePoints, seen)
    {
      var point := points[i];
      var next := NumericPoint(point.time, point.value);
      DotsNext(points, i);
      if activeState != Some(point.state) {
        Turned(segments, activeState, activePoints, seen, point.state, next);
        segments := Flush(segments, activeState, activePoints);
        activeState := Some(point.state);
        activePoints := [next];
      } else {
        Extended(segments, point.state, activePoints, seen, next);
        activePoints := activePoints + [next];
      }
      seen := seen + [(point.state, next)];
    }
    assert Dots(points)[..|points|] == Dots(points);
    Flushed(segments, activeState, activePoints, seen);
    segments := Flush(segments, activeState, activePoints);
  }

  lemma {:induction false} FlattenEnd(a: seq<Segment>)
    requires Alternating(a) && a != []
    ensures var flat, last := Flatten(a), a[|a| - 1];
            && 0 < |last.points| <= |flat|
            && (forall k :: |flat| - |last.points| <= k < |flat| ==> flat[k].0 == last.state)
            && (|flat| == |last.points| <==> |a| == 1)
            && (|a| > 1 ==> flat[|flat| - |last.points| - 1].0 != last.state)
  {
    var n := |a| - 1;
    var front := Flatten(a[..n]);
    assert Flatten(a) == front + Tagged(a[n].state, a[n].points);
    if n > 0 {
      FlattenEnd(a[..n]);
      assert Flatten(a)[|front| - 1] == front[|front| - 1];
    } else {
      assert a[..n] == [];
    }
  }

  lemma LastSegmentLength(a: seq<Segment>, b: seq<Segment>)
    requires Alternating(a) && Alternating(b) && a != [] && b != []
    requires Flatten(a) == Flatten(b)
    ensures |a[|a| - 1].points| <= |b[|b| - 1].points|
  {
    FlattenEnd(a);
    FlattenEnd(b);
    var flat := Flatten(a);
    assert flat[|flat| - 1].0 == a[|a| - 1].state == b[|b| - 1].state;
  }

  lemma LastSegmentUnique(a: seq<Segment>, b: seq<Segment>)
    requires Alternating(a) && Alternating(b) && a != [] && b != []
    requires Flatten(a) == Flatten(b)
    ensures a[|a| - 1] == b[|b| - 1]
    ensures Flatten(a[..|a| - 1]) == Flatten(b[..|b| - 1])
  {
    var m, n := |a| - 1, |b| - 1;
    LastSegmentLength(a, b);
    LastSegmentLength(b, a);
    FlattenEnd(a);
    FlattenEnd(b);
    var flat, cut := Flatten(a), |Flatten(a[..m])|;
    assert flat[|flat| - 1].0 == a[m].state == b[n].state;
    assert flat[..cut] == Flatten(a[..m]) && flat[..cut] == Flatten(b[..n]);
    assert flat[cut..] == Tagged(a[m].state, a[m].points) && flat[cut..] == Tagged(b[n].state, b[n].points);
    TaggedInjective(a[m].state, a[m].points, b[n].points);
  }

  /** There is one way to cut points into alternating runs. */
  lemma {:induction false} SegmentsUnique(a: seq<Segment>, b: seq<Segment>)
    requires Alternating(a) && Alternating(b) && Flatten(a) == Flatten(b)
    ensures a == b
  {
    if a == [] || b == [] {
      if a != [] {
        FlattenEnd(a);
      }
      if b != [] {
        FlattenEnd(b);
      }
    } else {
      LastSegmentUnique(a, b);
      SegmentsUnique(a[..|a| - 1], b[..|b| - 1]);
      assert a == a[..|a| - 1] + [a[|a| - 1]] && b == b[..|b| - 1] + [b[|b| - 1]];
    }
  }

  lemma TaggedInjective(state: State, p: seq<NumericPoint>, q: seq<NumericPoint>)
    requires Tagged(state, p) == Tagged(state, q)
    ensures p == q
  {
    assert |Tagged(state, p)| == |p| && |Tagged(state, q)| == |q|;
    forall k | 0 <= k < |p|
      ensures p[k] == q[k]
    {
      assert Tagged(state, p)[k] == Tagged(state, q)[k];
    }
  }

  /** `segments` is the segmentation of `points`. */
  predicate Segments(points: seq<Point>, segments: seq<Segment>) {
    Alternating(segments) && Flatten(segments) == Dots(points)
  }

  // ---------- Segments of the mirror ----------

  function MirrorNumeric(points: seq<NumericPoint>): (r: seq<NumericPoint>)
    ensures |r| == |points|
  {
    seq(|points|, i requires 0 <= i < |points| => NumericPoint(points[i].time, -points[i].value))
  }

  function MirrorSegment(segment: Segment): Segment {
    Segment(Opposite(segment.state), MirrorNumeric(segment.points))
  }

  function MirrorSegments(segments: seq<Segment>): (r: seq<Segment>)
    ensures |r| == |segments|
  {
    seq(|segments|, i requires 0 <= i < |segments| => MirrorSegment(segments[i]))
  }

  function MirrorDots(dots: seq<(State, NumericPoint)>): (r: seq<(State, NumericPoint)>)
    ensures |r| == |dots|
  {
    seq(|dots|, i requires 0 <= i < |dots| => (Opposite(dots[i].0), NumericPoint(dots[i].1.time, -dots[i].1.value)))
  }

  lemma TaggedMirror(state: State, points: seq<NumericPoint>)
    ensures Tagged(Opposite(state), MirrorNumeric(points)) == MirrorDots(Tagged(state, points))
  {
  }

  lemma MirrorDotsConcat(a: seq<(State, NumericPoint)>, b: seq<(State, NumericPoint)>)
    ensures MirrorDots(a + b) == MirrorDots(a) + MirrorDots(b)
  {
  }

  lemma {:induction false} FlattenMirror(segments: seq<Segment>)
    ensures Flatten(MirrorSegments(segments)) == MirrorDots(Flatten(segments))
  {
    if segments != [] {
      var n := |segments| - 1;
      var last := segments[n];
      FlattenMirror(segments[..n]);
      assert MirrorSegments(segments)[..n] == MirrorSegments(segments[..n]);
      TaggedMirror(last.state, last.points);
      MirrorDotsConcat(Flatten(segments[..n]), Tagged(last.state, last.points));
    }
  }

  lemma {:induction false} AlternatingMirror(segments: seq<Segment>)
    requires Alternating(segments)
    ensures Alternating(MirrorSegments(segments))
  {
    forall i | 0 <= i < |segments|
      ensures MirrorSegments(segments)[i].points != []
    {
      assert |MirrorSegments(segments)[i].points| == |segments[i].points|;
    }
  }

  lemma {:induction false} DotsMirror(points: seq<Point>)
    ensures Dots(MirrorPoints(points)) == MirrorDots(Dots(points))
  {
  }

  /** The mirrored chart has the mirrored segments: states swapped, values negated, cut at the same bars. */
  lemma {:induction false} SegmentsMirror(candles: seq<Candle>, first: State, a: seq<Segment>, b: seq<Segment>)
    requires Segments(Display(candles, first), a)
    requires Segments(Display(Mirror(candles), Opposite(first)), b)
    ensures b == MirrorSegments(a)
  {
    MirrorSymmetry(candles, first);
    DotsMirror(Display(candles, first));
    FlattenMirror(a);
    AlternatingMirror(a);
    SegmentsUnique(b, MirrorSegments(a));
  }

  // ---------- Segments of the first candles ----------

  /** The segments up to dot number `k`, the last one cut short. */
  function CutAt(segments: seq<Segment>, k: nat): seq<Segment>
    requires k <= |Flatten(segments)|
  {
    if segments == [] then []
    else
      var n := |segments| - 1;
      var m := |Flatten(segments[..n])|;
      if k <= m then CutAt(segments[..n], k)
      else segments[..n] + [Segment(segments[n].state, segments[n].points[..k - m])]
  }

  /** `a` is the beginning of `b`: whole segments, then perhaps part of the next one. */
  predicate Begins(a: seq<Segment>, b: seq<Segment>) {
    && |a| <= |b|
    && (a != [] ==>
          var n := |a| - 1;
          && a[..n] == b[..n] && a[n].state == b[n].state && a[n].points <= b[n].points)
  }

  lemma TakeConcat<T>(a: seq<T>, b: seq<T>, k: nat)
    requires k <= |a| + |b|
    ensures (a + b)[..k] == if k <= |a| then a[..k] else a + b[..k - |a|]
  {
  }

  lemma {:induction false} CutFlatten(segments: seq<Segment>, k: nat)
    requires k <= |Flatten(segments)|
    ensures Flatten(CutAt(segments, k)) == Flatten(segments)[..k]
  {
    if segments != [] {
      var n := |segments| - 1;
      var front, last := Flatten(segments[..n]), segments[n];
      TakeConcat(front, Tagged(last.state, last.points), k);
      if k <= |front| {
        CutFlatten(segments[..n], k);
      } else {
        FlattenAppend(segments[..n], Segment(last.state, last.points[..k - |front|]));
        assert Tagged(last.state, last.points[..k - |front|]) == Tagged(last.state, last.points)[..k - |front|];
      }
    }
  }

  lemma {:induction false} CutBegins(segments: seq<Segment>, k: nat)
    requires k <= |Flatten(segments)|
    ensures Begins(CutAt(segments, k), segments)
  {
    if segments != [] {
      var n := |segments| - 1;
      if k <= |Flatten(segments[..n])| {
        CutBegins(segments[..n], k);
        BeginsShorter(CutAt(segments[..n], k), segments, n);
      }
    }
  }

  lemma BeginsShorter(a: seq<Segment>, b: seq<Segment>, n: nat)
    requires n <= |b| && Begins(a, b[..n])
    ensures Begins(a, b)
  {
    if a != [] {
      assert b[..n][..|a| - 1] == b[..|a| - 1];
    }
  }

  lemma {:induction false} CutAlternates(segments: seq<Segment>, k: nat)
    requires k <= |Flatten(segments)| && Alternating(segments)
    ensures Alternating(CutAt(segments, k))
  {
    if segments != [] {
      var n := |segments| - 1;
      var m := |Flatten(segments[..n])|;
      assert Alternating(segments[..n]);
      if k <= m {
        CutAlternates(segments[..n], k);
      } else {
        CloseSegment(segments[..n], Segment(segments[n].state, segments[n].points[..k - m]));
      }
    }
  }

  /** No later candle changes a segment but the last, and that one only grows or is followed by others. */
  lemma {:induction false} SegmentsNoLookahead(candles: seq<Candle>, first: State, k: nat,
                                               a: seq<Segment>, b: seq<Segment>)
    requires k <= |candles|
    requires Segments(Display(candles[..k], first), a) && Segments(Display(candles, first), b)
    ensures Begins(a, b)
  {
    NoLookahead(candles, first, k);
    assert Dots(Display(candles, first)[..k]) == Dots(Display(candles, first))[..k];
    CutFlatten(b, k);
    CutAlternates(b, k);
    CutBegins(b, k);
    SegmentsUnique(a, CutAt(b, k));
  }

  // ---------- The whole model ----------

  method BuildDisplayModel(candles: seq<Candle>) returns (points: seq<Point>, segments: seq<Segment>)
    ensures points == Display(candles, FIRST_TRADE)
    ensures |points| == |candles| && (points != [] ==> points[0].state == Long)
    ensures forall i :: 0 <= i < |points| ==>
              points[i].time == candles[i].time && points[i].close == candles[i].close
    ensures Segments(points, segments)
  {
    points := [];
    if |candles| == 0 {
      segments := [];
      return;
    }
    var closes := Closes(candles);
    var trueRanges := CalculateModifiedTrueRange(candles, ATR_PERIOD);
    var average := SeededEma(trueRanges, ATR_PERIOD);
    var losses := seq(|average|, i requires 0 <= i < |average| => average[i] * ATR_FACTOR);
    assert losses == Losses(candles);
    points := RunStop(candles, closes, losses);
    MarksStep(closes, losses, FIRST_TRADE, 0);
    segments := SegmentAtrTrailingStop(points);
  }

  /** The stop loop: the previous state and trail are all it remembers. */
  method RunStop(candles: seq<Candle>, closes: seq<real>, losses: seq<real>) returns (points: seq<Point>)
    requires |candles| == |closes| == |losses|
    ensures |points| == |candles|
    ensures var marks := Marks(closes, losses, FIRST_TRADE);
            forall i :: 0 <= i < |points| ==>
              points[i] == Point(candles[i].time, marks[i].stop, closes[i], marks[i].state)
  {
    points := [];
    ghost var marks := Marks(closes, losses, FIRST_TRADE);
    var previous: Option<Mark> := None;
    for idx := 0 to |candles|
      invariant |points| == idx
      invariant forall i :: 0 <= i < idx ==>
                  points[i] == Point(candles[i].time, marks[i].stop, closes[i], marks[i].state)
      invariant previous == if idx == 0 then None else Some(marks[idx - 1])
    {
      var close, loss := closes[idx], losses[idx];
      var state: State;
      var trail: real;
      match previous {
        case None =>
          state := FIRST_TRADE;
          trail := if state == Long then close - loss else close + loss;
        case Some(Mark(Long, stop)) =>
          if close > stop {
            state, trail := Long, Max(stop, close - loss);
          } else {
            state, trail := Short, close + loss;
          }
        case Some(Mark(Short, stop)) =>
          if close < stop {
            state, trail := Short, Min(stop, close + loss);
          } else {
            state, trail := Long, close - loss;
          }
      }
      MarksStep(closes, losses, FIRST_TRADE, idx);
      points := points + [Point(candles[idx].time, trail, close, state)];
      previous := Some(Mark(state, trail));
    }
  }

  // ---------- An example ----------

  /** A bar of spread 2 closing at 10, then one of spread 12 closing at its high of 16. */
  function Example(): seq<Candle> {
    [Candle(1, 11.0, 9.0, 10.0), Candle(2, 16.0, 4.0, 16.0)]
  }

  /** The second bar is capped at 1.5 times the average spread of 7, and the stop trails at 5.27. */
  lemma ExampleStops()
    ensures TrueRanges(Example(), ATR_PERIOD) == [2.0, 10.5]
    ensures Losses(Example()) == [5.8, 10.73]
    ensures Display(Example(), FIRST_TRADE) == [Point(1, 4.2, 10.0, Long), Point(2, 5.27, 16.0, Long)]
  {
    var candles := Example();
    ExampleAverage(Ranges(candles));
    ExampleLosses(TrueRanges(candles, ATR_PERIOD));
    MarksStep(Closes(candles), Losses(candles), FIRST_TRADE, 0);
    MarksStep(Closes(candles), Losses(candles), FIRST_TRADE, 1);
  }

  lemma ExampleAverage(ranges: seq<real>)
    requires ranges == [2.0, 12.0]
    ensures WindowMean(ranges, ATR_PERIOD, 1) == 7.0
  {
    assert Window(ranges, ATR_PERIOD, 1) == ranges;
    SumAppend([], 2.0);
    SumAppend([2.0], 12.0);
    assert [] + [2.0] == [2.0] && [2.0] + [12.0] == ranges;
  }

  lemma ExampleLosses(ranges: seq<real>)
    requires ranges == [2.0, 10.5]
    ensures EmaAt(ranges, ATR_PERIOD, 0) * ATR_FACTOR == 5.8
    ensures EmaAt(ranges, ATR_PERIOD, 1) * ATR_FACTOR == 10.73
  {
    assert EmaAt(ranges, ATR_PERIOD, 0) == 2.0;
    EmaStep(ranges, ATR_PERIOD, 1);
  }
}
