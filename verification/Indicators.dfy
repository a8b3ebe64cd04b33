/** EMA, RSI and MACD, recomputed from prefixes and in one pass. */
module Indicators {
  import opened Common

  // ------------------------------------------------------------------
  // Exponential moving average
  // ------------------------------------------------------------------

  function Alpha(period: int): real {
    2.0 / ((if period < 1 then 1 else period) as real + 1.0)
  }

  function Blend(alpha: real, value: real, previous: real): real {
    alpha * value + (1.0 - alpha) * previous
  }

  /** The average after the last value. */
  function Ema(values: seq<real>, alpha: real): real
    requires values != []
  {
    if |values| == 1 then values[0] else Blend(alpha, Last(values), Ema(Front(values), alpha))
  }

  /** The average after each value. */
  function EmaSeries(values: seq<real>, alpha: real): seq<real> {
    seq(|values|, i requires 0 <= i < |values| => Ema(values[..i + 1], alpha))
  }

  method ComputeEmaSeries(values: seq<real>, period: int) returns (result: seq<real>)
    ensures result == EmaSeries(values, Alpha(period))
  {
    var alpha := Alpha(period);
    if values == [] {
      return [];
    }
    result := [values[0]];
    assert values[..1] == [values[0]];
    for i := 1 to |values|
      invariant |result| == i && forall j :: 0 <= j < i ==> result[j] == Ema(values[..j + 1], alpha)
    {
      assert Front(values[..i + 1]) == values[..i];
      result := result + [Blend(alpha, values[i], result[i - 1])];
    }
  }

  lemma EmaSeriesPrefix(values: seq<real>, n: nat, alpha: real)
    requires n <= |values|
    ensures EmaSeries(values[..n], alpha) == EmaSeries(values, alpha)[..n]
  {
    forall i | 0 <= i < n ensures EmaSeries(values[..n], alpha)[i] == EmaSeries(values, alpha)[i] {
      assert values[..n][..i + 1] == values[..i + 1];
    }
  }

  lemma AlphaBounds(period: int)
    ensures 0.0 < Alpha(period) <= 1.0
  {
    var k := (if period < 1 then 1 else period) as real + 1.0;
    QuotientBounds(2.0, k, 1.0);
    QuotientBounds(2.0, k, 0.0);
    assert Alpha(period) * k == 2.0;
  }

  lemma BlendStaysBetween(alpha: real, x: real, y: real, lo: real, hi: real)
    requires 0.0 <= alpha <= 1.0 && lo <= x <= hi && lo <= y <= hi
    ensures lo <= Blend(alpha, x, y) <= hi
  {
    ProductNonNegative(alpha, x - lo);
    ProductNonNegative(1.0 - alpha, y - lo);
    ProductNonNegative(alpha, hi - x);
    ProductNonNegative(1.0 - alpha, hi - y);
    assert Blend(alpha, x, y) - lo == alpha * (x - lo) + (1.0 - alpha) * (y - lo);
    assert hi - Blend(alpha, x, y) == alpha * (hi - x) + (1.0 - alpha) * (hi - y);
  }

  /** The average never leaves the range of its inputs. */
  lemma {:induction false} EmaStaysInRange(values: seq<real>, period: int, lo: real, hi: real)
    requires values != [] && forall i :: 0 <= i < |values| ==> lo <= values[i] <= hi
    ensures lo <= Ema(values, Alpha(period)) <= hi
    decreases |values|
  {
    if |values| > 1 {
      EmaStaysInRange(Front(values), period, lo, hi);
      AlphaBounds(period);
      BlendStaysBetween(Alpha(period), Last(values), Ema(Front(values), Alpha(period)), lo, hi);
    }
  }

  /** The weight of an average is two over one more than the period, which counts as at least 1. */
  lemma AlphaExactly(period: int)
    ensures Alpha(period) * ((if period < 1 then 1 else period) as real + 1.0) == 2.0
  {
  }

  function Power(x: real, n: nat): real {
    if n == 0 then 1.0 else x * Power(x, n - 1)
  }

  /** What a value counts for `back` steps after it came in. */
  function Portion(alpha: real, back: nat, value: real): real {
    alpha * Power(1.0 - alpha, back) * value
  }

  lemma PortionStep(alpha: real, back: nat, value: real)
    ensures Portion(alpha, back + 1, value) == Scaled(1.0 - alpha, Portion(alpha, back, value))
  {
    var q, p := 1.0 - alpha, Power(1.0 - alpha, back);
    assert Power(q, back + 1) == q * p;
    assert alpha * (q * p) * value == q * (alpha * p * value);
  }

  /** What the first value counts for when `later` values have come in since. */
  function FirstPortion(alpha: real, later: nat, value: real): real {
    Power(1.0 - alpha, later) * value
  }

  lemma FirstPortionStep(alpha: real, later: nat, value: real)
    ensures FirstPortion(alpha, later + 1, value) == Scaled(1.0 - alpha, FirstPortion(alpha, later, value))
  {
    var q, p := 1.0 - alpha, Power(1.0 - alpha, later);
    assert Power(q, later + 1) == q * p;
    assert (q * p) * value == q * (p * value);
  }

  function Scaled(q: real, x: real): real {
    q * x
  }

  lemma ScaledSum(q: real, x: real, y: real)
    ensures Scaled(q, x + y) == Scaled(q, x) + Scaled(q, y)
  {
  }

  /** What the first `n` values count for in the average of `total` values. */
  function Weighted(values: seq<real>, alpha: real, n: nat, total: nat): real
    requires n <= |values| && n <= total
  {
    if n == 0 then 0.0
    else if n == 1 then FirstPortion(alpha, total - 1, values[0])
    else Weighted(values, alpha, n - 1, total) + Portion(alpha, total - n, values[n - 1])
  }

  lemma {:induction false} WeightedStep(values: seq<real>, alpha: real, n: nat, total: nat)
    requires n <= |values| && n <= total
    ensures Weighted(values, alpha, n, total + 1) == Scaled(1.0 - alpha, Weighted(values, alpha, n, total))
  {
    if n == 1 {
      FirstPortionStep(alpha, total - 1, values[0]);
    } else if n > 1 {
      WeightedStep(values, alpha, n - 1, total);
      PortionStep(alpha, total - n, values[n - 1]);
      ScaledSum(1.0 - alpha, Weighted(values, alpha, n - 1, total), Portion(alpha, total - n, values[n - 1]));
    }
  }

  lemma {:induction false} WeightedPrefix(values: seq<real>, alpha: real, n: nat, m: nat, total: nat)
    requires n <= m <= |values| && n <= total
    ensures Weighted(values[..m], alpha, n, total) == Weighted(values, alpha, n, total)
  {
    if n > 1 {
      WeightedPrefix(values, alpha, n - 1, m, total);
    }
  }

  /** The average is the exponentially weighted sum of its values. */
  lemma {:induction false} EmaIsWeightedSum(values: seq<real>, alpha: real)
    requires values != []
    ensures Ema(values, alpha) == Weighted(values, alpha, |values|, |values|)
    decreases |values|
  {
    var n := |values|;
    if n > 1 {
      EmaIsWeightedSum(Front(values), alpha);
      WeightedPrefix(values, alpha, n - 1, n - 1, n - 1);
      WeightedStep(values, alpha, n - 1, n - 1);
      assert Power(1.0 - alpha, 0) == 1.0;
      assert alpha * 1.0 * values[n - 1] == alpha * values[n - 1];
    } else {
      assert Power(1.0 - alpha, 0) == 1.0;
    }
  }

  // ------------------------------------------------------------------
  // MACD histogram
  // ------------------------------------------------------------------

  function MacdSeries(closes: seq<real>, fast: int, slow: int): seq<real> {
    var f, s := EmaSeries(closes, Alpha(fast)), EmaSeries(closes, Alpha(slow));
    seq(|closes|, i requires 0 <= i < |closes| => f[i] - s[i])
  }

  /** MACD less its signal line, after each close. */
  function HistogramSeries(closes: seq<real>, fast: int, slow: int, signal: int): seq<real> {
    var m := MacdSeries(closes, fast, slow);
    var s := EmaSeries(m, Alpha(signal));
    seq(|closes|, i requires 0 <= i < |closes| => m[i] - s[i])
  }

  method Macd(closes: seq<real>, fast: int, slow: int, signal: int) returns (hist: Option<real>)
    ensures hist == if closes == [] then None else Some(Last(HistogramSeries(closes, fast, slow, signal)))
  {
    if closes == [] {
      return None;
    }
    var f := ComputeEmaSeries(closes, fast);
    var s := ComputeEmaSeries(closes, slow);
    var m := seq(|closes|, i requires 0 <= i < |closes| && |f| == |s| == |closes| => f[i] - s[i]);
    assert m == MacdSeries(closes, fast, slow);
    var line := ComputeEmaSeries(m, signal);
    hist := Some(Last(m) - Last(line));
  }

  /** The histogram of a prefix is the histogram of the whole series, cut off. */
  lemma HistogramPrefix(closes: seq<real>, n: nat, fast: int, slow: int, signal: int)
    requires n <= |closes|
    ensures HistogramSeries(closes[..n], fast, slow, signal) == HistogramSeries(closes, fast, slow, signal)[..n]
  {
    EmaSeriesPrefix(closes, n, Alpha(fast));
    EmaSeriesPrefix(closes, n, Alpha(slow));
    var m := MacdSeries(closes, fast, slow);
    assert MacdSeries(closes[..n], fast, slow) == m[..n];
    EmaSeriesPrefix(m, n, Alpha(signal));
  }

  lemma AlphaFalls(fast: int, slow: int)
    requires 1 <= fast < slow
    ensures Alpha(fast) > Alpha(slow)
  {
    AlphaExactly(fast);
    AlphaExactly(slow);
    AlphaBounds(slow);
    var a, b, x, y := Alpha(fast), Alpha(slow), fast as real + 1.0, slow as real + 1.0;
    assert b * (y - x) > 0.0;
    assert x * (a - b) == b * (y - x);
    SignOfProduct(x, a - b);
  }

  ghost predicate Rising(closes: seq<real>) {
    forall i, j :: 0 <= i < j < |closes| ==> closes[i] < closes[j]
  }

  /** On a rising series the average lags behind its last value, the more the lower its weight. */
  lemma {:induction false} LagsBehind(closes: seq<real>, fast: int, slow: int)
    requires Rising(closes) && |closes| >= 2 && 1 <= fast < slow
    ensures Ema(closes, Alpha(slow)) < Ema(closes, Alpha(fast)) <= Last(closes)
    decreases |closes|
  {
    var front, v := Front(closes), Last(closes);
    var a, b := Alpha(fast), Alpha(slow);
    AlphaFalls(fast, slow);
    AlphaBounds(fast);
    AlphaBounds(slow);
    if |closes| > 2 {
      LagsBehind(front, fast, slow);
    }
    var x, y := Ema(front, a), Ema(front, b);
    assert y <= x <= Last(front) < v;
    BlendsCompare(a, b, v, x, y);
    BlendStaysBetween(a, v, x, x, v);
  }

  lemma BlendFollowsPrevious(b: real, v: real, x: real, y: real)
    requires b <= 1.0 && y <= x
    ensures Blend(b, v, y) <= Blend(b, v, x)
  {
    ProductNonNegative(1.0 - b, x - y);
    assert (1.0 - b) * (x - y) == (1.0 - b) * x - (1.0 - b) * y;
  }

  lemma BlendFollowsWeight(a: real, b: real, v: real, x: real)
    requires b < a && x < v
    ensures Blend(b, v, x) < Blend(a, v, x)
  {
    assert (a - b) * (v - x) > 0.0;
    assert Blend(a, v, x) == x + a * (v - x) && Blend(b, v, x) == x + b * (v - x);
    assert (a - b) * (v - x) == a * (v - x) - b * (v - x);
  }

  lemma BlendsCompare(a: real, b: real, v: real, x: real, y: real)
    requires 0.0 < b < a <= 1.0 && y <= x < v
    ensures Blend(b, v, y) < Blend(a, v, x)
  {
    BlendFollowsPrevious(b, v, x, y);
    BlendFollowsWeight(a, b, v, x);
  }

  /** On a rising series MACD is positive from the second close on. */
  lemma MacdIsPositiveOnRise(closes: seq<real>, fast: int, slow: int, i: nat)
    requires Rising(closes) && 1 <= fast < slow && 1 <= i < |closes|
    ensures MacdSeries(closes, fast, slow)[i] > 0.0
  {
    LagsBehind(closes[..i + 1], fast, slow);
  }

  /** The histogram is positive exactly when MACD is above the signal line of the close before. */
  lemma HistogramSign(closes: seq<real>, fast: int, slow: int, signal: int, i: nat)
    requires 1 <= i < |closes| && signal >= 2
    ensures
      var m := MacdSeries(closes, fast, slow);
      HistogramSeries(closes, fast, slow, signal)[i] > 0.0 <==> m[i] > EmaSeries(m, Alpha(signal))[i - 1]
  {
    var m := MacdSeries(closes, fast, slow);
    var a := Alpha(signal);
    AlphaFalls(1, signal);
    AlphaExactly(1);
    assert a < 1.0;
    assert Front(m[..i + 1]) == m[..i];
    var before := EmaSeries(m, a)[i - 1];
    assert EmaSeries(m, a)[i] == Blend(a, m[i], before);
    assert m[i] - Blend(a, m[i], before) == (1.0 - a) * (m[i] - before);
    SignOfProduct(1.0 - a, m[i] - before);
  }

  // ------------------------------------------------------------------
  // Relative strength index
  // ------------------------------------------------------------------

  const FLAT_LOSS := 0.000000000001

  datatype Strength = Strength(gain: real, loss: real)

  function Delta(closes: seq<real>, i: nat): real
    requires 0 < i < |closes|
  {
    closes[i] - closes[i - 1]
  }

  function GainSum(closes: seq<real>, n: nat): real
    requires n < |closes| || n == 0
  {
    if n == 0 then 0.0 else GainSum(closes, n - 1) + MaxReal(Delta(closes, n), 0.0)
  }

  function LossSum(closes: seq<real>, n: nat): real
    requires n < |closes| || n == 0
  {
    if n == 0 then 0.0 else LossSum(closes, n - 1) + MaxReal(-Delta(closes, n), 0.0)
  }

  function Smooth(average: real, period: nat, value: real): real
    requires period > 0
  {
    (average * (period - 1) as real + value) / period as real
  }

  lemma {:induction false} SumsNonNegative(closes: seq<real>, n: nat)
    requires n < |closes| || n == 0
    ensures GainSum(closes, n) >= 0.0 && LossSum(closes, n) >= 0.0
  {
    if n > 0 {
      SumsNonNegative(closes, n - 1);
    }
  }

  lemma SmoothNonNegative(average: real, period: nat, value: real)
    requires period > 0 && average >= 0.0 && value >= 0.0
    ensures Smooth(average, period, value) >= 0.0
  {
    ProductNonNegative(average, (period - 1) as real);
    QuotientBounds(average * (period - 1) as real + value, period as real, 0.0);
  }

  /** Smoothed gain and loss after the first `n` price changes, for `n` of at least one period. */
  function StrengthAfter(closes: seq<real>, period: nat, n: nat): (s: Strength)
    requires 0 < period <= n < |closes|
    ensures s.gain >= 0.0 && s.loss >= 0.0
  {
    if n == period then
      SumsNonNegative(closes, n);
      QuotientBounds(GainSum(closes, n), period as real, 0.0);
      QuotientBounds(LossSum(closes, n), period as real, 0.0);
      Strength(GainSum(closes, n) / period as real, LossSum(closes, n) / period as real)
    else
      var before := StrengthAfter(closes, period, n - 1);
      var d := Delta(closes, n);
      SmoothNonNegative(before.gain, period, MaxReal(d, 0.0));
      SmoothNonNegative(before.loss, period, MaxReal(-d, 0.0));
      Strength(Smooth(before.gain, period, MaxReal(d, 0.0)), Smooth(before.loss, period, MaxReal(-d, 0.0)))
  }

  /** The index of a smoothed gain and loss; it stays between 0 and 100. */
  function RsiOf(s: Strength): (r: real)
    requires s.gain >= 0.0 && s.loss >= 0.0
    ensures 0.0 <= r <= 100.0
  {
    if AbsReal(s.loss) <= FLAT_LOSS then (if s.gain > 0.0 then 100.0 else 50.0)
    else
      QuotientBounds(s.gain, s.loss, 0.0);
      var k := 1.0 + s.gain / s.loss;
      QuotientBounds(100.0, k, 100.0);
      QuotientBounds(100.0, k, 0.0);
      100.0 - 100.0 / k
  }

  function SafePeriod(period: int, changes: nat): (p: nat)
    requires changes > 0
    ensures 1 <= p <= changes && (1 <= period <= changes ==> p == period)
    ensures (period < 1 ==> p == 1) && (period > changes ==> p == changes)
  {
    if period < 1 then 1 else if period < changes then period else changes
  }

  function RsiSpec(closes: seq<real>, period: int): (r: Option<real>)
    ensures r.Some? ==> 0.0 <= r.value <= 100.0
  {
    if |closes| < 2 then None
    else Some(RsiOf(StrengthAfter(closes, SafePeriod(period, |closes| - 1), |closes| - 1)))
  }

  method Rsi(closes: seq<real>, period: int) returns (r: Option<real>)
    ensures r == RsiSpec(closes, period)
  {
    if |closes| < 2 {
      return None;
    }
    var p := SafePeriod(period, |closes| - 1);
    var gain, loss := 0.0, 0.0;
    for i := 1 to p + 1
      invariant gain == GainSum(closes, i - 1) && loss == LossSum(closes, i - 1)
    {
      gain := gain + MaxReal(Delta(closes, i), 0.0);
      loss := loss + MaxReal(-Delta(closes, i), 0.0);
    }
    var s := Strength(gain / p as real, loss / p as real);
    for i := p + 1 to |closes|
      invariant s == StrengthAfter(closes, p, i - 1)
    {
      var d := Delta(closes, i);
      s := Strength(Smooth(s.gain, p, MaxReal(d, 0.0)), Smooth(s.loss, p, MaxReal(-d, 0.0)));
    }
    r := Some(RsiOf(s));
  }

  lemma {:induction false} SumsPrefix(closes: seq<real>, n: nat, k: nat)
    requires k < n <= |closes|
    ensures GainSum(closes[..n], k) == GainSum(closes, k) && LossSum(closes[..n], k) == LossSum(closes, k)
  {
    if k > 0 {
      SumsPrefix(closes, n, k - 1);
    }
  }

  lemma {:induction false} StrengthPrefix(closes: seq<real>, n: nat, period: nat, k: nat)
    requires 0 < period <= k < n <= |closes|
    ensures StrengthAfter(closes[..n], period, k) == StrengthAfter(closes, period, k)
  {
    if k == period {
      SumsPrefix(closes, n, k);
    } else {
      StrengthPrefix(closes, n, period, k - 1);
    }
  }

  /** Indicators do not look ahead: recomputed from the bars up to `k`, RSI and MACD histogram are
      what one pass over all the bars has at `k`, once `k` covers the period. */
  lemma {:induction false} IndicatorsArePrefixStable(
      closes: seq<real>, k: nat, period: nat, fast: int, slow: int, signal: int)
    requires 0 < period <= k < |closes|
    ensures RsiSpec(closes[..k + 1], period) == Some(RsiOf(StrengthAfter(closes, period, k)))
    ensures Last(HistogramSeries(closes[..k + 1], fast, slow, signal)) == HistogramSeries(closes, fast, slow, signal)[k]
  {
    StrengthPrefix(closes, k + 1, period, k);
    HistogramPrefix(closes, k + 1, fast, slow, signal);
  }

  // ------------------------------------------------------------------
  // What the index says
  // ------------------------------------------------------------------

  /** With a loss above the tolerance the index is the share of the gain in percent; with a flat loss it is
      100 when there is a gain and 50 when there is none. */
  lemma RsiExactly(s: Strength)
    requires s.gain >= 0.0 && s.loss >= 0.0
    ensures s.loss > 0.000000000001 ==> RsiOf(s) * (s.gain + s.loss) == 100.0 * s.gain
    ensures s.loss <= 0.000000000001 ==> RsiOf(s) == if s.gain > 0.0 then 100.0 else 50.0
  {
    if s.loss > 0.000000000001 {
      var k := 1.0 + s.gain / s.loss;
      assert (s.gain / s.loss) * s.loss == s.gain;
      assert k * s.loss == s.gain + s.loss;
      QuotientBounds(s.gain, s.loss, 0.0);
      assert (100.0 / k) * k == 100.0;
      assert (100.0 / k) * (s.gain + s.loss) == ((100.0 / k) * k) * s.loss;
      assert RsiOf(s) * (s.gain + s.loss) == 100.0 * (s.gain + s.loss) - (100.0 / k) * (s.gain + s.loss);
    }
  }

  /** It is above 50 exactly when the gain exceeds the loss. */
  lemma RsiAboveMiddle(s: Strength)
    requires s.gain >= 0.0 && s.loss > 0.000000000001
    ensures RsiOf(s) > 50.0 <==> s.gain > s.loss
  {
    RsiExactly(s);
    var sum := s.gain + s.loss;
    SignOfProduct(sum, RsiOf(s) - 50.0);
    assert sum * (RsiOf(s) - 50.0) == 50.0 * (s.gain - s.loss);
  }

  /** It rises with the ratio of gain to loss, so with the gain, and falls with the loss. */
  lemma RsiCompares(s: Strength, t: Strength)
    requires s.gain >= 0.0 && s.loss > 0.000000000001 && t.gain >= 0.0 && t.loss > 0.000000000001
    ensures RsiOf(s) < RsiOf(t) <==> s.gain * t.loss < t.gain * s.loss
  {
    RsiExactly(s);
    RsiExactly(t);
    var a, b := s.gain + s.loss, t.gain + t.loss;
    var x, y := RsiOf(s), RsiOf(t);
    assert a * b > 0.0;
    SignOfProduct(a * b, y - x);
    CrossMultiplied(x, y, a, b, s, t);
  }

  lemma CrossMultiplied(x: real, y: real, a: real, b: real, s: Strength, t: Strength)
    requires x * a == 100.0 * s.gain && y * b == 100.0 * t.gain && a == s.gain + s.loss && b == t.gain + t.loss
    ensures (a * b) * (y - x) == 100.0 * (t.gain * s.loss - s.gain * t.loss)
  {
    assert (a * b) * y == a * (y * b) && (a * b) * x == b * (x * a);
    assert a * t.gain - b * s.gain == t.gain * s.loss - s.gain * t.loss;
    assert a * (100.0 * t.gain) == 100.0 * (a * t.gain) && b * (100.0 * s.gain) == 100.0 * (b * s.gain);
  }

  predicate Rose(closes: seq<real>, i: nat) {
    0 < i < |closes| && closes[i] > closes[i - 1]
  }

  /** Some change up to the `n`-th is a rise. */
  ghost predicate RoseBy(closes: seq<real>, n: nat) {
    exists i: nat :: i <= n && Rose(closes, i)
  }

  ghost predicate NeverFalls(closes: seq<real>) {
    forall i :: 0 < i < |closes| ==> closes[i] >= closes[i - 1]
  }

  ghost predicate NeverRises(closes: seq<real>) {
    forall i :: 0 < i < |closes| ==> closes[i] <= closes[i - 1]
  }

  lemma SmoothExactly(average: real, period: nat, value: real)
    requires period > 0
    ensures Smooth(average, period, value) * period as real == average * (period - 1) as real + value
  {
  }

  lemma SmoothSign(average: real, period: nat, value: real)
    requires period > 0 && average >= 0.0 && value >= 0.0
    ensures Smooth(average, period, value) > 0.0 <==> value > 0.0 || (average > 0.0 && period > 1)
  {
    var sum := average * (period - 1) as real + value;
    QuotientBounds(sum, period as real, 0.0);
    if period > 1 {
      SignOfProduct((period - 1) as real, average);
      assert average * (period - 1) as real == (period - 1) as real * average;
    }
  }

  lemma {:induction false} SumSigns(closes: seq<real>, n: nat)
    requires n < |closes| || n == 0
    ensures NeverFalls(closes) ==> LossSum(closes, n) == 0.0
    ensures NeverRises(closes) ==> GainSum(closes, n) == 0.0
    ensures GainSum(closes, n) > 0.0 <==> RoseBy(closes, n)
  {
    if n > 0 {
      SumSigns(closes, n - 1);
      SumsNonNegative(closes, n - 1);
      assert Rose(closes, n) <==> Delta(closes, n) > 0.0;
      assert RoseBy(closes, n) <==> RoseBy(closes, n - 1) || Rose(closes, n);
    }
  }

  /** A gain is left exactly when the last change is one or, with a period of at least 2, some change was;
      none without a rise, and no loss without a fall. */
  lemma {:induction false} StrengthSigns(closes: seq<real>, period: nat, n: nat)
    requires 0 < period <= n < |closes|
    ensures NeverFalls(closes) ==> StrengthAfter(closes, period, n).loss == 0.0
    ensures NeverRises(closes) ==> StrengthAfter(closes, period, n).gain == 0.0
    ensures StrengthAfter(closes, period, n).gain > 0.0
       <==> Rose(closes, n) || (period > 1 && RoseBy(closes, n))
  {
    if n == period {
      SumSigns(closes, n);
      QuotientBounds(GainSum(closes, n), period as real, 0.0);
      if period == 1 {
        assert !Rose(closes, 0);
        assert RoseBy(closes, 1) <==> Rose(closes, 1);
      }
    } else {
      var before, d := StrengthAfter(closes, period, n - 1), Delta(closes, n);
      StrengthSigns(closes, period, n - 1);
      SmoothSign(before.gain, period, MaxReal(d, 0.0));
      SmoothExactly(before.loss, period, MaxReal(-d, 0.0));
      assert RoseBy(closes, n) <==> RoseBy(closes, n - 1) || Rose(closes, n);
    }
  }

  /** A series that never falls reads 100 when a gain is left, else 50; one that never rises and has a
      loss above the tolerance reads 0. */
  lemma RsiOfMonotone(closes: seq<real>, period: int)
    requires |closes| >= 2
    ensures
      var n := |closes| - 1;
      var p := SafePeriod(period, n);
      && (NeverFalls(closes) ==>
            RsiSpec(closes, period)
              == Some(if Rose(closes, n) || (p > 1 && RoseBy(closes, n)) then 100.0 else 50.0))
      && (NeverRises(closes) && StrengthAfter(closes, p, n).loss > 0.000000000001 ==>
            RsiSpec(closes, period) == Some(0.0))
  {
    var n := |closes| - 1;
    var p := SafePeriod(period, n);
    var s := StrengthAfter(closes, p, n);
    StrengthSigns(closes, p, n);
    RsiExactly(s);
    if NeverRises(closes) && s.loss > 0.000000000001 {
      SignOfProduct(s.gain + s.loss, RsiOf(s));
      assert (s.gain + s.loss) * RsiOf(s) == 0.0;
    }
  }

  lemma {:induction false} SumsTelescope(closes: seq<real>, n: nat)
    requires n < |closes|
    ensures GainSum(closes, n) - LossSum(closes, n) == closes[n] - closes[0]
  {
    if n > 0 {
      SumsTelescope(closes, n - 1);
    }
  }

  function Times(x: real, n: nat): real {
    x * n as real
  }

  lemma WholeMean(sum: real, n: nat)
    requires n > 0
    ensures Times(sum / n as real, n) == sum
  {
  }

  lemma SmoothTimes(average: real, period: nat, value: real)
    requires period > 0
    ensures Times(Smooth(average, period, value), period) == Times(average, period - 1) + value
  {
  }

  /** Over the first period gain less loss adds up to the change of the price; each later change enters
      the smoothed sums with a weight of one, while what was there loses one part in the period. */
  lemma StrengthFollowsPrice(closes: seq<real>, period: nat, n: nat)
    requires 0 < period <= n < |closes|
    ensures
      var s := StrengthAfter(closes, period, n);
      if n == period then Times(s.gain, period) - Times(s.loss, period) == closes[n] - closes[0]
      else
        var before := StrengthAfter(closes, period, n - 1);
        Times(s.gain, period) - Times(s.loss, period)
          == Times(before.gain, period - 1) - Times(before.loss, period - 1) + closes[n] - closes[n - 1]
  {
    if n == period {
      SumsTelescope(closes, n);
      WholeMean(GainSum(closes, n), period);
      WholeMean(LossSum(closes, n), period);
    } else {
      var before, d := StrengthAfter(closes, period, n - 1), Delta(closes, n);
      SmoothTimes(before.gain, period, MaxReal(d, 0.0));
      SmoothTimes(before.loss, period, MaxReal(-d, 0.0));
    }
  }

  lemma TimesCompare(x: real, y: real, n: nat)
    requires n > 0
    ensures x > y <==> Times(x, n) - Times(y, n) > 0.0
  {
    SignOfProduct(n as real, x - y);
    assert n as real * (x - y) == x * n as real - y * n as real;
  }

  /** So after exactly one period the index is above 50 exactly when the price is above where it began. */
  lemma RsiAboveMiddleOnRise(closes: seq<real>, period: nat)
    requires 0 < period < |closes| && StrengthAfter(closes, period, period).loss > 0.000000000001
    ensures RsiOf(StrengthAfter(closes, period, period)) > 50.0 <==> closes[period] > closes[0]
  {
    var s := StrengthAfter(closes, period, period);
    StrengthFollowsPrice(closes, period, period);
    RsiAboveMiddle(s);
    TimesCompare(s.gain, s.loss, period);
  }
}
