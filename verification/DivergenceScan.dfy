/** The divergence scan: price against RSI and MACD histogram over the bars before the last. */
module DivergenceScan {
  import opened Common
  import opened Indicators

  datatype Bar = Bar(high: real, low: real, close: real)

  const LOOKBACK := 14
  const MIN_BARS := 30
  const MIN_MOVE := 0.002
  const MIN_RSI_DELTA := 2.0
  const MIN_HIST_DELTA := 0.0
  const TINY := 0.000000001
  const SIX_PLACES := 1000000.0
  const RSI_PERIOD := 14
  const FAST := 12
  const SLOW := 26
  const SIGNAL := 9

  datatype Direction = Bullish | Bearish

  datatype Oscillator = RsiLine | MacdHistogram

  datatype Bias = BullishBias | BearishBias | NeutralBias

  /** One flag and its strength so far; a strength of 0 goes with no flag. */
  datatype Signal = Signal(up: bool, strength: real)

  const NO_SIGNAL := Signal(false, 0.0)

  datatype Report = Report(
    rsiBull: Signal, rsiBear: Signal, macdBull: Signal, macdBear: Signal, count: nat, score: real, bias: Bias)

  function Closes(bars: seq<Bar>): seq<real> {
    seq(|bars|, i requires 0 <= i < |bars| => bars[i].close)
  }

  /** RSI and MACD histogram at one bar. */
  datatype Reading = Reading(rsi: real, hist: real)

  /** The reading at bar `i` of one pass over all bars. */
  function ReadingAt(bars: seq<Bar>, i: nat): Reading
    requires RSI_PERIOD <= i < |bars|
  {
    Reading(RsiOf(StrengthAfter(Closes(bars), RSI_PERIOD, i)), HistogramSeries(Closes(bars), FAST, SLOW, SIGNAL)[i])
  }

  function Move(a: real, b: real, close: real): real {
    AbsReal(a - b) / MaxReal(AbsReal(close), TINY)
  }

  /** The last bar makes a meaningful new extreme against the reference bar. */
  predicate NewExtreme(last: Bar, ref: Bar, d: Direction) {
    if d.Bullish? then last.low < ref.low && Move(ref.low, last.low, ref.close) >= MIN_MOVE
    else last.high > ref.high && Move(last.high, ref.high, ref.close) >= MIN_MOVE
  }

  /** How far the oscillator refused to follow. */
  function Refusal(now: Reading, past: Reading, o: Oscillator, d: Direction): real {
    var rise := if o.RsiLine? then now.rsi - past.rsi else now.hist - past.hist;
    if d.Bullish? then rise else -rise
  }

  predicate Diverges(last: Bar, ref: Bar, now: Reading, past: Reading, o: Oscillator, d: Direction) {
    && NewExtreme(last, ref, d)
    && if o.RsiLine? then Refusal(now, past, o, d) >= MIN_RSI_DELTA else Refusal(now, past, o, d) > MIN_HIST_DELTA
  }

  function StrengthOf(now: Reading, past: Reading, o: Oscillator, d: Direction): real {
    if o.RsiLine? then Refusal(now, past, o, d) / 100.0
    else MinReal(AbsReal(now.hist - past.hist) / MaxReal(MaxReal(AbsReal(past.hist), AbsReal(now.hist)), TINY), 1.0)
  }

  /** A signal after one more reference bar. */
  function Observe(s: Signal, last: Bar, ref: Bar, now: Reading, past: Reading, o: Oscillator, d: Direction): Signal {
    if Diverges(last, ref, now, past, o, d) then Signal(true, MaxReal(s.strength, StrengthOf(now, past, o, d))) else s
  }

  /** A signal over the reference bars from the start of the window up to `end`, with every reading
      taken from one pass over all bars. */
  function SignalTo(bars: seq<Bar>, end: nat, o: Oscillator, d: Direction): Signal
    requires |bars| >= MIN_BARS && |bars| - 1 - LOOKBACK <= end < |bars|
    decreases end
  {
    if end == |bars| - 1 - LOOKBACK then NO_SIGNAL
    else Observe(SignalTo(bars, end - 1, o, d), Last(bars), bars[end - 1],
                 ReadingAt(bars, |bars| - 1), ReadingAt(bars, end - 1), o, d)
  }

  function Ones(s: Signal): nat {
    if s.up then 1 else 0
  }

  /** Flags, their count, the stronger side rounded to six places, and the bias of the unrounded sides. */
  function Conclude(rb: Signal, rs: Signal, mb: Signal, ms: Signal): Report {
    var count := Ones(rb) + Ones(rs) + Ones(mb) + Ones(ms);
    var bull, bear := (rb.strength + mb.strength) / 2.0, (rs.strength + ms.strength) / 2.0;
    Report(rb, rs, mb, ms, count, RoundTo(MaxReal(bull, bear), SIX_PLACES),
           if bull > bear && count > 0 then BullishBias
           else if bear > bull && count > 0 then BearishBias
           else NeutralBias)
  }

  function ReportOf(bars: seq<Bar>): Report {
    if |bars| < MIN_BARS then Conclude(NO_SIGNAL, NO_SIGNAL, NO_SIGNAL, NO_SIGNAL) else
    var end := |bars| - 1;
    Conclude(SignalTo(bars, end, RsiLine, Bullish), SignalTo(bars, end, RsiLine, Bearish),
             SignalTo(bars, end, MacdHistogram, Bullish), SignalTo(bars, end, MacdHistogram, Bearish))
  }

  method ReadPrefix(bars: seq<Bar>, i: nat) returns (r: Reading)
    requires RSI_PERIOD <= i < |bars|
    ensures r == ReadingAt(bars, i)
  {
    var closes := Closes(bars);
    var rsi := Rsi(closes[..i + 1], RSI_PERIOD);
    var hist := Macd(closes[..i + 1], FAST, SLOW, SIGNAL);
    IndicatorsArePrefixStable(closes, i, RSI_PERIOD, FAST, SLOW, SIGNAL);
    r := Reading(rsi.value, hist.value);
  }

  /** The reading takes RSI over 14 changes and the 12, 26, 9 histogram of the closes up to its bar, as they
      come out of the closes alone. */
  lemma ReadingExactly(bars: seq<Bar>, closes: seq<real>, i: nat)
    requires 14 <= i < |bars| == |closes| && forall k :: 0 <= k < |bars| ==> closes[k] == bars[k].close
    ensures Some(ReadingAt(bars, i).rsi) == RsiSpec(closes[..i + 1], 14)
    ensures ReadingAt(bars, i).hist == Last(HistogramSeries(closes[..i + 1], 12, 26, 9))
  {
    assert Closes(bars) == closes;
    IndicatorsArePrefixStable(closes, i, 14, 12, 26, 9);
  }

  lemma SignalAdvances(bars: seq<Bar>, i: nat, o: Oscillator, d: Direction)
    requires |bars| >= MIN_BARS && |bars| - 1 - LOOKBACK <= i < |bars| - 1
    ensures SignalTo(bars, i + 1, o, d)
         == Observe(SignalTo(bars, i, o, d), bars[|bars| - 1], bars[i],
                    ReadingAt(bars, |bars| - 1), ReadingAt(bars, i), o, d)
  {
  }

  /** One signal per oscillator and direction, over the reference bars of the window. */
  method ScanWindow(bars: seq<Bar>) returns (rb: Signal, rs: Signal, mb: Signal, ms: Signal)
    requires |bars| >= MIN_BARS
    ensures rb == SignalTo(bars, |bars| - 1, RsiLine, Bullish) && rs == SignalTo(bars, |bars| - 1, RsiLine, Bearish)
    ensures mb == SignalTo(bars, |bars| - 1, MacdHistogram, Bullish)
    ensures ms == SignalTo(bars, |bars| - 1, MacdHistogram, Bearish)
  {
    rb, rs, mb, ms := NO_SIGNAL, NO_SIGNAL, NO_SIGNAL, NO_SIGNAL;
    var last := |bars| - 1;
    var now := ReadPrefix(bars, last);
    for i := last - LOOKBACK to last
      invariant rb == SignalTo(bars, i, RsiLine, Bullish) && rs == SignalTo(bars, i, RsiLine, Bearish)
      invariant mb == SignalTo(bars, i, MacdHistogram, Bullish) && ms == SignalTo(bars, i, MacdHistogram, Bearish)
    {
      var past := ReadPrefix(bars, i);
      SignalAdvances(bars, i, RsiLine, Bullish);
      SignalAdvances(bars, i, RsiLine, Bearish);
      SignalAdvances(bars, i, MacdHistogram, Bullish);
      SignalAdvances(bars, i, MacdHistogram, Bearish);
      rb := Observe(rb, bars[last], bars[i], now, past, RsiLine, Bullish);
      rs := Observe(rs, bars[last], bars[i], now, past, RsiLine, Bearish);
      mb := Observe(mb, bars[last], bars[i], now, past, MacdHistogram, Bullish);
      ms := Observe(ms, bars[last], bars[i], now, past, MacdHistogram, Bearish);
    }
  }

  /** The scan recomputes both indicators from the prefix of every reference bar; the result is that
      of a single pass, so no reading of a reference bar saw a later bar. */
  method ComputeDivergence(bars: seq<Bar>) returns (report: Report)
    ensures report == ReportOf(bars)
  {
    var rb, rs, mb, ms := NO_SIGNAL, NO_SIGNAL, NO_SIGNAL, NO_SIGNAL;
    if |bars| >= MIN_BARS {
      rb, rs, mb, ms := ScanWindow(bars);
    }
    report := Conclude(rb, rs, mb, ms);
  }

  // ------------------------------------------------------------------
  // What the flags and the bias mean
  // ------------------------------------------------------------------

  predicate DivergesAt(bars: seq<Bar>, i: nat, o: Oscillator, d: Direction)
    requires RSI_PERIOD <= i < |bars|
  {
    Diverges(Last(bars), bars[i], ReadingAt(bars, |bars| - 1), ReadingAt(bars, i), o, d)
  }

  lemma StrengthOfDivergence(last: Bar, ref: Bar, now: Reading, past: Reading, o: Oscillator, d: Direction)
    requires Diverges(last, ref, now, past, o, d) && 0.0 <= now.rsi <= 100.0 && 0.0 <= past.rsi <= 100.0
    ensures 0.0 < StrengthOf(now, past, o, d) <= 1.0
    ensures o.RsiLine? ==> StrengthOf(now, past, o, d) >= 0.02
  {
    if o.MacdHistogram? {
      var scale := MaxReal(MaxReal(AbsReal(past.hist), AbsReal(now.hist)), TINY);
      QuotientBounds(AbsReal(now.hist - past.hist), scale, 0.0);
      var q := AbsReal(now.hist - past.hist) / scale;
      assert q * scale == AbsReal(now.hist - past.hist);
    }
  }

  /** A bullish divergence: the last low is below the reference low by at least two thousandths of the
      reference close, and RSI is at least 2 points higher, or the histogram higher. A bearish one: the last
      high is above by as much, and RSI at least 2 points lower, or the histogram lower. */
  lemma DivergesExactly(last: Bar, ref: Bar, now: Reading, past: Reading)
    ensures
      var scale := MaxReal(AbsReal(ref.close), 0.000000001);
      var low := last.low < ref.low && ref.low - last.low >= 0.002 * scale;
      var high := last.high > ref.high && last.high - ref.high >= 0.002 * scale;
      && (Diverges(last, ref, now, past, RsiLine, Bullish) <==> low && now.rsi - past.rsi >= 2.0)
      && (Diverges(last, ref, now, past, RsiLine, Bearish) <==> high && past.rsi - now.rsi >= 2.0)
      && (Diverges(last, ref, now, past, MacdHistogram, Bullish) <==> low && now.hist > past.hist)
      && (Diverges(last, ref, now, past, MacdHistogram, Bearish) <==> high && now.hist < past.hist)
  {
    var scale := MaxReal(AbsReal(ref.close), 0.000000001);
    QuotientBounds(AbsReal(ref.low - last.low), scale, 0.002);
    QuotientBounds(AbsReal(last.high - ref.high), scale, 0.002);
  }

  /** Its strength: the RSI points in percent, or the histogram's change against the larger of the two. */
  lemma StrengthExactly(now: Reading, past: Reading, d: Direction)
    ensures
      var rise := if d.Bullish? then now.rsi - past.rsi else past.rsi - now.rsi;
      var change := AbsReal(now.hist - past.hist);
      var scale := MaxReal(MaxReal(AbsReal(past.hist), AbsReal(now.hist)), 0.000000001);
      var s := StrengthOf(now, past, MacdHistogram, d);
      && StrengthOf(now, past, RsiLine, d) * 100.0 == rise
      && (if change >= scale then s == 1.0 else s * scale == change)
  {
    var scale := MaxReal(MaxReal(AbsReal(past.hist), AbsReal(now.hist)), 0.000000001);
    QuotientBounds(AbsReal(now.hist - past.hist), scale, 1.0);
    var change := AbsReal(now.hist - past.hist);
    assert (change / scale) * scale == change;
  }

  /** The strength lies in [0, 1] and is positive exactly when the flag is up, for RSI at least 0.02 then. */
  predicate Sound(s: Signal, o: Oscillator) {
    0.0 <= s.strength <= 1.0 && (s.strength > 0.0 <==> s.up) && (o.RsiLine? && s.up ==> s.strength >= 0.02)
  }

  lemma ObserveIsSound(s: Signal, last: Bar, ref: Bar, now: Reading, past: Reading, o: Oscillator, d: Direction)
    requires Sound(s, o) && 0.0 <= now.rsi <= 100.0 && 0.0 <= past.rsi <= 100.0
    ensures Sound(Observe(s, last, ref, now, past, o, d), o)
  {
    if Diverges(last, ref, now, past, o, d) {
      StrengthOfDivergence(last, ref, now, past, o, d);
    }
  }

  /** Some reference bar of the window before `end` diverges. */
  ghost predicate DivergesBefore(bars: seq<Bar>, end: nat, o: Oscillator, d: Direction)
    requires |bars| >= MIN_BARS && end <= |bars|
  {
    exists i :: |bars| - 1 - LOOKBACK <= i < end && DivergesAt(bars, i, o, d)
  }

  lemma DivergesStep(bars: seq<Bar>, i: nat, o: Oscillator, d: Direction)
    requires |bars| >= MIN_BARS && |bars| - 1 - LOOKBACK <= i < |bars|
    ensures DivergesBefore(bars, i + 1, o, d) <==> DivergesBefore(bars, i, o, d) || DivergesAt(bars, i, o, d)
  {
  }

  /** The signal over the reference bars before `end` is sound and up exactly when one of them diverges. */
  ghost predicate Exact(bars: seq<Bar>, end: nat, o: Oscillator, d: Direction)
    requires |bars| >= MIN_BARS && |bars| - 1 - LOOKBACK <= end < |bars|
  {
    && Sound(SignalTo(bars, end, o, d), o)
    && (SignalTo(bars, end, o, d).up <==> DivergesBefore(bars, end, o, d))
  }

  lemma SignalStep(bars: seq<Bar>, i: nat, o: Oscillator, d: Direction)
    requires |bars| >= MIN_BARS && |bars| - 1 - LOOKBACK <= i < |bars| - 1 && Exact(bars, i, o, d)
    ensures Exact(bars, i + 1, o, d)
  {
    DivergesStep(bars, i, o, d);
    ObserveIsSound(SignalTo(bars, i, o, d), Last(bars), bars[i],
                   ReadingAt(bars, |bars| - 1), ReadingAt(bars, i), o, d);
  }

  lemma {:induction false} SignalsAreExact(bars: seq<Bar>, end: nat, o: Oscillator, d: Direction)
    requires |bars| >= MIN_BARS && |bars| - 1 - LOOKBACK <= end < |bars|
    ensures Exact(bars, end, o, d)
    decreases end
  {
    if end > |bars| - 1 - LOOKBACK {
      SignalsAreExact(bars, end - 1, o, d);
      SignalStep(bars, end - 1, o, d);
    }
  }

  /** A flag is up exactly when some reference bar of the window diverges that way, and its strength is
      positive exactly then and never above 1. */
  lemma FlagsAreExact(bars: seq<Bar>, end: nat, o: Oscillator, d: Direction)
    requires |bars| >= MIN_BARS && |bars| - 1 - LOOKBACK <= end < |bars|
    ensures SignalTo(bars, end, o, d).up <==> DivergesBefore(bars, end, o, d)
    ensures Sound(SignalTo(bars, end, o, d), o)
  {
    SignalsAreExact(bars, end, o, d);
  }

  lemma SignalIsSound(bars: seq<Bar>, end: nat, o: Oscillator, d: Direction)
    requires |bars| >= MIN_BARS && |bars| - 1 - LOOKBACK <= end < |bars|
    ensures Sound(SignalTo(bars, end, o, d), o)
  {
    FlagsAreExact(bars, end, o, d);
  }

  function StrengthAt(bars: seq<Bar>, i: nat, o: Oscillator, d: Direction): real
    requires RSI_PERIOD <= i < |bars|
  {
    StrengthOf(ReadingAt(bars, |bars| - 1), ReadingAt(bars, i), o, d)
  }

  lemma SignalGrows(bars: seq<Bar>, i: nat, o: Oscillator, d: Direction)
    requires |bars| >= MIN_BARS && |bars| - 1 - LOOKBACK <= i < |bars| - 1
    ensures SignalTo(bars, i, o, d).strength <= SignalTo(bars, i + 1, o, d).strength
    ensures DivergesAt(bars, i, o, d) ==> StrengthAt(bars, i, o, d) <= SignalTo(bars, i + 1, o, d).strength
  {
    SignalAdvances(bars, i, o, d);
  }

  /** No divergence of the window is stronger than its signal. */
  lemma {:induction false} StrengthBounds(bars: seq<Bar>, i: nat, end: nat, o: Oscillator, d: Direction)
    requires |bars| >= MIN_BARS && |bars| - 1 - LOOKBACK <= i < end < |bars| && DivergesAt(bars, i, o, d)
    ensures StrengthAt(bars, i, o, d) <= SignalTo(bars, end, o, d).strength
    decreases end
  {
    SignalGrows(bars, end - 1, o, d);
    if i < end - 1 {
      StrengthBounds(bars, i, end - 1, o, d);
    }
  }

  /** And some divergence of the window is as strong as a signal that is up. */
  lemma {:induction false} StrengthAttained(bars: seq<Bar>, end: nat, o: Oscillator, d: Direction) returns (i: nat)
    requires |bars| >= MIN_BARS && |bars| - 1 - LOOKBACK <= end < |bars| && SignalTo(bars, end, o, d).up
    ensures |bars| - 1 - LOOKBACK <= i < end && DivergesAt(bars, i, o, d)
    ensures StrengthAt(bars, i, o, d) == SignalTo(bars, end, o, d).strength
    decreases end
  {
    i := end - 1;
    SignalAdvances(bars, i, o, d);
    FlagsAreExact(bars, i, o, d);
    if DivergesAt(bars, i, o, d) {
      StrengthOfDivergence(Last(bars), bars[i], ReadingAt(bars, |bars| - 1), ReadingAt(bars, i), o, d);
    }
    if !DivergesAt(bars, i, o, d) || StrengthAt(bars, i, o, d) < SignalTo(bars, i, o, d).strength {
      i := StrengthAttained(bars, i, o, d);
    }
  }

  /** A MACD strength that survives the rounding of the score. */
  predicate Visible(s: Signal) {
    s.strength > 0.000001
  }

  predicate Backed(r: Report) {
    && (r.bias.BullishBias? ==> r.rsiBull.up || r.macdBull.up)
    && (r.bias.BearishBias? ==> r.rsiBear.up || r.macdBear.up)
    && (r.count > 0 <==> r.rsiBull.up || r.rsiBear.up || r.macdBull.up || r.macdBear.up)
    && 0.0 <= r.score <= 1.0
    && (r.score > 0.0 <==> r.rsiBull.up || r.rsiBear.up || Visible(r.macdBull) || Visible(r.macdBear))
  }

  /** The bias goes to the side with the larger sum of strengths, and to neither when they are equal; the
      score is half the larger sum, off by at most half a millionth; the count is that of the flags. */
  predicate Weighed(r: Report) {
    var bull, bear := r.rsiBull.strength + r.macdBull.strength, r.rsiBear.strength + r.macdBear.strength;
    && (r.bias.BullishBias? <==> bull > bear) && (r.bias.BearishBias? <==> bear > bull)
    && -0.5 <= (r.score - (if bull > bear then bull else bear) / 2.0) * 1000000.0 <= 0.5
    && r.count == |set k | 0 <= k < 4 && [r.rsiBull, r.rsiBear, r.macdBull, r.macdBear][k].up|
  }

  lemma FlagsCounted(flags: seq<Signal>, n: nat)
    requires n <= |flags|
    ensures FlagCount(flags, n) == |set k | 0 <= k < n && flags[k].up|
  {
    var up := set k | 0 <= k < n && flags[k].up;
    if n > 0 {
      FlagsCounted(flags, n - 1);
      var before := set k | 0 <= k < n - 1 && flags[k].up;
      assert up == before + if flags[n - 1].up then {n - 1} else {};
    } else {
      assert up == {};
    }
  }

  function FlagCount(flags: seq<Signal>, n: nat): nat
    requires n <= |flags|
  {
    if n == 0 then 0 else FlagCount(flags, n - 1) + if flags[n - 1].up then 1 else 0
  }

  lemma FourFlags(a: Signal, b: Signal, c: Signal, d: Signal)
    ensures FlagCount([a, b, c, d], 4) == Ones(a) + Ones(b) + Ones(c) + Ones(d)
  {
    var flags := [a, b, c, d];
    assert FlagCount(flags, 0) == 0;
    assert FlagCount(flags, 1) == Ones(a);
    assert FlagCount(flags, 2) == Ones(a) + Ones(b);
    assert FlagCount(flags, 3) == Ones(a) + Ones(b) + Ones(c);
  }

  lemma ConclusionIsWeighed(rb: Signal, rs: Signal, mb: Signal, ms: Signal)
    requires Sound(rb, RsiLine) && Sound(rs, RsiLine) && Sound(mb, MacdHistogram) && Sound(ms, MacdHistogram)
    ensures Weighed(Conclude(rb, rs, mb, ms))
  {
    var bull, bear := (rb.strength + mb.strength) / 2.0, (rs.strength + ms.strength) / 2.0;
    RoundIsNear(MaxReal(bull, bear), SIX_PLACES);
    FlagsCounted([rb, rs, mb, ms], 4);
    FourFlags(rb, rs, mb, ms);
  }

  /** Rounding to six places keeps [0, 1] and leaves nothing exactly of what is at most half a unit. */
  lemma RoundedScore(x: real)
    requires 0.0 <= x <= 1.0
    ensures 0.0 <= RoundTo(x, SIX_PLACES) <= 1.0
    ensures RoundTo(x, SIX_PLACES) > 0.0 <==> x > 0.0000005
  {
    var n := Nearest(x * SIX_PLACES);
    assert 0 <= n <= 1000000;
    assert n >= 1 <==> x > 0.0000005;
    QuotientBounds(n as real, SIX_PLACES, 1.0);
    QuotientBounds(n as real, SIX_PLACES, 0.0);
    assert RoundTo(x, SIX_PLACES) * SIX_PLACES == n as real;
  }

  lemma ConclusionIsBacked(rb: Signal, rs: Signal, mb: Signal, ms: Signal)
    requires Sound(rb, RsiLine) && Sound(rs, RsiLine) && Sound(mb, MacdHistogram) && Sound(ms, MacdHistogram)
    ensures Backed(Conclude(rb, rs, mb, ms))
  {
    var bull, bear := (rb.strength + mb.strength) / 2.0, (rs.strength + ms.strength) / 2.0;
    RoundedScore(MaxReal(bull, bear));
    assert bull > 0.0000005 <==> rb.up || Visible(mb);
    assert bear > 0.0000005 <==> rs.up || Visible(ms);
  }

  /** A faint flag: the MACD histogram goes from 1.0 to 1.0000001 while the low falls by a percent, which
      raises the flag and the bias with a score of zero. */
  lemma FaintFlagScoresZero(last: Bar, ref: Bar, now: Reading, past: Reading)
    requires last.low == 99.0 && ref.low == 100.0 && ref.close == 100.0
    requires past.hist == 1.0 && now.hist == 1.0000001
    ensures
      var flag := Observe(NO_SIGNAL, last, ref, now, past, MacdHistogram, Bullish);
      var r := Conclude(NO_SIGNAL, NO_SIGNAL, flag, NO_SIGNAL);
      flag.up && r.count == 1 && r.bias == BullishBias && r.score == 0.0
  {
    var flag := Observe(NO_SIGNAL, last, ref, now, past, MacdHistogram, Bullish);
    assert Move(ref.low, last.low, ref.close) == 0.01;
    var q := 0.0000001 / 1.0000001;
    assert q * 1.0000001 == 0.0000001;
    assert flag.strength == q && 0.0 < q < 0.0000002;
    RoundedScore(q / 2.0);
  }

  function FlagOf(r: Report, o: Oscillator, d: Direction): Signal {
    match (o, d)
    case (RsiLine, Bullish) => r.rsiBull
    case (RsiLine, Bearish) => r.rsiBear
    case (MacdHistogram, Bullish) => r.macdBull
    case (MacdHistogram, Bearish) => r.macdBear
  }

  /** One of the 14 bars before the last diverges that way. */
  ghost predicate SomeDiverges(bars: seq<Bar>, o: Oscillator, d: Direction)
    requires |bars| >= 30
  {
    exists i :: |bars| - 15 <= i < |bars| - 1 && DivergesAt(bars, i, o, d)
  }

  lemma ReportFlags(bars: seq<Bar>, o: Oscillator, d: Direction)
    ensures FlagOf(ReportOf(bars), o, d) == if |bars| < 30 then Signal(false, 0.0) else SignalTo(bars, |bars| - 1, o, d)
  {
  }

  /** With fewer than 30 bars nothing is reported; with 30 or more a flag is up exactly when one of the 14 bars
      before the last diverges that way. */
  lemma ReportIsExact(bars: seq<Bar>, o: Oscillator, d: Direction)
    ensures if |bars| < 30 then FlagOf(ReportOf(bars), o, d) == Signal(false, 0.0)
            else FlagOf(ReportOf(bars), o, d).up <==> SomeDiverges(bars, o, d)
  {
    ReportFlags(bars, o, d);
    if |bars| >= 30 {
      FlagsAreExact(bars, |bars| - 1, o, d);
      assert DivergesBefore(bars, |bars| - 1, o, d) <==> SomeDiverges(bars, o, d);
    }
  }

  /** The bias goes to the stronger side, the score and the count are those of the flags. */
  lemma ReportIsWeighed(bars: seq<Bar>)
    ensures Weighed(ReportOf(bars))
  {
    if |bars| >= MIN_BARS {
      var end := |bars| - 1;
      SignalIsSound(bars, end, RsiLine, Bullish);
      SignalIsSound(bars, end, RsiLine, Bearish);
      SignalIsSound(bars, end, MacdHistogram, Bullish);
      SignalIsSound(bars, end, MacdHistogram, Bearish);
      ConclusionIsWeighed(SignalTo(bars, end, RsiLine, Bullish), SignalTo(bars, end, RsiLine, Bearish),
                          SignalTo(bars, end, MacdHistogram, Bullish), SignalTo(bars, end, MacdHistogram, Bearish));
    } else {
      ConclusionIsWeighed(NO_SIGNAL, NO_SIGNAL, NO_SIGNAL, NO_SIGNAL);
    }
  }

  /** A directional bias is backed by a flag of that direction, and the score lies in [0, 1] and is
      positive exactly when an RSI flag is up or a MACD strength is more than a millionth. */
  lemma BiasHasFlag(bars: seq<Bar>)
    ensures Backed(ReportOf(bars))
  {
    if |bars| >= MIN_BARS {
      var end := |bars| - 1;
      SignalIsSound(bars, end, RsiLine, Bullish);
      SignalIsSound(bars, end, RsiLine, Bearish);
      SignalIsSound(bars, end, MacdHistogram, Bullish);
      SignalIsSound(bars, end, MacdHistogram, Bearish);
      ConclusionIsBacked(SignalTo(bars, end, RsiLine, Bullish), SignalTo(bars, end, RsiLine, Bearish),
                         SignalTo(bars, end, MacdHistogram, Bullish), SignalTo(bars, end, MacdHistogram, Bearish));
    }
  }
}
