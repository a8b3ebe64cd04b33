/** Swing pivots: bars that stand out from the `lookback` bars on either side. */
module SwingPivots {
  import opened Common

  datatype Bar = Bar(high: real, low: real)

  datatype Kind = SwingHigh | SwingLow

  datatype Pivot = Pivot(index: nat, price: real)

  function Price(b: Bar, kind: Kind): real {
    if kind.SwingHigh? then b.high else b.low
  }

  /** `x` is strictly more extreme than `y`. */
  predicate StandsOut(x: real, y: real, kind: Kind) {
    if kind.SwingHigh? then y < x else y > x
  }

  /** Bar `i` has a full window on both sides and strictly beats every other bar in it. */
  predicate IsPivot(bars: seq<Bar>, lookback: nat, kind: Kind, i: nat) {
    && lookback <= i && i + lookback < |bars|
    && forall j :: i - lookback <= j <= i + lookback && j != i ==>
         StandsOut(Price(bars[i], kind), Price(bars[j], kind), kind)
  }

  /** The pivots among the first `n` bars, oldest first. */
  function PivotsBelow(bars: seq<Bar>, lookback: nat, kind: Kind, n: nat): seq<Pivot>
    requires n <= |bars|
  {
    if n == 0 then []
    else PivotsBelow(bars, lookback, kind, n - 1) +
         if IsPivot(bars, lookback, kind, n - 1) then [Pivot(n - 1, Price(bars[n - 1], kind))] else []
  }

  function Pivots(bars: seq<Bar>, lookback: nat, kind: Kind): seq<Pivot> {
    PivotsBelow(bars, lookback, kind, |bars|)
  }

  lemma {:induction false} NoPivotsOutside(bars: seq<Bar>, lookback: nat, kind: Kind, n: nat, m: nat)
    requires n <= m <= |bars| && (m <= lookback || n + lookback >= |bars|)
    ensures PivotsBelow(bars, lookback, kind, m) == PivotsBelow(bars, lookback, kind, n)
    decreases m
  {
    if n < m {
      NoPivotsOutside(bars, lookback, kind, n, m - 1);
    }
  }

  lemma TooFewBars(bars: seq<Bar>, lookback: nat, kind: Kind)
    requires |bars| < 2 * lookback + 1
    ensures Pivots(bars, lookback, kind) == []
  {
    var m := if |bars| < lookback then |bars| else lookback;
    NoPivotsOutside(bars, lookback, kind, 0, m);
    NoPivotsOutside(bars, lookback, kind, m, |bars|);
  }

  method BeatsWindow(bars: seq<Bar>, lookback: nat, kind: Kind, i: nat) returns (beats: bool)
    requires lookback <= i && i + lookback < |bars|
    ensures beats <==> IsPivot(bars, lookback, kind, i)
  {
    for j := i - lookback to i + lookback + 1
      invariant forall k :: i - lookback <= k < j && k != i ==>
        StandsOut(Price(bars[i], kind), Price(bars[k], kind), kind)
    {
      if j != i && !StandsOut(Price(bars[i], kind), Price(bars[j], kind), kind) {
        return false;
      }
    }
    return true;
  }

  method FindSwingPivots(bars: seq<Bar>, lookback: nat) returns (highs: seq<Pivot>, lows: seq<Pivot>)
    ensures highs == Pivots(bars, lookback, SwingHigh) && lows == Pivots(bars, lookback, SwingLow)
  {
    highs, lows := [], [];
    var n := |bars|;
    if n < 2 * lookback + 1 {
      TooFewBars(bars, lookback, SwingHigh);
      TooFewBars(bars, lookback, SwingLow);
      return;
    }
    NoPivotsOutside(bars, lookback, SwingHigh, 0, lookback);
    NoPivotsOutside(bars, lookback, SwingLow, 0, lookback);
    for i := lookback to n - lookback
      invariant highs == PivotsBelow(bars, lookback, SwingHigh, i)
      invariant lows == PivotsBelow(bars, lookback, SwingLow, i)
    {
      var isHigh := BeatsWindow(bars, lookback, SwingHigh, i);
      var isLow := BeatsWindow(bars, lookback, SwingLow, i);
      if isHigh {
        highs := highs + [Pivot(i, bars[i].high)];
      }
      if isLow {
        lows := lows + [Pivot(i, bars[i].low)];
      }
    }
    NoPivotsOutside(bars, lookback, SwingHigh, n - lookback, n);
    NoPivotsOutside(bars, lookback, SwingLow, n - lookback, n);
  }

  /** The list holds exactly the pivots, in order. */
  lemma {:induction false} PivotsAreAll(bars: seq<Bar>, lookback: nat, kind: Kind, n: nat)
    requires n <= |bars|
    ensures forall p :: p in PivotsBelow(bars, lookback, kind, n) <==>
      p.index < n && IsPivot(bars, lookback, kind, p.index) && p.price == Price(bars[p.index], kind)
    ensures forall a, b :: 0 <= a < b < |PivotsBelow(bars, lookback, kind, n)| ==>
      PivotsBelow(bars, lookback, kind, n)[a].index < PivotsBelow(bars, lookback, kind, n)[b].index
  {
    if n > 0 {
      PivotsAreAll(bars, lookback, kind, n - 1);
      var before := PivotsBelow(bars, lookback, kind, n - 1);
      forall a, b | 0 <= a < b < |PivotsBelow(bars, lookback, kind, n)|
        ensures PivotsBelow(bars, lookback, kind, n)[a].index < PivotsBelow(bars, lookback, kind, n)[b].index
      {
        if b == |before| {
          assert before[a] in before;
        }
      }
    }
  }

  /** A swing high is a bar whose high is above the highs of `lookback` bars on either side. */
  lemma SwingHighsAre(bars: seq<Bar>, lookback: nat, p: Pivot)
    ensures p in Pivots(bars, lookback, SwingHigh) <==>
      && lookback <= p.index && p.index + lookback < |bars| && p.price == bars[p.index].high
      && forall j :: p.index - lookback <= j <= p.index + lookback && j != p.index ==> bars[j].high < p.price
  {
    PivotsAreAll(bars, lookback, SwingHigh, |bars|);
    assert p.index < |bars| && IsPivot(bars, lookback, SwingHigh, p.index) ==>
        forall j :: p.index - lookback <= j <= p.index + lookback && j != p.index ==>
          StandsOut(Price(bars[p.index], SwingHigh), Price(bars[j], SwingHigh), SwingHigh);
  }

  /** A swing low is a bar whose low is below the lows of `lookback` bars on either side. */
  lemma SwingLowsAre(bars: seq<Bar>, lookback: nat, p: Pivot)
    ensures p in Pivots(bars, lookback, SwingLow) <==>
      && lookback <= p.index && p.index + lookback < |bars| && p.price == bars[p.index].low
      && forall j :: p.index - lookback <= j <= p.index + lookback && j != p.index ==> bars[j].low > p.price
  {
    PivotsAreAll(bars, lookback, SwingLow, |bars|);
    assert p.index < |bars| && IsPivot(bars, lookback, SwingLow, p.index) ==>
        forall j :: p.index - lookback <= j <= p.index + lookback && j != p.index ==>
          StandsOut(Price(bars[p.index], SwingLow), Price(bars[j], SwingLow), SwingLow);
  }

  /** Pivots of one kind are more than `lookback` bars apart. */
  lemma PivotsAreApart(bars: seq<Bar>, lookback: nat, kind: Kind, p: Pivot, q: Pivot)
    requires p in Pivots(bars, lookback, kind) && q in Pivots(bars, lookback, kind) && p != q
    ensures p.index + lookback < q.index || q.index + lookback < p.index
  {
    PivotsAreAll(bars, lookback, kind, |bars|);
    assert StandsOut(p.price, q.price, kind) ==> !StandsOut(q.price, p.price, kind);
  }

  lemma PivotSeesOnlyItsWindow(bars: seq<Bar>, n: nat, lookback: nat, kind: Kind, i: nat)
    requires n <= |bars| && i + lookback < n
    ensures IsPivot(bars[..n], lookback, kind, i) <==> IsPivot(bars, lookback, kind, i)
  {
    if IsPivot(bars[..n], lookback, kind, i) {
      forall j | i - lookback <= j <= i + lookback && j != i
        ensures StandsOut(Price(bars[i], kind), Price(bars[j], kind), kind)
      {
        assert bars[..n][j] == bars[j];
      }
    }
  }

  lemma {:induction false} PrefixPivots(bars: seq<Bar>, n: nat, lookback: nat, kind: Kind, m: nat)
    requires m <= n <= |bars| && (m > 0 ==> m - 1 + lookback < n)
    ensures PivotsBelow(bars[..n], lookback, kind, m) == PivotsBelow(bars, lookback, kind, m)
  {
    if m > 0 {
      PrefixPivots(bars, n, lookback, kind, m - 1);
      PivotSeesOnlyItsWindow(bars, n, lookback, kind, m - 1);
    }
  }

  lemma {:induction false} PivotsBelowGrow(bars: seq<Bar>, lookback: nat, kind: Kind, n: nat, m: nat)
    requires n <= m <= |bars|
    ensures PivotsBelow(bars, lookback, kind, n) <= PivotsBelow(bars, lookback, kind, m)
    decreases m
  {
    if n < m {
      PivotsBelowGrow(bars, lookback, kind, n, m - 1);
    }
  }

  /** No repaint: the pivots of any prefix are a prefix of the pivots of the whole series; they are
      the pivots whose window the prefix already covers. */
  lemma NoRepaint(bars: seq<Bar>, n: nat, lookback: nat, kind: Kind)
    requires n <= |bars|
    ensures Pivots(bars[..n], lookback, kind) <= Pivots(bars, lookback, kind)
    ensures Pivots(bars[..n], lookback, kind)
         == PivotsBelow(bars, lookback, kind, if n < lookback then 0 else n - lookback)
  {
    var m := if n < lookback then 0 else n - lookback;
    NoPivotsOutside(bars[..n], lookback, kind, m, n);
    PrefixPivots(bars, n, lookback, kind, m);
    PivotsBelowGrow(bars, lookback, kind, m, |bars|);
  }
}
