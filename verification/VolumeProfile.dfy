/** The volume-by-price histogram and the value area grown around its point of control. */
module VolumeProfile {
  import opened Common

  /** One bar; None stands for a missing key. */
  datatype Bar = Bar(high: Option<real>, low: Option<real>, close: Option<real>, volume: Option<real>)

  datatype ProfileError = BinsMustBePositive | ValueAreaPctOutOfRange | EmptyBars | InvalidOrdering

  datatype Snapshot = Snapshot(poc: real, vah: real, val: real, profileHigh: real, profileLow: real)

  function Volume(b: Bar): real {
    if b.volume.Some? then b.volume.value else 1.0
  }

  predicate VolumesNonNegative(bars: seq<Bar>) {
    forall k :: 0 <= k < |bars| ==> Volume(bars[k]) >= 0.0
  }

  // ------------------------------------------------------------------
  // Sums over ranges of bins
  // ------------------------------------------------------------------

  /** Total of `p[lo..hi]`. */
  function Range(p: seq<real>, lo: nat, hi: nat): real
    requires hi <= |p|
    decreases hi
  {
    if hi <= lo then 0.0 else Range(p, lo, hi - 1) + p[hi - 1]
  }

  ghost predicate NonNegative(p: seq<real>) {
    forall i :: 0 <= i < |p| ==> p[i] >= 0.0
  }

  lemma {:induction false} RangeDown(p: seq<real>, lo: nat, hi: nat)
    requires 0 < lo <= hi <= |p|
    ensures Range(p, lo - 1, hi) == p[lo - 1] + Range(p, lo, hi)
    decreases hi
  {
    if lo < hi {
      RangeDown(p, lo, hi - 1);
    }
  }

  lemma {:induction false} RangeSame(p: seq<real>, q: seq<real>, lo: nat, hi: nat)
    requires hi <= |p| && hi <= |q| && forall i :: lo <= i < hi ==> p[i] == q[i]
    ensures Range(p, lo, hi) == Range(q, lo, hi)
    decreases hi
  {
    if lo < hi {
      RangeSame(p, q, lo, hi - 1);
    }
  }

  // ------------------------------------------------------------------
  // The histogram
  // ------------------------------------------------------------------

  /** The grid the profile is drawn on: `bins` bins of `size` from `low` up. */
  datatype Grid = Grid(low: real, size: real, bins: nat)

  /** The price `x` bins above the bottom of the grid. */
  function At(g: Grid, x: real): real {
    g.low + x * g.size
  }

  function Edge(g: Grid, i: nat): real {
    At(g, i as real)
  }

  /** The part of the bar [l, h] that lies in bin `i`. */
  function Overlap(g: Grid, h: real, l: real, i: nat): real {
    MaxReal(0.0, MinReal(h, Edge(g, i) + g.size) - MaxReal(l, Edge(g, i)))
  }

  function OverlapTotal(g: Grid, h: real, l: real, n: nat): real {
    if n == 0 then 0.0 else OverlapTotal(g, h, l, n - 1) + Overlap(g, h, l, n - 1)
  }

  function Truncate(x: real): int {
    if x < 0.0 then -((-x).Floor) else x.Floor
  }

  /** The bin of a bar without range. */
  function HitBin(g: Grid, h: real): int
    requires g.bins > 0
  {
    var i := if g.size > 0.0 then Truncate((h - g.low) / g.size) else 0;
    if i <= g.bins - 1 then i else g.bins - 1
  }

  function Portion(volume: real, overlap: real, total: real): real
    requires total != 0.0
  {
    volume * (overlap / total)
  }

  /** The volume a bar puts into bin `i`. */
  function Share(g: Grid, b: Bar, i: nat): real
    requires g.bins > 0
  {
    if b.high.None? || b.low.None? then 0.0
    else if b.high.value == b.low.value then (if i == HitBin(g, b.high.value) then Volume(b) else 0.0)
    else
      var total := OverlapTotal(g, b.high.value, b.low.value, g.bins);
      if total > 0.0 && Overlap(g, b.high.value, b.low.value, i) > 0.0
      then Portion(Volume(b), Overlap(g, b.high.value, b.low.value, i), total) else 0.0
  }

  function Shares(g: Grid, b: Bar): seq<real>
    requires g.bins > 0
  {
    seq(g.bins, i requires 0 <= i < g.bins => Share(g, b, i))
  }

  function Added(p: seq<real>, q: seq<real>): seq<real>
    requires |p| == |q|
  {
    seq(|p|, i requires 0 <= i < |p| => p[i] + q[i])
  }

  function Histogram(g: Grid, bars: seq<Bar>): (p: seq<real>)
    requires g.bins > 0
    ensures |p| == g.bins
  {
    if bars == [] then seq(g.bins, i => 0.0)
    else Added(Histogram(g, Front(bars)), Shares(g, Last(bars)))
  }

  /** The volume of a bar that the histogram takes in: an upside-down bar counts nothing. */
  function Counted(b: Bar): real {
    if b.high.Some? && b.low.Some? && b.low.value <= b.high.value then Volume(b) else 0.0
  }

  ghost function CountedVolume(bars: seq<Bar>): real {
    SumOf(bars, (b: Bar) => Counted(b))
  }

  /** The bar lies within the grid. */
  predicate Inside(g: Grid, b: Bar) {
    b.high.Some? && b.low.Some? ==> g.low <= b.low.value && b.high.value <= Edge(g, g.bins)
  }

  function Clamp(x: real, l: real, h: real): real {
    MaxReal(l, MinReal(h, x))
  }

  lemma OverlapIsClampStep(g: Grid, h: real, l: real, i: nat)
    requires l <= h && g.size > 0.0
    ensures Overlap(g, h, l, i) == Clamp(Edge(g, i + 1), l, h) - Clamp(Edge(g, i), l, h)
  {
    assert Edge(g, i + 1) == Edge(g, i) + g.size;
  }

  /** The overlaps of a bar with the first `n` bins telescope. */
  lemma {:induction false} OverlapsTelescope(g: Grid, h: real, l: real, n: nat)
    requires l <= h && g.size > 0.0
    ensures OverlapTotal(g, h, l, n) == Clamp(Edge(g, n), l, h) - Clamp(Edge(g, 0), l, h)
  {
    if n > 0 {
      OverlapsTelescope(g, h, l, n - 1);
      OverlapIsClampStep(g, h, l, n - 1);
    }
  }

  /** Over the whole grid the overlaps of a bar add up to its range. */
  lemma OverlapsCoverBar(g: Grid, h: real, l: real)
    requires l <= h && g.size > 0.0 && g.low <= l && h <= Edge(g, g.bins)
    ensures OverlapTotal(g, h, l, g.bins) == h - l
  {
    OverlapsTelescope(g, h, l, g.bins);
    assert Edge(g, 0) == g.low;
  }

  lemma {:induction false} OverlapsVanish(g: Grid, h: real, l: real, n: nat)
    requires h < l
    ensures OverlapTotal(g, h, l, n) == 0.0
  {
    if n > 0 {
      OverlapsVanish(g, h, l, n - 1);
    }
  }

  lemma HitBinInside(g: Grid, h: real)
    requires g.bins > 0 && g.size > 0.0 && g.low <= h
    ensures 0 <= HitBin(g, h) < g.bins
  {
    var x := (h - g.low) / g.size;
    assert x >= 0.0;
  }

  /** A flat bar falls into the bin that holds its price, the upper one on an edge, and at the top of the grid
      into the last bin. */
  lemma HitBinHolds(g: Grid, h: real)
    requires g.bins > 0 && g.size > 0.0 && g.low <= h <= Edge(g, g.bins)
    ensures 0 <= HitBin(g, h) < g.bins && Edge(g, HitBin(g, h)) <= h
    ensures h < Edge(g, HitBin(g, h) + 1) || (HitBin(g, h) == g.bins - 1 && h == Edge(g, g.bins))
  {
    var x := (h - g.low) / g.size;
    assert x * g.size == h - g.low;
    HitBinInside(g, h);
    QuotientBounds(h - g.low, g.size, g.bins as real);
    QuotientBounds(h - g.low, g.size, x.Floor as real);
    QuotientBounds(h - g.low, g.size, x.Floor as real + 1.0);
    if x.Floor > g.bins - 1 {
      assert x == g.bins as real;
    }
  }

  /** A bar without a volume counts 1, an upside-down bar or one without high or low counts nothing. */
  lemma CountedExactly(b: Bar)
    ensures Counted(b) ==
      if b.high.None? || b.low.None? || b.high.value < b.low.value then 0.0
      else if b.volume.None? then 1.0 else b.volume.value
  {
  }

  /** A flat bar puts all its volume into the bin that holds its price. */
  lemma FlatShare(g: Grid, b: Bar, i: nat)
    requires g.bins > 0 && g.size > 0.0 && i < g.bins && Inside(g, b)
    requires b.high.Some? && b.low == b.high
    ensures Share(g, b, i) == Counted(b) || Share(g, b, i) == 0.0
    ensures Edge(g, i) <= b.high.value < Edge(g, i + 1) ==> Share(g, b, i) == Counted(b)
    ensures b.high.value < Edge(g, i) || b.high.value > Edge(g, i + 1) ==> Share(g, b, i) == 0.0
  {
    HitBinHolds(g, b.high.value);
    var hit := HitBin(g, b.high.value);
    if i < hit {
      EdgesGrow(g, i + 1, hit);
    } else if hit < i {
      EdgesGrow(g, hit + 1, i);
    }
  }

  lemma {:induction false} EdgesGrow(g: Grid, i: nat, j: nat)
    requires g.size > 0.0 && i <= j
    ensures Edge(g, i) <= Edge(g, j)
    decreases j
  {
    if i < j {
      EdgesGrow(g, i, j - 1);
      EdgeStep(g, j - 1);
    }
  }

  /** A bar with a range puts volume into each bin in proportion to the overlap. */
  lemma ShareIsProportional(g: Grid, b: Bar, i: nat)
    requires g.bins > 0 && g.size > 0.0 && i < g.bins && Inside(g, b)
    requires b.high.Some? && b.low.Some? && b.low.value < b.high.value
    ensures
      var o := MinReal(b.high.value, Edge(g, i + 1)) - MaxReal(b.low.value, Edge(g, i));
      Share(g, b, i) == if o > 0.0 then Portion(Volume(b), o, b.high.value - b.low.value) else 0.0
  {
    OverlapsCoverBar(g, b.high.value, b.low.value);
    EdgeStep(g, i);
  }

  lemma EdgeStep(g: Grid, i: nat)
    ensures Edge(g, i + 1) == Edge(g, i) + g.size
  {
  }

  /** A portion relates to the volume as the overlap to the range. */
  lemma PortionTimes(v: real, o: real, total: real)
    requires total > 0.0
    ensures Portion(v, o, total) * total == v * o
  {
    QuotientTimes(o, total);
    Reassociate(v, o / total, total);
  }

  lemma QuotientTimes(x: real, y: real)
    requires y > 0.0
    ensures (x / y) * y == x
  {
  }

  lemma Reassociate(x: real, y: real, z: real)
    ensures (x * y) * z == x * (y * z)
  {
  }

  lemma {:induction false} RangeOfOneHit(p: seq<real>, hit: nat, v: real, n: nat)
    requires n <= |p| && forall i :: 0 <= i < n ==> p[i] == if i == hit then v else 0.0
    ensures Range(p, 0, n) == if hit < n then v else 0.0
  {
    if n > 0 {
      RangeOfOneHit(p, hit, v, n - 1);
    }
  }

  lemma {:induction false} RangeOfZeros(p: seq<real>, n: nat)
    requires n <= |p| && forall i :: 0 <= i < n ==> p[i] == 0.0
    ensures Range(p, 0, n) == 0.0
  {
    if n > 0 {
      RangeOfZeros(p, n - 1);
    }
  }

  lemma ScaledOverlap(v: real, o: real, total: real, sum: real)
    requires total > 0.0
    ensures Portion(v, sum, total) + Portion(v, o, total) == Portion(v, sum + o, total)
  {
    assert sum / total + o / total == (sum + o) / total;
  }

  /** A bar with a range spreads its volume in proportion to the overlaps. */
  lemma {:induction false} SharesSpread(g: Grid, b: Bar, n: nat)
    requires n <= g.bins && g.bins > 0
    requires b.high.Some? && b.low.Some? && b.high.value != b.low.value
    requires OverlapTotal(g, b.high.value, b.low.value, g.bins) > 0.0
    ensures
      var total := OverlapTotal(g, b.high.value, b.low.value, g.bins);
      Range(Shares(g, b), 0, n) == Portion(Volume(b), OverlapTotal(g, b.high.value, b.low.value, n), total)
  {
    var h, l := b.high.value, b.low.value;
    var total := OverlapTotal(g, h, l, g.bins);
    if n > 0 {
      SharesSpread(g, b, n - 1);
      ScaledOverlap(Volume(b), Overlap(g, h, l, n - 1), total, OverlapTotal(g, h, l, n - 1));
    }
  }

  lemma ShareNonNegative(g: Grid, b: Bar, i: nat)
    requires g.bins > 0 && Volume(b) >= 0.0
    ensures Share(g, b, i) >= 0.0
  {
    if b.high.Some? && b.low.Some? && b.high.value != b.low.value {
      var total := OverlapTotal(g, b.high.value, b.low.value, g.bins);
      var o := Overlap(g, b.high.value, b.low.value, i);
      if total > 0.0 && o > 0.0 {
        assert o / total > 0.0;
      }
    }
  }

  lemma SpreadConserves(g: Grid, b: Bar)
    requires g.bins > 0 && g.size > 0.0 && Inside(g, b)
    requires b.high.Some? && b.low.Some? && b.low.value < b.high.value
    ensures Range(Shares(g, b), 0, g.bins) == Volume(b)
  {
    OverlapsCoverBar(g, b.high.value, b.low.value);
    SharesSpread(g, b, g.bins);
    WholeShare(Volume(b), OverlapTotal(g, b.high.value, b.low.value, g.bins));
  }

  lemma WholeShare(v: real, total: real)
    requires total != 0.0
    ensures Portion(v, total, total) == v
  {
    assert total / total == 1.0;
  }

  /** A bar's shares are non-negative and add up to the volume it counts for. */
  lemma SharesConserve(g: Grid, b: Bar)
    requires g.bins > 0 && g.size > 0.0 && Inside(g, b) && Volume(b) >= 0.0
    ensures NonNegative(Shares(g, b))
    ensures Range(Shares(g, b), 0, g.bins) == Counted(b)
  {
    var p := Shares(g, b);
    forall i | 0 <= i < g.bins ensures p[i] >= 0.0 {
      ShareNonNegative(g, b, i);
    }
    if b.high.None? || b.low.None? {
      RangeOfZeros(p, g.bins);
    } else if b.high.value == b.low.value {
      HitBinInside(g, b.high.value);
      RangeOfOneHit(p, HitBin(g, b.high.value), Volume(b), g.bins);
    } else if b.low.value < b.high.value {
      SpreadConserves(g, b);
    } else {
      OverlapsVanish(g, b.high.value, b.low.value, g.bins);
      RangeOfZeros(p, g.bins);
    }
  }

  lemma {:induction false} RangeOfAdded(p: seq<real>, q: seq<real>, n: nat)
    requires |p| == |q| && n <= |p|
    ensures Range(Added(p, q), 0, n) == Range(p, 0, n) + Range(q, 0, n)
  {
    if n > 0 {
      RangeOfAdded(p, q, n - 1);
    }
  }

  /** Histogram conservation: no bin is negative and the bins hold exactly the volume of the
      counted bars. */
  lemma {:induction false} HistogramConserves(g: Grid, bars: seq<Bar>)
    requires g.bins > 0 && g.size > 0.0 && VolumesNonNegative(bars)
    requires forall k :: 0 <= k < |bars| ==> Inside(g, bars[k])
    ensures NonNegative(Histogram(g, bars))
    ensures Range(Histogram(g, bars), 0, g.bins) == CountedVolume(bars)
  {
    if bars == [] {
      RangeOfZeros(Histogram(g, bars), g.bins);
    } else {
      HistogramConserves(g, Front(bars));
      SharesConserve(g, Last(bars));
      RangeOfAdded(Histogram(g, Front(bars)), Shares(g, Last(bars)), g.bins);
    }
  }

  // ------------------------------------------------------------------
  // The value area
  // ------------------------------------------------------------------

  datatype Window = Window(lo: nat, hi: nat)

  predicate WindowOf(p: seq<real>, w: Window) {
    w.lo <= w.hi < |p|
  }

  function Held(p: seq<real>, w: Window): real
    requires WindowOf(p, w)
  {
    Range(p, w.lo, w.hi + 1)
  }

  /** The bin below the window, or -1 at the bottom of the grid. */
  function Below(p: seq<real>, w: Window): real
    requires WindowOf(p, w)
  {
    if w.lo > 0 then p[w.lo - 1] else -1.0
  }

  function Above(p: seq<real>, w: Window): real
    requires WindowOf(p, w)
  {
    if w.hi < |p| - 1 then p[w.hi + 1] else -1.0
  }

  predicate Grows(p: seq<real>, target: real, w: Window)
    requires WindowOf(p, w)
  {
    Held(p, w) < target && (w.lo > 0 || w.hi < |p| - 1)
  }

  /** One round of the expansion: the richer neighbour joins; on a tie the lower one joins and then,
      while still short, the upper one. */
  function Step(p: seq<real>, target: real, w: Window): (r: Window)
    requires WindowOf(p, w) && NonNegative(p) && Grows(p, target, w)
    ensures WindowOf(p, r) && r.lo <= w.lo && w.hi <= r.hi && r != w
  {
    if Below(p, w) > Above(p, w) then Window(w.lo - 1, w.hi)
    else if Above(p, w) > Below(p, w) then Window(w.lo, w.hi + 1)
    else if Held(p, Window(w.lo - 1, w.hi)) >= target then Window(w.lo - 1, w.hi)
    else Window(w.lo - 1, w.hi + 1)
  }

  /** The window the expansion ends with. */
  function ValueArea(p: seq<real>, target: real, w: Window): (r: Window)
    requires WindowOf(p, w) && NonNegative(p)
    ensures WindowOf(p, r) && r.lo <= w.lo && w.hi <= r.hi
    decreases w.lo + |p| - w.hi
  {
    if Grows(p, target, w) then ValueArea(p, target, Step(p, target, w)) else w
  }

  lemma HeldDown(p: seq<real>, w: Window)
    requires WindowOf(p, w) && w.lo > 0
    ensures Held(p, Window(w.lo - 1, w.hi)) == Held(p, w) + p[w.lo - 1]
  {
    RangeDown(p, w.lo, w.hi + 1);
  }

  datatype End = Neither | Bottom | Top

  /** The end at which the expansion adds its last bin; on a tie the upper bin comes second. */
  function AddedLast(p: seq<real>, target: real, w: Window): End
    requires WindowOf(p, w) && NonNegative(p)
    decreases w.lo + |p| - w.hi
  {
    if !Grows(p, target, w) then Neither else
    var r := Step(p, target, w);
    var later := AddedLast(p, target, r);
    if !later.Neither? then later else if r.hi > w.hi then Top else Bottom
  }

  /** Without the bin added last, the value area grown from `start` is short of the target. */
  ghost predicate JustEnough(p: seq<real>, target: real, start: Window)
    requires WindowOf(p, start) && NonNegative(p)
  {
    var w := ValueArea(p, target, start);
    match AddedLast(p, target, start)
    case Neither => w == start
    case Bottom => w.lo < start.lo && Range(p, w.lo + 1, w.hi + 1) < target
    case Top => w.hi > start.hi && Range(p, w.lo, w.hi) < target
  }

  /** What the window holds after one round, in terms of the bins that joined. */
  lemma StepHolds(p: seq<real>, target: real, w: Window)
    requires WindowOf(p, w) && NonNegative(p) && Grows(p, target, w)
    ensures
      var r := Step(p, target, w);
      && Held(p, r) == Held(p, w) + (if r.lo < w.lo then Below(p, w) else 0.0)
                                  + (if r.hi > w.hi then Above(p, w) else 0.0)
      && (w.lo > 0 ==> Held(p, Window(w.lo - 1, w.hi)) == Held(p, w) + Below(p, w))
  {
    if w.lo > 0 {
      HeldDown(p, w);
    }
  }

  lemma StepIsJustEnough(p: seq<real>, target: real, w: Window)
    requires WindowOf(p, w) && NonNegative(p) && Grows(p, target, w)
    ensures
      var r := Step(p, target, w);
      if r.hi > w.hi then Range(p, r.lo, r.hi) < target else r.lo < w.lo && Range(p, r.lo + 1, r.hi + 1) < target
  {
  }

  lemma {:induction false} ExpansionIsJustEnough(p: seq<real>, target: real, w: Window)
    requires WindowOf(p, w) && NonNegative(p)
    ensures JustEnough(p, target, w)
    decreases w.lo + |p| - w.hi
  {
    if Grows(p, target, w) {
      StepIsJustEnough(p, target, w);
      ExpansionIsJustEnough(p, target, Step(p, target, w));
    }
  }

  lemma {:induction false} ExpansionFills(p: seq<real>, target: real, w: Window)
    requires WindowOf(p, w) && NonNegative(p)
    ensures
      var r := ValueArea(p, target, w);
      Held(p, r) >= target || r == Window(0, |p| - 1)
    decreases w.lo + |p| - w.hi
  {
    if Grows(p, target, w) {
      ExpansionFills(p, target, Step(p, target, w));
    }
  }

  lemma {:induction false} RangeBelowTotal(p: seq<real>, lo: nat, hi: nat)
    requires lo <= hi <= |p| && NonNegative(p)
    ensures 0.0 <= Range(p, lo, hi) <= Range(p, 0, |p|)
    decreases lo + |p| - hi, hi - lo
  {
    if lo > 0 {
      RangeDown(p, lo, hi);
      RangeBelowTotal(p, lo - 1, hi);
      RangeNonNegative(p, lo, hi);
    } else {
      RangeNonNegative(p, 0, hi);
      if hi < |p| {
        RangeBelowTotal(p, 0, hi + 1);
      }
    }
  }

  lemma {:induction false} RangeNonNegative(p: seq<real>, lo: nat, hi: nat)
    requires hi <= |p| && NonNegative(p)
    ensures Range(p, lo, hi) >= 0.0
    decreases hi
  {
    if lo < hi {
      RangeNonNegative(p, lo, hi - 1);
    }
  }

  /** Value-area correctness: the expansion reaches the target exactly when the whole histogram does,
      and without the bin it added last it falls short. */
  lemma ValueAreaReaches(p: seq<real>, target: real, w: Window)
    requires WindowOf(p, w) && NonNegative(p)
    ensures Held(p, ValueArea(p, target, w)) >= target <==> Range(p, 0, |p|) >= target
    ensures JustEnough(p, target, w)
  {
    var r := ValueArea(p, target, w);
    ExpansionIsJustEnough(p, target, w);
    ExpansionFills(p, target, w);
    RangeBelowTotal(p, r.lo, r.hi + 1);
  }

  // ------------------------------------------------------------------
  // Exactly when the value area stays below its centre
  // ------------------------------------------------------------------

  /** The bin above `c`, or -1 at the top of the grid. */
  function Over(p: seq<real>, c: nat): real
    requires c < |p|
  {
    if c < |p| - 1 then p[c + 1] else -1.0
  }

  /** Going down from `lo`, bins up to `c` first reach the target at `m`, and every bin passed on the
      way is richer than the bin above `c`, the last one at least as rich. */
  predicate DescendsTo(p: seq<real>, target: real, c: nat, lo: nat, m: nat)
    requires m <= lo <= c < |p|
  {
    && Held(p, Window(m, c)) >= target
    && (forall i :: m < i <= lo ==> Held(p, Window(i, c)) < target)
    && (forall i :: m < i < lo ==> p[i] > Over(p, c))
    && (m < lo ==> p[m] >= Over(p, c))
  }

  /** The value area around `c` needs no bin above `c`, told from the histogram and the target. */
  ghost predicate NeedsNoneAbove(p: seq<real>, target: real, c: nat)
    requires c < |p|
  {
    c == |p| - 1 || exists m :: 0 <= m <= c && DescendsTo(p, target, c, c, m)
  }

  ghost predicate Descends(p: seq<real>, target: real, c: nat, lo: nat)
    requires lo <= c < |p|
  {
    exists m :: 0 <= m <= lo && DescendsTo(p, target, c, lo, m)
  }

  /** One bin further down, while still short of the target. */
  lemma DescendsOn(p: seq<real>, target: real, c: nat, lo: nat)
    requires 0 < lo <= c < |p| && Held(p, Window(lo, c)) < target
    ensures Descends(p, target, c, lo) <==>
      (p[lo - 1] > Over(p, c) && Descends(p, target, c, lo - 1))
      || (p[lo - 1] == Over(p, c) && Held(p, Window(lo - 1, c)) >= target)
  {
    forall m | 0 <= m < lo && DescendsTo(p, target, c, lo, m)
      ensures (p[lo - 1] > Over(p, c) && Descends(p, target, c, lo - 1))
           || (p[lo - 1] == Over(p, c) && Held(p, Window(lo - 1, c)) >= target)
    {
      if p[lo - 1] > Over(p, c) {
        assert DescendsTo(p, target, c, lo - 1, m);
      } else {
        assert m == lo - 1;
      }
    }
    var next := lo - 1;
    if p[next] > Over(p, c) {
      forall m | 0 <= m <= next && DescendsTo(p, target, c, next, m) ensures Descends(p, target, c, lo) {
        assert DescendsTo(p, target, c, lo, m);
      }
    }
    if p[lo - 1] == Over(p, c) && Held(p, Window(lo - 1, c)) >= target {
      assert DescendsTo(p, target, c, lo, lo - 1);
    }
  }

  /** At the top of the grid the expansion can only go down. */
  lemma {:induction false} StaysExactly(p: seq<real>, target: real, c: nat, lo: nat)
    requires lo <= c < |p| - 1 && NonNegative(p)
    ensures ValueArea(p, target, Window(lo, c)).hi == c <==> Descends(p, target, c, lo)
    decreases lo
  {
    var w := Window(lo, c);
    if Held(p, w) >= target {
      assert DescendsTo(p, target, c, lo, lo);
    } else if lo == 0 {
      assert Step(p, target, w) == Window(0, c + 1);
    } else {
      DescendsOn(p, target, c, lo);
      if Below(p, w) > Above(p, w) {
        assert Step(p, target, w) == Window(lo - 1, c);
        StaysExactly(p, target, c, lo - 1);
      } else if Below(p, w) == Above(p, w) && Held(p, Window(lo - 1, c)) >= target {
        assert Step(p, target, w) == Window(lo - 1, c);
        assert !Grows(p, target, Window(lo - 1, c));
      } else {
        assert Step(p, target, w).hi == c + 1;
      }
    }
  }

  /** The value area ends at its centre bin exactly when the histogram below the centre suffices before
      the bin above it gets its turn. */
  lemma UpperEndExact(p: seq<real>, target: real, c: nat)
    requires c < |p| && NonNegative(p)
    ensures ValueArea(p, target, Window(c, c)).hi == c <==> NeedsNoneAbove(p, target, c)
  {
    if c < |p| - 1 {
      StaysExactly(p, target, c, c);
    }
  }

  // ------------------------------------------------------------------
  // Optimality on a single-peaked histogram
  // ------------------------------------------------------------------

  ghost predicate SinglePeaked(p: seq<real>, c: nat) {
    && (forall i, j :: 0 <= i <= j <= c && j < |p| ==> p[i] <= p[j])
    && (forall i, j :: c <= i <= j < |p| ==> p[i] >= p[j])
  }

  /** Every bin of the window is at least `t` and every other bin at most `t`. */
  ghost predicate Dominates(p: seq<real>, w: Window, t: real) {
    && t >= 0.0
    && (forall i :: w.lo <= i <= w.hi && i < |p| ==> p[i] >= t)
    && (forall i :: 0 <= i < |p| && !(w.lo <= i <= w.hi) ==> p[i] <= t)
  }

  function Weight(p: seq<real>, w: Window, t: real, i: nat): real
    requires i < |p|
  {
    if w.lo <= i <= w.hi then p[i] - t else 0.0
  }

  function Excess(p: seq<real>, w: Window, t: real, n: nat): real
    requires n <= |p|
  {
    if n == 0 then 0.0 else Excess(p, w, t, n - 1) + Weight(p, w, t, n - 1)
  }

  lemma {:induction false} ExcessIsHeld(p: seq<real>, w: Window, t: real, n: nat)
    requires WindowOf(p, w) && n <= |p|
    ensures n <= w.lo ==> Excess(p, w, t, n) == 0.0
    ensures w.lo < n <= w.hi + 1 ==> Excess(p, w, t, n) == Range(p, w.lo, n) - t * (n - w.lo) as real
    ensures w.hi + 1 <= n ==> Excess(p, w, t, n) == Excess(p, w, t, w.hi + 1)
  {
    if n > 0 {
      ExcessIsHeld(p, w, t, n - 1);
      if w.lo < n <= w.hi + 1 {
        assert t * (n - w.lo) as real == t * (n - 1 - w.lo) as real + t;
      }
    }
  }

  lemma {:induction false} ExcessBounded(p: seq<real>, w: Window, v: Window, t: real, n: nat)
    requires Dominates(p, w, t) && n <= |p|
    ensures Excess(p, v, t, n) <= Excess(p, w, t, n)
  {
    if n > 0 {
      ExcessBounded(p, w, v, t, n - 1);
    }
  }

  function Width(w: Window): nat
    requires w.lo <= w.hi
  {
    w.hi + 1 - w.lo
  }

  function Times(t: real, n: nat): real {
    t * n as real
  }

  lemma HeldFromExcess(p: seq<real>, w: Window, t: real)
    requires WindowOf(p, w)
    ensures Held(p, w) == Excess(p, w, t, |p|) + Times(t, Width(w))
  {
    ExcessIsHeld(p, w, t, |p|);
    ExcessIsHeld(p, w, t, w.hi + 1);
    var n := w.hi + 1;
    assert n - w.lo == Width(w);
  }

  /** A dominating window holds at least as much as any window that is no wider. */
  lemma DominatingIsMaximal(p: seq<real>, w: Window, v: Window, t: real)
    requires WindowOf(p, w) && WindowOf(p, v) && Dominates(p, w, t) && v.hi - v.lo <= w.hi - w.lo
    ensures Held(p, v) <= Held(p, w)
  {
    HeldFromExcess(p, w, t);
    HeldFromExcess(p, v, t);
    ExcessBounded(p, w, v, t, |p|);
    Monotone(t, Width(v), Width(w));
  }

  lemma Monotone(t: real, a: nat, b: nat)
    requires t >= 0.0 && a <= b
    ensures Times(t, a) <= Times(t, b)
  {
    assert t * (b - a) as real >= 0.0;
  }

  lemma DominatesDown(p: seq<real>, w: Window, t: real, c: nat)
    requires WindowOf(p, w) && NonNegative(p) && SinglePeaked(p, c) && w.lo <= c <= w.hi && Dominates(p, w, t)
    requires w.lo > 0 && Below(p, w) >= Above(p, w)
    ensures Dominates(p, Window(w.lo - 1, w.hi), p[w.lo - 1])
  {
  }

  lemma DominatesUp(p: seq<real>, w: Window, t: real, c: nat)
    requires WindowOf(p, w) && NonNegative(p) && SinglePeaked(p, c) && w.lo <= c <= w.hi && Dominates(p, w, t)
    requires w.hi < |p| - 1 && Above(p, w) >= Below(p, w)
    ensures Dominates(p, Window(w.lo, w.hi + 1), p[w.hi + 1])
  {
  }

  /** No window narrower than `w` reaches the target. */
  ghost predicate NarrowestReach(p: seq<real>, target: real, w: Window) {
    forall v :: WindowOf(p, v) && Held(p, v) >= target ==> v.hi - v.lo >= w.hi - w.lo
  }

  lemma ShortDominatorRaisesWidth(p: seq<real>, target: real, w: Window, t: real, wider: Window)
    requires WindowOf(p, w) && Dominates(p, w, t) && Held(p, w) < target
    requires wider.hi - wider.lo == w.hi - w.lo + 1
    ensures NarrowestReach(p, target, wider)
  {
    forall v | WindowOf(p, v) && Held(p, v) >= target ensures v.hi - v.lo >= wider.hi - wider.lo {
      if v.hi - v.lo <= w.hi - w.lo {
        DominatingIsMaximal(p, w, v, t);
      }
    }
  }

  /** What the expansion keeps at every window it passes: fullest of its width, and no narrower
      window reaches the target. */
  ghost predicate Optimal(p: seq<real>, target: real, w: Window, t: real) {
    WindowOf(p, w) && Dominates(p, w, t) && NarrowestReach(p, target, w)
  }

  lemma OptimalDown(p: seq<real>, target: real, w: Window, t: real, c: nat)
    requires NonNegative(p) && SinglePeaked(p, c) && w.lo <= c <= w.hi && Optimal(p, target, w, t)
    requires Held(p, w) < target && w.lo > 0 && Below(p, w) >= Above(p, w)
    ensures Optimal(p, target, Window(w.lo - 1, w.hi), p[w.lo - 1])
  {
    DominatesDown(p, w, t, c);
    ShortDominatorRaisesWidth(p, target, w, t, Window(w.lo - 1, w.hi));
  }

  lemma OptimalUp(p: seq<real>, target: real, w: Window, t: real, c: nat)
    requires NonNegative(p) && SinglePeaked(p, c) && w.lo <= c <= w.hi && Optimal(p, target, w, t)
    requires Held(p, w) < target && w.hi < |p| - 1 && Above(p, w) >= Below(p, w)
    ensures Optimal(p, target, Window(w.lo, w.hi + 1), p[w.hi + 1])
  {
    DominatesUp(p, w, t, c);
    ShortDominatorRaisesWidth(p, target, w, t, Window(w.lo, w.hi + 1));
  }

  lemma TieIsOptimal(p: seq<real>, target: real, w: Window, t: real, c: nat)
    requires NonNegative(p) && SinglePeaked(p, c) && w.lo <= c <= w.hi && Optimal(p, target, w, t)
    requires w.lo > 0 && w.hi < |p| - 1 && Below(p, w) == Above(p, w)
    requires Held(p, w) < target && Held(p, Window(w.lo - 1, w.hi)) < target
    ensures Optimal(p, target, Window(w.lo - 1, w.hi + 1), p[w.hi + 1])
  {
    OptimalDown(p, target, w, t, c);
    var mid := Window(w.lo - 1, w.hi);
    LowerIsNoRicher(p, w, c);
    OptimalUp(p, target, mid, p[w.lo - 1], c);
  }

  lemma LowerIsNoRicher(p: seq<real>, w: Window, c: nat)
    requires WindowOf(p, w) && NonNegative(p) && SinglePeaked(p, c) && w.lo <= c <= w.hi
    requires w.lo > 0 && w.hi < |p| - 1 && Below(p, w) == Above(p, w)
    ensures Below(p, Window(w.lo - 1, w.hi)) <= Above(p, Window(w.lo - 1, w.hi))
  {
  }

  lemma StepIsOptimal(p: seq<real>, target: real, w: Window, t: real, c: nat) returns (t': real)
    requires NonNegative(p) && SinglePeaked(p, c) && w.lo <= c <= w.hi && Optimal(p, target, w, t)
    requires Grows(p, target, w)
    ensures Optimal(p, target, Step(p, target, w), t')
  {
    if Below(p, w) > Above(p, w) {
      OptimalDown(p, target, w, t, c);
      t' := p[w.lo - 1];
    } else if Above(p, w) > Below(p, w) {
      OptimalUp(p, target, w, t, c);
      t' := p[w.hi + 1];
    } else if Held(p, Window(w.lo - 1, w.hi)) >= target {
      OptimalDown(p, target, w, t, c);
      t' := p[w.lo - 1];
    } else {
      TieIsOptimal(p, target, w, t, c);
      t' := p[w.hi + 1];
    }
  }

  lemma {:induction false} ExpansionIsOptimal(p: seq<real>, target: real, w: Window, t: real, c: nat)
    returns (t': real)
    requires NonNegative(p) && SinglePeaked(p, c) && w.lo <= c <= w.hi && Optimal(p, target, w, t)
    ensures Optimal(p, target, ValueArea(p, target, w), t')
    decreases w.lo + |p| - w.hi
  {
    t' := t;
    if Grows(p, target, w) {
      t' := StepIsOptimal(p, target, w, t, c);
      t' := ExpansionIsOptimal(p, target, Step(p, target, w), t', c);
    }
  }

  /** Value-area optimality: on a histogram that rises to the centre bin and falls after it, the
      value area is a fullest window of its width and no narrower window reaches the target. */
  lemma ValueAreaOptimal(p: seq<real>, target: real, c: nat)
    requires c < |p| && NonNegative(p) && SinglePeaked(p, c)
    ensures
      var w := ValueArea(p, target, Window(c, c));
      && NarrowestReach(p, target, w)
      && forall v :: WindowOf(p, v) && v.hi - v.lo <= w.hi - w.lo ==> Held(p, v) <= Held(p, w)
  {
    var start := Window(c, c);
    assert Dominates(p, start, p[c]);
    var t := ExpansionIsOptimal(p, target, start, p[c], c);
    var w := ValueArea(p, target, start);
    forall v | WindowOf(p, v) && v.hi - v.lo <= w.hi - w.lo ensures Held(p, v) <= Held(p, w) {
      DominatingIsMaximal(p, w, v, t);
    }
  }

  /** With a second peak behind a dip the greedy expansion is not optimal: it ends four bins wide
      where three would have reached the target. */
  lemma GreedyCanBeBeaten()
    ensures
      var p := [0.0, 2.0, 10.0, 1.0, 9.0];
      ValueArea(p, 20.0, Window(2, 2)) == Window(1, 4) && Held(p, Window(2, 4)) == 20.0
  {
    var p := [0.0, 2.0, 10.0, 1.0, 9.0];
    assert Held(p, Window(2, 2)) == 10.0;
    HeldDown(p, Window(2, 2));
    assert Step(p, 20.0, Window(2, 2)) == Window(1, 2);
    assert Step(p, 20.0, Window(1, 2)) == Window(1, 3);
    assert Step(p, 20.0, Window(1, 3)) == Window(1, 4);
    assert !Grows(p, 20.0, Window(1, 4));
    assert ValueArea(p, 20.0, Window(1, 3)) == Window(1, 4);
    assert ValueArea(p, 20.0, Window(1, 2)) == Window(1, 4);
  }

  // ------------------------------------------------------------------
  // Exactly when the value area is the narrowest
  // ------------------------------------------------------------------

  /** The expansion from `w` that is never satisfied passes through `u`, also between the two bins of a
      tie. */
  ghost predicate Passes(p: seq<real>, w: Window, u: Window)
    requires WindowOf(p, w) && NonNegative(p)
    decreases w.lo + |p| - w.hi
  {
    || u == w
    || ((w.lo > 0 || w.hi < |p| - 1)
        && if Below(p, w) > Above(p, w) then Passes(p, Window(w.lo - 1, w.hi), u)
           else if Above(p, w) > Below(p, w) then Passes(p, Window(w.lo, w.hi + 1), u)
           else u == Window(w.lo - 1, w.hi) || Passes(p, Window(w.lo - 1, w.hi + 1), u))
  }

  /** No window as narrow holds more. */
  ghost predicate Fullest(p: seq<real>, u: Window) {
    WindowOf(p, u) && forall v :: WindowOf(p, v) && v.hi - v.lo <= u.hi - u.lo ==> Held(p, v) <= Held(p, u)
  }

  ghost predicate PassesFullest(p: seq<real>, c: nat)
    requires c < |p| && NonNegative(p)
  {
    forall u :: Passes(p, Window(c, c), u) ==> Fullest(p, u)
  }

  ghost predicate AlwaysNarrowest(p: seq<real>, c: nat)
    requires c < |p| && NonNegative(p)
  {
    forall target: real :: NarrowestReach(p, target, ValueArea(p, target, Window(c, c)))
  }

  lemma {:induction false} PassedIsWindow(p: seq<real>, w: Window, u: Window)
    requires WindowOf(p, w) && NonNegative(p) && Passes(p, w, u)
    ensures WindowOf(p, u) && u.lo <= w.lo && w.hi <= u.hi && Held(p, w) <= Held(p, u)
    decreases w.lo + |p| - w.hi
  {
    if u != w {
      if w.lo > 0 {
        HeldDown(p, w);
      }
      if Below(p, w) > Above(p, w) {
        PassedIsWindow(p, Window(w.lo - 1, w.hi), u);
      } else if Above(p, w) > Below(p, w) {
        PassedIsWindow(p, Window(w.lo, w.hi + 1), u);
      } else if u != Window(w.lo - 1, w.hi) {
        PassedIsWindow(p, Window(w.lo - 1, w.hi + 1), u);
      }
    }
  }

  /** A passed window that is short of the target and not the whole histogram lies inside the value area
      and is narrower. */
  lemma {:induction false} ShortIsPassed(p: seq<real>, target: real, w: Window, u: Window)
    requires WindowOf(p, w) && NonNegative(p) && Passes(p, w, u)
    requires WindowOf(p, u) && Held(p, u) < target && u != Window(0, |p| - 1)
    ensures
      var r := ValueArea(p, target, w);
      r.hi - r.lo > u.hi - u.lo
    decreases w.lo + |p| - w.hi
  {
    PassedIsWindow(p, w, u);
    assert Grows(p, target, w);
    if w.lo > 0 {
      HeldDown(p, w);
    }
    if u == w {
    } else if Below(p, w) > Above(p, w) {
      ShortIsPassed(p, target, Window(w.lo - 1, w.hi), u);
    } else if Above(p, w) > Below(p, w) {
      ShortIsPassed(p, target, Window(w.lo, w.hi + 1), u);
    } else if u != Window(w.lo - 1, w.hi) {
      PassedIsWindow(p, Window(w.lo - 1, w.hi + 1), u);
      ShortIsPassed(p, target, Window(w.lo - 1, w.hi + 1), u);
    }
  }

  /** Below the bin added last there is a passed window, one bin narrower and short of the target. */
  lemma {:induction false} PassedBefore(p: seq<real>, target: real, w: Window) returns (u: Window)
    requires WindowOf(p, w) && NonNegative(p) && Grows(p, target, w)
    ensures Passes(p, w, u) && WindowOf(p, u) && Held(p, u) < target
    ensures
      var r := ValueArea(p, target, w);
      r.hi - r.lo == u.hi - u.lo + 1
    decreases w.lo + |p| - w.hi
  {
    var r := Step(p, target, w);
    if Grows(p, target, r) {
      u := PassedBefore(p, target, r);
    } else if r.lo < w.lo && r.hi > w.hi {
      u := Window(w.lo - 1, w.hi);
    } else {
      u := w;
    }
  }

  lemma NarrowestIfFullest(p: seq<real>, target: real, c: nat)
    requires c < |p| && NonNegative(p) && PassesFullest(p, c)
    ensures NarrowestReach(p, target, ValueArea(p, target, Window(c, c)))
  {
    var start := Window(c, c);
    var w := ValueArea(p, target, start);
    if Grows(p, target, start) {
      var u := PassedBefore(p, target, start);
      assert Fullest(p, u);
      forall v | WindowOf(p, v) && Held(p, v) >= target ensures v.hi - v.lo >= w.hi - w.lo {
        assert v.hi - v.lo > u.hi - u.lo;
      }
    }
  }

  lemma FullestIfNarrowest(p: seq<real>, c: nat, u: Window, v: Window)
    requires c < |p| && NonNegative(p) && AlwaysNarrowest(p, c) && Passes(p, Window(c, c), u)
    requires WindowOf(p, u) && WindowOf(p, v) && v.hi - v.lo <= u.hi - u.lo
    ensures Held(p, v) <= Held(p, u)
  {
    if u == Window(0, |p| - 1) {
      RangeBelowTotal(p, v.lo, v.hi + 1);
    } else if Held(p, v) > Held(p, u) {
      var target := Held(p, v);
      assert NarrowestReach(p, target, ValueArea(p, target, Window(c, c)));
      ShortIsPassed(p, target, Window(c, c), u);
    }
  }

  /** Whatever the target, no narrower window reaches it, exactly when every window the expansion passes is
      a fullest one of its width. */
  lemma NarrowestExactly(p: seq<real>, c: nat)
    requires c < |p| && NonNegative(p)
    ensures AlwaysNarrowest(p, c) <==> PassesFullest(p, c)
  {
    if PassesFullest(p, c) {
      forall target: real ensures NarrowestReach(p, target, ValueArea(p, target, Window(c, c))) {
        NarrowestIfFullest(p, target, c);
      }
    }
    if AlwaysNarrowest(p, c) {
      forall u | Passes(p, Window(c, c), u) ensures Fullest(p, u) {
        PassedIsWindow(p, Window(c, c), u);
        forall v | WindowOf(p, v) && v.hi - v.lo <= u.hi - u.lo ensures Held(p, v) <= Held(p, u) {
          FullestIfNarrowest(p, c, u, v);
        }
      }
    }
  }

  /** The windows the expansion ends with do not decide it: past an empty bin each of them is a fullest one of
      its width, and still a narrower window reaches the target 12. */
  lemma EmptyBinIsPassed(p: seq<real>, target: real)
    requires p == [10.0, 0.0, 6.0, 7.0]
    ensures Fullest(p, ValueArea(p, target, Window(0, 0)))
    ensures ValueArea(p, 12.0, Window(0, 0)) == Window(0, 2) && Held(p, Window(2, 3)) >= 12.0
  {
    assert Range(p, 0, 1) == 10.0 && Range(p, 0, 2) == 10.0 && Range(p, 0, 3) == 16.0 && Range(p, 0, 4) == 23.0;
    assert Range(p, 1, 2) == 0.0 && Range(p, 1, 3) == 6.0 && Range(p, 1, 4) == 13.0;
    assert Range(p, 2, 3) == 6.0 && Range(p, 2, 4) == 13.0 && Range(p, 3, 4) == 7.0;
    EndsAfterEmptyBin(p, target);
    EndsAfterEmptyBin(p, 12.0);
  }

  lemma EndsAfterEmptyBin(p: seq<real>, target: real)
    requires p == [10.0, 0.0, 6.0, 7.0]
    requires Range(p, 0, 1) == 10.0 && Range(p, 0, 2) == 10.0 && Range(p, 0, 3) == 16.0
    ensures ValueArea(p, target, Window(0, 0))
         == if target <= 10.0 then Window(0, 0) else if target <= 16.0 then Window(0, 2) else Window(0, 3)
  {
    if target > 10.0 {
      assert Step(p, target, Window(0, 0)) == Window(0, 1) && Step(p, target, Window(0, 1)) == Window(0, 2);
      if target > 16.0 {
        assert Step(p, target, Window(0, 2)) == Window(0, 3);
        assert ValueArea(p, target, Window(0, 3)) == Window(0, 3);
      }
      assert ValueArea(p, target, Window(0, 1)) == ValueArea(p, target, Window(0, 2));
    }
  }

  /** A single peak is enough for that, and not needed: [3, 2, 10] dips before its centre 2. */
  lemma SinglePeakNotNeeded()
    ensures
      var p := [3.0, 2.0, 10.0];
      !SinglePeaked(p, 2) && AlwaysNarrowest(p, 2)
  {
    var p := [3.0, 2.0, 10.0];
    assert p[0] > p[1];
    forall u | Passes(p, Window(2, 2), u) ensures Fullest(p, u) {
      assert u == Window(2, 2) || u == Window(1, 2) || u == Window(0, 2);
      assert Range(p, 0, 1) == 3.0 && Range(p, 0, 2) == 5.0 && Range(p, 0, 3) == 15.0;
      assert Range(p, 1, 2) == 2.0 && Range(p, 1, 3) == 12.0 && Range(p, 2, 3) == 10.0;
    }
    NarrowestExactly(p, 2);
  }

  // ------------------------------------------------------------------
  // The point of control
  // ------------------------------------------------------------------

  const TIE_TOLERANCE := 0.000000001

  function MaxBin(p: seq<real>): (m: real)
    requires p != []
    ensures forall i :: 0 <= i < |p| ==> p[i] <= m
    ensures m in p
  {
    if |p| == 1 then p[0] else MaxReal(MaxBin(Front(p)), Last(p))
  }

  predicate IsPeak(p: seq<real>, i: nat)
    requires i < |p|
  {
    AbsReal(p[i] - MaxBin(p)) < TIE_TOLERANCE
  }

  function PeakCount(p: seq<real>, n: nat): nat
    requires n <= |p|
  {
    if n == 0 then 0 else PeakCount(p, n - 1) + if IsPeak(p, n - 1) then 1 else 0
  }

  function PeakSum(p: seq<real>, n: nat): nat
    requires n <= |p|
  {
    if n == 0 then 0 else PeakSum(p, n - 1) + if IsPeak(p, n - 1) then n - 1 else 0
  }

  lemma {:induction false} PeakBounds(p: seq<real>, n: nat, top: nat)
    requires n <= |p| && n <= top + 1
    ensures PeakSum(p, n) <= PeakCount(p, n) * top
  {
    if n > 0 {
      PeakBounds(p, n - 1, top);
      OneMore(PeakCount(p, n - 1), top);
    }
  }

  lemma OneMore(count: nat, top: nat)
    ensures (count + 1) * top == count * top + top
  {
  }

  lemma {:induction false} PeakIsCounted(p: seq<real>, i: nat, n: nat)
    requires i < n <= |p| && IsPeak(p, i)
    ensures PeakCount(p, n) > 0
  {
    if i < n - 1 {
      PeakIsCounted(p, i, n - 1);
    }
  }

  lemma PeaksExist(p: seq<real>)
    requires p != []
    ensures PeakCount(p, |p|) > 0
  {
    var i :| 0 <= i < |p| && p[i] == MaxBin(p);
    PeakIsCounted(p, i, |p|);
  }

  /** The mean index of the tied peaks. */
  function PeakMean(p: seq<real>): (m: real)
    requires p != []
    ensures 0.0 <= m <= (|p| - 1) as real
  {
    PeaksExist(p);
    PeakBounds(p, |p|, |p| - 1);
    var sum, count := PeakSum(p, |p|) as real, PeakCount(p, |p|) as real;
    MeanBounds(PeakSum(p, |p|), PeakCount(p, |p|), |p| - 1);
    sum / count
  }

  lemma MeanBounds(sum: nat, count: nat, top: nat)
    requires count > 0 && sum <= count * top
    ensures 0.0 <= sum as real / count as real <= top as real
  {
    QuotientBounds(sum as real, count as real, top as real);
    QuotientBounds(sum as real, count as real, 0.0);
    assert (count * top) as real == top as real * count as real;
  }

  /** With a single peak the mean is its place. */
  lemma PeakMeanOfOne(p: seq<real>, c: nat)
    requires c < |p| && forall i :: 0 <= i < |p| && i != c ==> p[i] <= p[c] - 0.000000001
    ensures PeakMean(p) == c as real
  {
    assert MaxBin(p) == p[c];
    OnlyPeak(p, c, |p|);
    PeaksExist(p);
  }

  lemma {:induction false} OnlyPeak(p: seq<real>, c: nat, n: nat)
    requires c < |p| && n <= |p| && forall i :: 0 <= i < |p| ==> (IsPeak(p, i) <==> i == c)
    ensures PeakCount(p, n) == (if c < n then 1 else 0) && PeakSum(p, n) == (if c < n then c else 0)
  {
    if n > 0 {
      OnlyPeak(p, c, n - 1);
    }
  }

  /** With tied peaks it lies between the first and the last of them, and moves with each of them: the mean
      times their number is the sum of their places. */
  lemma PeakMeanTimes(p: seq<real>)
    requires p != []
    ensures IsMeanPlace(PeakMean(p), PeakSum(p, |p|), PeakCount(p, |p|))
    ensures PeakCount(p, |p|) == |PeakPlaces(p, |p|)| && PeakSum(p, |p|) == SumOfPlaces(PeakPlaces(p, |p|))
  {
    PeaksExist(p);
    PlacesCount(p, |p|);
    MeanTimes(PeakSum(p, |p|), PeakCount(p, |p|));
  }

  predicate IsMeanPlace(mean: real, sum: nat, count: nat) {
    mean * count as real == sum as real
  }

  lemma MeanTimes(sum: nat, count: nat)
    requires count > 0
    ensures IsMeanPlace(sum as real / count as real, sum, count)
  {
  }

  /** The peaks are the bins less than the tolerance below the largest. */
  lemma PeakPlacesAre(p: seq<real>, i: nat)
    requires p != []
    ensures i in PeakPlaces(p, |p|) <==> i < |p| && MaxBin(p) - p[i] < 0.000000001
  {
    PlacesCount(p, |p|);
  }

  function PeakPlaces(p: seq<real>, n: nat): seq<nat>
    requires n <= |p|
  {
    if n == 0 then [] else PeakPlaces(p, n - 1) + if IsPeak(p, n - 1) then [n - 1] else []
  }

  function SumOfPlaces(places: seq<nat>): nat {
    if places == [] then 0 else SumOfPlaces(Front(places)) + Last(places)
  }

  lemma SumOfPlacesAppends(places: seq<nat>, i: nat)
    ensures SumOfPlaces(places + [i]) == SumOfPlaces(places) + i
  {
    assert Front(places + [i]) == places;
  }

  lemma {:induction false} PlacesCount(p: seq<real>, n: nat)
    requires n <= |p|
    ensures PeakCount(p, n) == |PeakPlaces(p, n)| && PeakSum(p, n) == SumOfPlaces(PeakPlaces(p, n))
    ensures forall i: nat :: i in PeakPlaces(p, n) <==> i < n && IsPeak(p, i)
  {
    if n > 0 {
      PlacesCount(p, n - 1);
      var before := PeakPlaces(p, n - 1);
      if IsPeak(p, n - 1) {
        SumOfPlacesAppends(before, n - 1);
      } else {
        assert PeakPlaces(p, n) == before;
      }
    }
  }

  // ------------------------------------------------------------------
  // The snapshot
  // ------------------------------------------------------------------

  predicate Ordered(s: Snapshot) {
    s.profileLow <= s.val <= s.poc <= s.vah <= s.profileHigh
  }

  function Levels(g: Grid, top: real, mean: real, w: Window): Snapshot {
    Snapshot(At(g, mean + 0.5), At(g, (w.hi + 1) as real), At(g, w.lo as real), top, g.low)
  }

  lemma StepsCompare(g: Grid, a: real, b: real)
    requires g.size > 0.0
    ensures At(g, a) <= At(g, b) <==> a <= b
  {
    SignOfProduct(g.size, b - a);
    assert At(g, b) - At(g, a) == g.size * (b - a);
  }

  lemma WindowOrders(g: Grid, mean: real, w: Window)
    requires g.bins > 0 && g.size > 0.0 && 0.0 <= mean <= (g.bins - 1) as real
    requires w.lo <= mean.Floor <= w.hi < g.bins
    ensures Ordered(Levels(g, Edge(g, g.bins), mean, w))
       <==> mean - mean.Floor as real <= 0.5 || w.hi > mean.Floor
    ensures
      var s := Levels(g, Edge(g, g.bins), mean, w);
      s.profileLow <= s.val <= s.poc && s.val <= s.vah <= s.profileHigh
  {
    var s := Levels(g, Edge(g, g.bins), mean, w);
    var c := mean.Floor;
    StepsCompare(g, 0.0, w.lo as real);
    StepsCompare(g, w.lo as real, mean + 0.5);
    StepsCompare(g, mean + 0.5, (w.hi + 1) as real);
    StepsCompare(g, (w.hi + 1) as real, g.bins as real);
    StepsCompare(g, w.lo as real, (w.hi + 1) as real);
    assert s.profileLow == At(g, 0.0);
    assert s.profileLow <= s.val && s.val <= s.poc && s.vah <= s.profileHigh;
    assert s.poc <= s.vah <==> mean + 0.5 <= (w.hi + 1) as real;
    if w.hi > c {
      assert (w.hi + 1) as real >= c as real + 2.0;
    } else {
      assert (w.hi + 1) as real == c as real + 1.0;
    }
  }

  const THREE_PLACES := 1000.0

  function Round3(x: real): real {
    RoundTo(x, THREE_PLACES)
  }

  /** The levels as the snapshot stores and validates them. */
  function Rounded(s: Snapshot): Snapshot {
    Snapshot(Round3(s.poc), Round3(s.vah), Round3(s.val), Round3(s.profileHigh), Round3(s.profileLow))
  }

  /** The nearest thousandth. */
  lemma Round3Exactly(x: real) returns (n: int)
    ensures Round3(x) * 1000.0 == n as real && -0.0005 <= Round3(x) - x <= 0.0005
  {
    n := Nearest(x * THREE_PLACES);
    RoundIsNear(x, THREE_PLACES);
    assert Round3(x) == n as real / 1000.0;
  }

  lemma Round3Monotone(a: real, b: real)
    requires a <= b
    ensures Round3(a) <= Round3(b)
  {
    RoundMonotone(a, b, THREE_PLACES);
  }

  lemma RoundedOrders(s: Snapshot)
    requires s.profileLow <= s.val <= s.poc && s.val <= s.vah <= s.profileHigh
    ensures Ordered(Rounded(s)) <==> Ordered(s) || Round3(s.poc) == Round3(s.vah)
  {
    Round3Monotone(s.profileLow, s.val);
    Round3Monotone(s.val, s.poc);
    Round3Monotone(s.vah, s.profileHigh);
    if s.poc <= s.vah {
      Round3Monotone(s.poc, s.vah);
    } else {
      Round3Monotone(s.vah, s.poc);
    }
  }

  /** The levels come out in order exactly when the mean peak index is at most half a bin above the
      centre bin, or the histogram makes the value area take a bin above the centre, or the point of
      control and the top of the centre bin round to the same price. */
  ghost predicate InOrder(g: Grid, p: seq<real>, target: real)
    requires p != []
  {
    var c := PeakMean(p).Floor;
    || PeakMean(p) - c as real <= 0.5
    || !NeedsNoneAbove(p, target, c)
    || Round3(At(g, PeakMean(p) + 0.5)) == Round3(At(g, (c + 1) as real))
  }

  lemma OrderingExact(g: Grid, p: seq<real>, target: real)
    requires g.bins > 0 && g.size > 0.0 && |p| == g.bins && NonNegative(p)
    ensures
      var c := PeakMean(p).Floor;
      Ordered(Rounded(Levels(g, Edge(g, g.bins), PeakMean(p), ValueArea(p, target, Window(c, c)))))
      <==> InOrder(g, p, target)
  {
    var c := PeakMean(p).Floor;
    var w := ValueArea(p, target, Window(c, c));
    UpperEndExact(p, target, c);
    WindowOrders(g, PeakMean(p), w);
    RoundedOrders(Levels(g, Edge(g, g.bins), PeakMean(p), w));
  }

  // ------------------------------------------------------------------
  // The computation
  // ------------------------------------------------------------------

  function RangeHigh(b: Bar): real {
    if b.high.Some? then b.high.value else if b.close.Some? then b.close.value else 0.0
  }

  function RangeLow(b: Bar): real {
    if b.low.Some? then b.low.value else if b.close.Some? then b.close.value else 0.0
  }

  function HighOf(bars: seq<Bar>): real
    requires bars != []
  {
    if |bars| == 1 then RangeHigh(bars[0]) else MaxReal(HighOf(Front(bars)), RangeHigh(Last(bars)))
  }

  function LowOf(bars: seq<Bar>): real
    requires bars != []
  {
    if |bars| == 1 then RangeLow(bars[0]) else MinReal(LowOf(Front(bars)), RangeLow(Last(bars)))
  }

  /** A bar without high or low stands in with its close, and with 0 when that is missing too. */
  lemma RangeDefaults(b: Bar)
    ensures RangeHigh(b) == if b.high.Some? then b.high.value else if b.close.Some? then b.close.value else 0.0
    ensures RangeLow(b) == if b.low.Some? then b.low.value else if b.close.Some? then b.close.value else 0.0
  {
  }

  /** The range reaches exactly from the lowest low to the highest high. */
  lemma {:induction false} RangeIsExact(bars: seq<Bar>) returns (top: nat, bottom: nat)
    requires bars != []
    ensures top < |bars| && RangeHigh(bars[top]) == HighOf(bars)
    ensures bottom < |bars| && RangeLow(bars[bottom]) == LowOf(bars)
    ensures forall k :: 0 <= k < |bars| ==> LowOf(bars) <= RangeLow(bars[k]) && RangeHigh(bars[k]) <= HighOf(bars)
  {
    top, bottom := |bars| - 1, |bars| - 1;
    if |bars| > 1 {
      var t, b := RangeIsExact(Front(bars));
      assert forall k :: 0 <= k < |bars| - 1 ==> bars[k] == Front(bars)[k];
      top := if HighOf(bars) == RangeHigh(Last(bars)) then |bars| - 1 else t;
      bottom := if LowOf(bars) == RangeLow(Last(bars)) then |bars| - 1 else b;
    }
  }

  function GridOf(bars: seq<Bar>, bins: nat): Grid
    requires bars != [] && bins > 0
  {
    Grid(LowOf(bars), (HighOf(bars) - LowOf(bars)) / bins as real, bins)
  }

  lemma EvenSteps(low: real, high: real, n: nat)
    requires n > 0
    ensures Edge(Grid(low, (high - low) / n as real, n), n) == high
    ensures (high - low) / n as real > 0.0 <==> high > low
  {
    var d := high - low;
    assert n as real * (d / n as real) == d;
    QuotientBounds(d, n as real, 0.0);
  }

  lemma BarsInside(g: Grid, bars: seq<Bar>)
    requires bars != [] && g.low == LowOf(bars) && Edge(g, g.bins) == HighOf(bars)
    ensures forall k :: 0 <= k < |bars| ==> Inside(g, bars[k])
  {
    var t, b := RangeIsExact(bars);
  }

  lemma {:induction false} GridCovers(bars: seq<Bar>, bins: nat)
    requires bars != [] && bins > 0
    ensures Edge(GridOf(bars, bins), bins) == HighOf(bars)
    ensures GridOf(bars, bins).size > 0.0 <==> HighOf(bars) > LowOf(bars)
    ensures forall k :: 0 <= k < |bars| ==> Inside(GridOf(bars, bins), bars[k])
  {
    EvenSteps(LowOf(bars), HighOf(bars), bins);
    BarsInside(GridOf(bars, bins), bars);
  }

  lemma UpsideDownBars(bars: seq<Bar>)
    requires bars != [] && HighOf(bars) < LowOf(bars)
    ensures forall k :: 0 <= k < |bars| && bars[k].high.Some? && bars[k].low.Some? ==>
      bars[k].high.value < bars[k].low.value
  {
    var t, b := RangeIsExact(bars);
  }

  method PriceRange(bars: seq<Bar>) returns (low: real, high: real)
    requires bars != []
    ensures low == LowOf(bars) && high == HighOf(bars)
  {
    low, high := RangeLow(bars[0]), RangeHigh(bars[0]);
    for k := 1 to |bars|
      invariant low == LowOf(bars[..k]) && high == HighOf(bars[..k])
    {
      assert Front(bars[..k + 1]) == bars[..k];
      high := MaxReal(high, RangeHigh(bars[k]));
      low := MinReal(low, RangeLow(bars[k]));
    }
    assert bars[..|bars|] == bars;
  }

  method MeasureOverlaps(g: Grid, h: real, l: real) returns (overlaps: seq<real>, total: real)
    ensures |overlaps| == g.bins && total == OverlapTotal(g, h, l, g.bins)
    ensures forall i :: 0 <= i < g.bins ==> overlaps[i] == Overlap(g, h, l, i)
  {
    overlaps, total := [], 0.0;
    for i := 0 to g.bins
      invariant |overlaps| == i && total == OverlapTotal(g, h, l, i)
      invariant forall j :: 0 <= j < i ==> overlaps[j] == Overlap(g, h, l, j)
    {
      var overlap := Overlap(g, h, l, i);
      overlaps := overlaps + [overlap];
      total := total + overlap;
    }
  }

  /** Spread one bar with a range over the bins it overlaps. */
  method SpreadBar(g: Grid, b: Bar, p: seq<real>, total: real) returns (p': seq<real>, total': real)
    requires g.bins > 0 && |p| == g.bins
    requires b.high.Some? && b.low.Some? && b.high.value != b.low.value
    ensures p' == Added(p, Shares(g, b)) && total' == total + Range(Shares(g, b), 0, g.bins)
  {
    var overlaps, totalOverlap := MeasureOverlaps(g, b.high.value, b.low.value);
    ghost var shares := Shares(g, b);
    p', total' := p, total;
    for i := 0 to g.bins
      invariant |p'| == g.bins
      invariant forall j :: 0 <= j < i ==> p'[j] == p[j] + shares[j]
      invariant forall j :: i <= j < g.bins ==> p'[j] == p[j]
      invariant total' == total + Range(shares, 0, i)
    {
      var portion := 0.0;
      if totalOverlap > 0.0 && overlaps[i] > 0.0 {
        portion := Portion(Volume(b), overlaps[i], totalOverlap);
        p' := p'[i := p'[i] + portion];
        total' := total' + portion;
      }
      assert portion == shares[i];
    }
  }

  /** A bar without range falls into a bin of the grid, not below it. */
  predicate HitsInside(g: Grid, b: Bar)
    requires g.bins > 0
  {
    b.high.Some? && b.low == b.high ==> HitBin(g, b.high.value) >= 0
  }

  /** One bar: a bar without high or low is skipped, one without range falls into a single bin. */
  method AddBar(g: Grid, b: Bar, p: seq<real>, total: real) returns (p': seq<real>, total': real)
    requires g.bins > 0 && |p| == g.bins && HitsInside(g, b)
    ensures p' == Added(p, Shares(g, b)) && total' == total + Range(Shares(g, b), 0, g.bins)
  {
    if b.high.None? || b.low.None? {
      RangeOfZeros(Shares(g, b), g.bins);
      return p, total;
    }
    if b.high.value == b.low.value {
      var i := HitBin(g, b.high.value);
      RangeOfOneHit(Shares(g, b), i, Volume(b), g.bins);
      return p[i := p[i] + Volume(b)], total + Volume(b);
    }
    p', total' := SpreadBar(g, b, p, total);
  }

  /** The histogram, bar by bar, with the running total of what was put in. */
  method BuildHistogram(g: Grid, bars: seq<Bar>) returns (p: seq<real>, total: real)
    requires g.bins > 0
    requires forall k :: 0 <= k < |bars| ==> HitsInside(g, bars[k])
    ensures p == Histogram(g, bars) && total == Range(p, 0, g.bins)
  {
    p := seq(g.bins, i => 0.0);
    total := 0.0;
    RangeOfZeros(p, g.bins);
    for k := 0 to |bars|
      invariant p == Histogram(g, bars[..k]) && total == Range(p, 0, g.bins)
    {
      assert Front(bars[..k + 1]) == bars[..k];
      RangeOfAdded(p, Shares(g, bars[k]), g.bins);
      p, total := AddBar(g, bars[k], p, total);
    }
    assert bars[..|bars|] == bars;
  }

  /** Mean index of the bins tied for the maximum. */
  method PointOfControl(p: seq<real>) returns (mean: real)
    requires p != []
    ensures mean == PeakMean(p)
  {
    var maxVol := p[0];
    for i := 1 to |p|
      invariant forall j :: 0 <= j < i ==> p[j] <= maxVol
      invariant maxVol in p[..i]
    {
      maxVol := MaxReal(maxVol, p[i]);
    }
    assert maxVol == MaxBin(p);
    var sum, count := 0, 0;
    for i := 0 to |p|
      invariant sum == PeakSum(p, i) && count == PeakCount(p, i)
    {
      if AbsReal(p[i] - maxVol) < TIE_TOLERANCE {
        sum, count := sum + i, count + 1;
      }
    }
    PeaksExist(p);
    mean := sum as real / count as real;
  }

  /** The two-ended expansion around the centre bin; `last` is where it added its last bin. */
  method GrowValueArea(p: seq<real>, target: real, center: nat)
    returns (low: nat, high: nat, current: real, ghost last: End)
    requires center < |p| && NonNegative(p)
    ensures low <= high < |p| && Window(low, high) == ValueArea(p, target, Window(center, center))
    ensures current == Held(p, Window(low, high)) && last == AddedLast(p, target, Window(center, center))
  {
    low, high, current, last := center, center, p[center], Neither;
    ghost var goal := AddedLast(p, target, Window(center, center));
    assert Range(p, center, center) == 0.0;
    while current < target && (low > 0 || high < |p| - 1)
      invariant low <= high < |p| && current == Held(p, Window(low, high))
      invariant ValueArea(p, target, Window(low, high)) == ValueArea(p, target, Window(center, center))
      invariant goal == if AddedLast(p, target, Window(low, high)).Neither? then last
                        else AddedLast(p, target, Window(low, high))
      decreases low + |p| - 1 - high
    {
      var down := if low > 0 then p[low - 1] else -1.0;
      var up := if high < |p| - 1 then p[high + 1] else -1.0;
      ghost var w := Window(low, high);
      assert down == Below(p, w) && up == Above(p, w) && Grows(p, target, w);
      StepHolds(p, target, w);
      if down > up && down >= 0.0 {
        low, last := low - 1, Bottom;
        current := current + p[low];
      } else if up > down && up >= 0.0 {
        high, last := high + 1, Top;
        current := current + p[high];
      } else {
        if down >= 0.0 {
          low, last := low - 1, Bottom;
          current := current + p[low];
        }
        if up >= 0.0 && current < target {
          high, last := high + 1, Top;
          current := current + p[high];
        }
      }
      assert Window(low, high) == Step(p, target, w);
    }
  }

  function Flat(price: real, high: real, low: real): Snapshot {
    Snapshot(price, price, price, high, low)
  }

  function Validated(s: Snapshot): Result<Snapshot, ProfileError> {
    if Ordered(s) then Ok(s) else Err(InvalidOrdering)
  }

  function Target(total: real, pct: real): real {
    total * pct
  }

  /** The levels of a profile with range and volume, before rounding. */
  function ProfileLevels(bars: seq<Bar>, pct: real, bins: nat): Snapshot
    requires bars != [] && bins > 0 && NonNegative(Histogram(GridOf(bars, bins), bars))
  {
    var g := GridOf(bars, bins);
    var p := Histogram(g, bars);
    var mean := PeakMean(p);
    Levels(g, HighOf(bars), mean, ValueArea(p, Target(Range(p, 0, bins), pct), Window(mean.Floor, mean.Floor)))
  }

  /** The levels lie on the edges of the window's bins and the middle of the mean peak's bin, on a grid of
      equal bins from the lowest low to the highest high. */
  ghost predicate AreaLevels(bars: seq<Bar>, bins: nat, mean: real, w: Window, s: Snapshot)
    requires bars != [] && bins > 0
  {
    var size := (HighOf(bars) - LowOf(bars)) / bins as real;
    && s.val == LowOf(bars) + w.lo as real * size && s.vah == LowOf(bars) + (w.hi + 1) as real * size
    && s.poc == LowOf(bars) + (mean + 0.5) * size
    && s.profileLow == LowOf(bars) && s.profileHigh == HighOf(bars)
  }

  lemma LevelsOnGrid(g: Grid, top: real, mean: real, w: Window)
    ensures Levels(g, top, mean, w).val == g.low + w.lo as real * g.size
    ensures Levels(g, top, mean, w).vah == g.low + (w.hi + 1) as real * g.size
    ensures Levels(g, top, mean, w).poc == g.low + (mean + 0.5) * g.size
  {
  }

  lemma LevelsAreArea(bars: seq<Bar>, bins: nat, mean: real, w: Window)
    requires bars != [] && bins > 0
    ensures AreaLevels(bars, bins, mean, w, Levels(GridOf(bars, bins), HighOf(bars), mean, w))
  {
    LevelsOnGrid(GridOf(bars, bins), HighOf(bars), mean, w);
  }

  lemma TargetIs(total: real, pct: real)
    ensures Target(total, pct) == pct * total
  {
  }

  /** What a profile with range and volume means, for the target volume `target`. */
  ghost predicate Meaning(bars: seq<Bar>, bins: nat, target: real, s: Snapshot)
    requires bars != [] && bins > 0
  {
    var g := GridOf(bars, bins);
    var p := Histogram(g, bars);
    && NonNegative(p) && Range(p, 0, bins) == CountedVolume(bars) >= 0.0
    && var center := PeakMean(p).Floor;
    var w := ValueArea(p, target, Window(center, center));
    && Held(p, w) >= target
    && JustEnough(p, target, Window(center, center))
    && AreaLevels(bars, bins, PeakMean(p), w, s)
    && (Ordered(Rounded(s)) <==> InOrder(g, p, target))
  }

  lemma MeaningOf(bars: seq<Bar>, pct: real, bins: nat, target: real)
    requires bars != [] && bins > 0 && VolumesNonNegative(bars) && HighOf(bars) > LowOf(bars)
    requires target == Target(CountedVolume(bars), pct) <= CountedVolume(bars)
    ensures NonNegative(Histogram(GridOf(bars, bins), bars))
    ensures Meaning(bars, bins, target, ProfileLevels(bars, pct, bins))
  {
    var g := GridOf(bars, bins);
    var p := Histogram(g, bars);
    GridCovers(bars, bins);
    HistogramConserves(g, bars);
    RangeNonNegative(p, 0, bins);
    var center := PeakMean(p).Floor;
    var w := ValueArea(p, target, Window(center, center));
    ValueAreaReaches(p, target, Window(center, center));
    OrderingExact(g, p, target);
    LevelsAreArea(bars, bins, PeakMean(p), w);
  }

  /** What the value area of a profile with range and volume means for its bars: the bins hold the
      counted volume, the area reaches the asked share of it and without the bin added last falls short, val
      and vah are its ends, and the rounded levels come out in order exactly when the mean peak lies in the
      lower half of the centre bin, the histogram makes the area take a bin above the centre, or rounding
      hides the difference. */
  lemma ProfileMeaning(bars: seq<Bar>, pct: real, bins: nat)
    requires bars != [] && bins > 0 && 0.0 < pct < 1.0 && VolumesNonNegative(bars) && HighOf(bars) > LowOf(bars)
    ensures NonNegative(Histogram(GridOf(bars, bins), bars))
    ensures Meaning(bars, bins, pct * CountedVolume(bars), ProfileLevels(bars, pct, bins))
  {
    var total := CountedVolume(bars);
    CountedNonNegative(bars, bins);
    var target := Target(total, pct);
    TargetBelowTotal(total, pct);
    MeaningOf(bars, pct, bins, target);
    TargetIs(total, pct);
  }

  lemma CountedNonNegative(bars: seq<Bar>, bins: nat)
    requires bars != [] && bins > 0 && VolumesNonNegative(bars) && HighOf(bars) > LowOf(bars)
    ensures CountedVolume(bars) >= 0.0
  {
    GridCovers(bars, bins);
    HistogramConserves(GridOf(bars, bins), bars);
    RangeNonNegative(Histogram(GridOf(bars, bins), bars), 0, bins);
  }

  // ------------------------------------------------------------------
  // Levels that are refused, and levels that rounding saves
  // ------------------------------------------------------------------

  /** A bar that covers bin `k` and has volume 10. */
  function BinBar(g: Grid, k: nat): Bar {
    Bar(Some(Edge(g, k + 1)), Some(Edge(g, k)), None, Some(10.0))
  }

  function ThreeBars(g: Grid): seq<Bar> {
    [BinBar(g, 0), BinBar(g, 1), BinBar(g, 4)]
  }

  lemma BinBarShare(g: Grid, k: nat, i: nat)
    requires g.size > 0.0 && k < g.bins && i < g.bins
    ensures Share(g, BinBar(g, k), i) == if i == k then 10.0 else 0.0
  {
    StepsCompare(g, 0.0, k as real);
    StepsCompare(g, (k + 1) as real, g.bins as real);
    OverlapsCoverBar(g, Edge(g, k + 1), Edge(g, k));
    EdgeStep(g, k);
    EdgeStep(g, i);
    if i < k {
      StepsCompare(g, (i + 1) as real, k as real);
    } else if i > k {
      StepsCompare(g, (k + 1) as real, i as real);
    } else {
      WholeShare(10.0, g.size);
    }
  }

  const TIED_PEAKS := [10.0, 10.0, 0.0, 0.0, 10.0]

  lemma BinBarAdds(g: Grid, p: seq<real>, k: nat)
    requires g.size > 0.0 && k < g.bins == |p|
    ensures Added(p, Shares(g, BinBar(g, k))) == p[k := p[k] + 10.0]
  {
    forall i | 0 <= i < g.bins ensures Share(g, BinBar(g, k), i) == if i == k then 10.0 else 0.0 {
      BinBarShare(g, k, i);
    }
  }

  lemma ThreeBarsHistogram(g: Grid)
    requires g.size > 0.0 && g.bins == 5
    ensures Histogram(g, ThreeBars(g)) == TIED_PEAKS
  {
    var bars := ThreeBars(g);
    assert Front(bars) == bars[..2] && Front(bars[..2]) == bars[..1] && Front(bars[..1]) == [];
    var none := seq(g.bins, i => 0.0);
    assert none == [0.0, 0.0, 0.0, 0.0, 0.0];
    BinBarAdds(g, none, 0);
    BinBarAdds(g, [10.0, 0.0, 0.0, 0.0, 0.0], 1);
    BinBarAdds(g, [10.0, 10.0, 0.0, 0.0, 0.0], 4);
    assert Histogram(g, bars[..1]) == [10.0, 0.0, 0.0, 0.0, 0.0];
    assert Histogram(g, bars[..2]) == [10.0, 10.0, 0.0, 0.0, 0.0];
  }

  lemma ThreeBarsGrid(g: Grid)
    requires g.size > 0.0 && g.bins == 5
    ensures HighOf(ThreeBars(g)) == Edge(g, 5) && LowOf(ThreeBars(g)) == g.low && GridOf(ThreeBars(g), 5) == g
  {
    var bars := ThreeBars(g);
    assert Front(bars) == bars[..2] && Front(bars[..2]) == bars[..1];
    assert Edge(g, 0) == g.low && Edge(g, 1) == g.low + g.size && Edge(g, 2) == g.low + 2.0 * g.size;
    assert Edge(g, 4) == g.low + 4.0 * g.size && Edge(g, 5) == g.low + 5.0 * g.size;
    assert LowOf(bars[..1]) == g.low && HighOf(bars[..1]) == Edge(g, 1);
    assert LowOf(bars[..2]) == g.low && HighOf(bars[..2]) == Edge(g, 2);
  }

  /** The tied peaks 0, 1 and 4 average to 5/3, and the value area grows down from bin 1 only. */
  lemma TiedPeaks()
    ensures PeakMean(TIED_PEAKS) == 5.0 / 3.0
    ensures Range(TIED_PEAKS, 0, 5) == 30.0 && NonNegative(TIED_PEAKS)
    ensures ValueArea(TIED_PEAKS, 15.0, Window(1, 1)) == Window(0, 1)
  {
    var p := TIED_PEAKS;
    assert MaxBin(p) == 10.0 by { assert p[0] <= MaxBin(p); }
    assert PeakCount(p, 5) == 3 && PeakSum(p, 5) == 5 by {
      assert PeakCount(p, 1) == 1 && PeakSum(p, 1) == 0;
      assert PeakCount(p, 2) == 2 && PeakSum(p, 2) == 1;
      assert PeakCount(p, 3) == 2 && PeakSum(p, 3) == 1;
      assert PeakCount(p, 4) == 2 && PeakSum(p, 4) == 1;
    }
    assert Range(p, 0, 1) == 10.0 && Range(p, 0, 2) == 20.0 && Range(p, 0, 3) == 20.0 && Range(p, 0, 4) == 20.0;
    HeldDown(p, Window(1, 1));
    assert Held(p, Window(1, 1)) == 10.0 && Held(p, Window(0, 1)) == 20.0;
  }

  /** The bars have these levels, before rounding. */
  ghost predicate HasLevels(bars: seq<Bar>, pct: real, bins: nat, s: Snapshot)
    requires bars != [] && bins > 0
  {
    NonNegative(Histogram(GridOf(bars, bins), bars)) && ProfileLevels(bars, pct, bins) == s
  }

  /** The levels of three such bars: the point of control is above the top of the value area. */
  lemma ThreeBarsLevels(g: Grid)
    requires g.size > 0.0 && g.bins == 5
    ensures
      HasLevels(ThreeBars(g), 0.5, 5,
        Snapshot(g.low + 13.0 / 6.0 * g.size, g.low + 2.0 * g.size, g.low, g.low + 5.0 * g.size, g.low))
  {
    ThreeBarsGrid(g);
    ThreeBarsHistogram(g);
    TiedPeaks();
    assert (5.0 / 3.0).Floor == 1;
    assert Target(30.0, 0.5) == 15.0;
    assert At(g, 5.0 / 3.0 + 0.5) == g.low + 13.0 / 6.0 * g.size;
  }

  lemma RefusedLevels(s: Snapshot)
    requires s == Snapshot(13.0 / 6.0, 2.0, 0.0, 5.0, 0.0)
    ensures Validated(Rounded(s)) == Err(InvalidOrdering)
  {
    assert 2166.0 < 13.0 / 6.0 * 1000.0 < 2167.0;
    assert Nearest(13.0 / 6.0 * 1000.0) > 2000 && Nearest(2.0 * 1000.0) == 2000;
    assert Round3(2.0) == 2.0 < Round3(13.0 / 6.0);
  }

  lemma SavedLevels(s: Snapshot)
    requires s == Snapshot(1.0 + 13.0 / 60000.0, 1.0002, 1.0, 1.0005, 1.0)
    ensures !Ordered(s) && Validated(Rounded(s)) == Ok(Flat(1.0, 1.0, 1.0))
  {
    assert Nearest(1000.0) == 1000 && Nearest(1000.2) == 1000 && Nearest(1000.5) == 1000;
    assert Nearest((1.0 + 13.0 / 60000.0) * 1000.0) == 1000;
    assert Round3(1.0) == 1.0 && Round3(1.0002) == 1.0 && Round3(1.0005) == 1.0;
    assert Round3(1.0 + 13.0 / 60000.0) == 1.0;
  }

  lemma LevelsOfThree(bars: seq<Bar>, g: Grid, s: Snapshot)
    requires g.size > 0.0 && g.bins == 5 && bars == ThreeBars(g)
    requires s == Snapshot(g.low + 13.0 / 6.0 * g.size, g.low + 2.0 * g.size, g.low, g.low + 5.0 * g.size, g.low)
    ensures HasLevels(bars, 0.5, 5, s)
  {
    ThreeBarsLevels(g);
  }

  /** The bars from 0 to 1, 1 to 2 and 4 to 5 (see UnitBars), on five bins, have a point of control of 13/6
      and a value area from 0 to 2: refused. */
  lemma OrderingCanFail(g: Grid, s: Snapshot)
    requires g == Grid(0.0, 1.0, 5) && s == Snapshot(13.0 / 6.0, 2.0, 0.0, 5.0, 0.0)
    ensures HasLevels(ThreeBars(g), 0.5, 5, s) && Validated(Rounded(s)) == Err(InvalidOrdering)
  {
    assert g.low + 13.0 / 6.0 * g.size == 13.0 / 6.0;
    LevelsOfThree(ThreeBars(g), g, s);
    RefusedLevels(s);
  }

  lemma UnitBars(g: Grid)
    requires g == Grid(0.0, 1.0, 5)
    ensures ThreeBars(g) == [
      Bar(Some(1.0), Some(0.0), None, Some(10.0)),
      Bar(Some(2.0), Some(1.0), None, Some(10.0)),
      Bar(Some(5.0), Some(4.0), None, Some(10.0))]
  {
    assert Edge(g, 0) == 0.0 && Edge(g, 1) == 1.0 && Edge(g, 2) == 2.0 && Edge(g, 4) == 4.0 && Edge(g, 5) == 5.0;
  }

  /** The same shape on bins of a ten-thousandth from 1 up: out of order, and accepted because all levels
      round to 1. */
  lemma RoundingHidesDisorder(g: Grid, s: Snapshot)
    requires g == Grid(1.0, 0.0001, 5) && s == Snapshot(1.0 + 13.0 / 60000.0, 1.0002, 1.0, 1.0005, 1.0)
    ensures HasLevels(ThreeBars(g), 0.5, 5, s)
    ensures !Ordered(s) && Validated(Rounded(s)) == Ok(Flat(1.0, 1.0, 1.0))
  {
    assert 13.0 / 6.0 * g.size == 13.0 / 60000.0;
    LevelsOfThree(ThreeBars(g), g, s);
    SavedLevels(s);
  }

  /** On bars whose histogram has its single peak at the centre, the band from val to vah, before rounding,
      is no wider than any band of whole bins that holds its share of the counted volume. */
  lemma ProfileIsOptimal(bars: seq<Bar>, pct: real, bins: nat, v: Window)
    requires bars != [] && bins > 0 && 0.0 < pct < 1.0 && VolumesNonNegative(bars) && HighOf(bars) > LowOf(bars)
    ensures
      var g := GridOf(bars, bins);
      var p := Histogram(g, bars);
      && NonNegative(p)
      && (SinglePeaked(p, PeakMean(p).Floor) && WindowOf(p, v) && Held(p, v) >= pct * CountedVolume(bars) ==>
            var s := ProfileLevels(bars, pct, bins);
            s.vah - s.val <= At(g, (v.hi + 1) as real) - At(g, v.lo as real))
  {
    var g := GridOf(bars, bins);
    var p := Histogram(g, bars);
    GridCovers(bars, bins);
    HistogramConserves(g, bars);
    if SinglePeaked(p, PeakMean(p).Floor) && WindowOf(p, v) && Held(p, v) >= pct * CountedVolume(bars) {
      LevelsAreNarrowest(g, HighOf(bars), p, Target(CountedVolume(bars), pct), v);
    }
  }

  lemma LevelsAreNarrowest(g: Grid, top: real, p: seq<real>, target: real, v: Window)
    requires g.size > 0.0 && p != [] && NonNegative(p) && SinglePeaked(p, PeakMean(p).Floor)
    requires WindowOf(p, v) && Held(p, v) >= target
    ensures
      var c := PeakMean(p).Floor;
      var s := Levels(g, top, PeakMean(p), ValueArea(p, target, Window(c, c)));
      s.vah - s.val <= At(g, (v.hi + 1) as real) - At(g, v.lo as real)
  {
    var c := PeakMean(p).Floor;
    ValueAreaOptimal(p, target, c);
    BandWidths(g, ValueArea(p, target, Window(c, c)), v);
  }

  lemma BandWidths(g: Grid, w: Window, v: Window)
    requires g.size > 0.0 && w.lo <= w.hi && v.lo <= v.hi && w.hi - w.lo <= v.hi - v.lo
    ensures At(g, (w.hi + 1) as real) - At(g, w.lo as real) <= At(g, (v.hi + 1) as real) - At(g, v.lo as real)
  {
    var a, b := (w.hi + 1 - w.lo) as real, (v.hi + 1 - v.lo) as real;
    SignOfProduct(g.size, b - a);
    assert g.size * (b - a) == g.size * b - g.size * a;
  }

  lemma TargetBelowTotal(total: real, pct: real)
    requires total >= 0.0 && pct < 1.0
    ensures Target(total, pct) <= total
  {
    if total > 0.0 {
      SignOfProduct(total, 1.0 - pct);
      assert total * (1.0 - pct) == total - Target(total, pct);
    }
  }

  method ComputeVolumeProfileSnapshot(bars: seq<Bar>, pct: real, bins: int)
    returns (r: Result<Snapshot, ProfileError>)
    requires VolumesNonNegative(bars)
    ensures bins <= 0 ==> r == Err(BinsMustBePositive)
    ensures bins > 0 && !(0.0 < pct < 1.0) ==> r == Err(ValueAreaPctOutOfRange)
    ensures bins > 0 && 0.0 < pct < 1.0 && bars == [] ==> r == Err(EmptyBars)
    ensures bins > 0 && 0.0 < pct < 1.0 && bars != [] ==>
      var high, low := HighOf(bars), LowOf(bars);
      && (high < low ==> r == Err(InvalidOrdering))
      && (high == low ==> r == Ok(Flat(high, high, low)))
      && (high > low && CountedVolume(bars) == 0.0 ==> r == Ok(Flat((high + low) / 2.0, high, low)))
      && (high > low && CountedVolume(bars) > 0.0 ==>
            exists s :: Meaning(bars, bins, pct * CountedVolume(bars), s) && r == Validated(Rounded(s)))
  {
    if bins <= 0 {
      return Err(BinsMustBePositive);
    }
    if !(0.0 < pct < 1.0) {
      return Err(ValueAreaPctOutOfRange);
    }
    if bars == [] {
      return Err(EmptyBars);
    }
    var low, high := PriceRange(bars);
    if high == low {
      return Ok(Flat(high, high, low));
    }
    var g := Grid(low, (high - low) / bins as real, bins);
    GridCovers(bars, bins);
    if high < low {
      UpsideDownBars(bars);
      EmptyHistogram(g, bars);
    } else {
      HistogramConserves(g, bars);
      GridHits(g, bars);
    }
    var p, total := BuildHistogram(g, bars);
    if total == 0.0 {
      return Validated(Flat((high + low) / 2.0, high, low));
    }
    var levels := FindLevels(g, p, total, pct, high);
    ProfileMeaning(bars, pct, bins);
    r := Validated(Rounded(levels));
  }

  method FindLevels(g: Grid, p: seq<real>, total: real, pct: real, high: real) returns (s: Snapshot)
    requires p != [] && NonNegative(p)
    ensures
      var center := PeakMean(p).Floor;
      s == Levels(g, high, PeakMean(p), ValueArea(p, Target(total, pct), Window(center, center)))
  {
    var mean := PointOfControl(p);
    var low, top, current, last := GrowValueArea(p, total * pct, mean.Floor);
    s := Levels(g, high, mean, Window(low, top));
  }

  lemma GridHits(g: Grid, bars: seq<Bar>)
    requires g.bins > 0 && g.size > 0.0 && forall k :: 0 <= k < |bars| ==> Inside(g, bars[k])
    ensures forall k :: 0 <= k < |bars| ==> HitsInside(g, bars[k])
  {
    forall k | 0 <= k < |bars| && bars[k].high.Some? && bars[k].low == bars[k].high ensures HitsInside(g, bars[k]) {
      HitBinInside(g, bars[k].high.value);
    }
  }

  lemma {:induction false} EmptyHistogram(g: Grid, bars: seq<Bar>)
    requires g.bins > 0 && g.size <= 0.0
    requires forall k :: 0 <= k < |bars| && bars[k].high.Some? && bars[k].low.Some? ==>
      bars[k].high.value < bars[k].low.value
    ensures forall k :: 0 <= k < |bars| ==> HitsInside(g, bars[k])
    ensures Range(Histogram(g, bars), 0, g.bins) == 0.0
  {
    if bars == [] {
      RangeOfZeros(Histogram(g, bars), g.bins);
    } else {
      EmptyHistogram(g, Front(bars));
      var b := Last(bars);
      if b.high.Some? && b.low.Some? {
        OverlapsVanish(g, b.high.value, b.low.value, g.bins);
      }
      RangeOfZeros(Shares(g, b), g.bins);
      RangeOfAdded(Histogram(g, Front(bars)), Shares(g, b), g.bins);
      forall k | 0 <= k < |bars| ensures HitsInside(g, bars[k]) {
        assert bars[k].high.Some? && bars[k].low.Some? ==> bars[k].high.value < bars[k].low.value;
      }
    }
  }
}
