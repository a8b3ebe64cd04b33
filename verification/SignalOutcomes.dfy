/** Signal outcomes: the truth labels of one signal, and the evaluation that writes each signal's
    outcome once. */
module SignalOutcomes {
  import opened Common

  // ------------------------------------------------------------------
  // Truth labels
  // ------------------------------------------------------------------

  /** High and low of a later bar; either may be missing. */
  datatype Bar = Bar(high: Option<real>, low: Option<real>)

  const EPSILON := 0.000000000001

  datatype Extreme = Mfe | Mae

  datatype Excursions = Excursions(mfe: real, mae: real)

  predicate Complete(b: Bar) {
    b.high.Some? && b.low.Some?
  }

  /** Only one of high and low is known. */
  predicate HalfBar(b: Bar) {
    b.high.Some? != b.low.Some?
  }

  ghost predicate NoHalfBars(rows: seq<Bar>) {
    forall i :: 0 <= i < |rows| ==> !HalfBar(rows[i])
  }

  function MaxHigh(rows: seq<Bar>): (m: Option<real>)
    ensures m.None? <==> forall i :: 0 <= i < |rows| ==> rows[i].high.None?
    ensures m.Some? ==> forall i :: 0 <= i < |rows| && rows[i].high.Some? ==> rows[i].high.value <= m.value
    ensures m.Some? ==> exists i :: 0 <= i < |rows| && rows[i].high == m
  {
    if rows == [] then None else
    var m := MaxHigh(Front(rows));
    var h := Last(rows).high;
    if h.None? then m else if m.None? || h.value > m.value then h else m
  }

  function MinLow(rows: seq<Bar>): (m: Option<real>)
    ensures m.None? <==> forall i :: 0 <= i < |rows| ==> rows[i].low.None?
    ensures m.Some? ==> forall i :: 0 <= i < |rows| && rows[i].low.Some? ==> m.value <= rows[i].low.value
    ensures m.Some? ==> exists i :: 0 <= i < |rows| && rows[i].low == m
  {
    if rows == [] then None else
    var m := MinLow(Front(rows));
    var l := Last(rows).low;
    if l.None? then m else if m.None? || l.value < m.value then l else m
  }

  /** Window-wide excursions for and against the signal. */
  function ComputeMfeMae(side: Side, entry: Option<real>, high: Option<real>, low: Option<real>): Option<Excursions> {
    if entry.None? || AbsReal(entry.value) <= EPSILON || high.None? || low.None? then None
    else if side.Short? then Some(Excursions(entry.value - low.value, high.value - entry.value))
    else Some(Excursions(high.value - entry.value, entry.value - low.value))
  }

  /** Known with a high, a low and an entry that is not zero; for a long the high is ahead and the low behind,
      for a short the other way round. */
  lemma MfeMaeExactly(side: Side, entry: Option<real>, high: Option<real>, low: Option<real>)
    ensures
      var e := ComputeMfeMae(side, entry, high, low);
      && (e.Some? <==> high.Some? && low.Some? && entry.Some?
                       && (entry.value > 0.000000000001 || entry.value < -0.000000000001))
      && (e.Some? && side == Long ==> e.value == Excursions(high.value - entry.value, entry.value - low.value))
      && (e.Some? && side == Short ==> e.value == Excursions(entry.value - low.value, high.value - entry.value))
  {
  }

  /** How far one complete bar went for (Mfe) or against (Mae) the signal. */
  function Excursion(b: Bar, side: Side, entry: real, which: Extreme): real
    requires Complete(b)
  {
    if which.Mfe? == side.Long? then b.high.value - entry else entry - b.low.value
  }

  /** `k` (from 1) is the first complete bar that reaches the largest excursion of the rows. */
  ghost predicate FirstExtreme(rows: seq<Bar>, side: Side, entry: real, which: Extreme, k: nat) {
    && 1 <= k <= |rows| && Complete(rows[k - 1])
    && (forall i :: 0 <= i < |rows| && Complete(rows[i]) ==>
          Excursion(rows[i], side, entry, which) <= Excursion(rows[k - 1], side, entry, which))
    && (forall i :: 0 <= i < k - 1 && Complete(rows[i]) ==>
          Excursion(rows[i], side, entry, which) < Excursion(rows[k - 1], side, entry, which))
  }

  method BarsToExtreme(rows: seq<Bar>, side: Side, entry: Option<real>, which: Extreme) returns (best: Option<nat>)
    ensures entry.None? ==> best.None?
    ensures entry.Some? && best.None? ==> forall i :: 0 <= i < |rows| ==> !Complete(rows[i])
    ensures entry.Some? && best.Some? ==> FirstExtreme(rows, side, entry.value, which, best.value)
  {
    best := None;
    if entry.None? || rows == [] {
      return;
    }
    var bestVal: Option<real> := None;
    for i := 0 to |rows|
      invariant best.Some? == bestVal.Some?
      invariant best.None? ==> forall j :: 0 <= j < i ==> !Complete(rows[j])
      invariant best.Some? ==> best.value <= i && FirstExtreme(rows[..i], side, entry.value, which, best.value)
      invariant best.Some? ==> bestVal.value == Excursion(rows[best.value - 1], side, entry.value, which)
    {
      ghost var before := rows[..i];
      assert forall j :: 0 <= j < i ==> rows[..i + 1][j] == before[j];
      if rows[i].high.None? || rows[i].low.None? {
        continue;
      }
      var val := Excursion(rows[i], side, entry.value, which);
      if bestVal.None? || val > bestVal.value {
        bestVal, best := Some(val), Some(i + 1);
      }
    }
    assert rows[..|rows|] == rows;
  }

  datatype Direction = UpTo | DownTo

  predicate BarReaches(b: Bar, level: real, direction: Direction) {
    Complete(b) && if direction.UpTo? then b.high.value >= level else b.low.value <= level
  }

  ghost predicate Hit(rows: seq<Bar>, level: real, direction: Direction) {
    exists i :: 0 <= i < |rows| && BarReaches(rows[i], level, direction)
  }

  method DidPriceReachLevel(rows: seq<Bar>, level: Option<real>, direction: Direction) returns (hit: Option<bool>)
    ensures hit.None? <==> level.None? || rows == []
    ensures hit.Some? ==> (hit.value <==> Hit(rows, level.value, direction))
  {
    if level.None? || rows == [] {
      return None;
    }
    for i := 0 to |rows|
      invariant forall j :: 0 <= j < i ==> !BarReaches(rows[j], level.value, direction)
    {
      if rows[i].high.None? || rows[i].low.None? {
        continue;
      }
      if direction.UpTo? && rows[i].high.value >= level.value {
        assert BarReaches(rows[i], level.value, direction);
        return Some(true);
      }
      if direction.DownTo? && rows[i].low.value <= level.value {
        assert BarReaches(rows[i], level.value, direction);
        return Some(true);
      }
    }
    return Some(false);
  }

  /** The labels of one signal that depend on the evaluation window. */
  datatype TruthLabels = TruthLabels(
    excursions: Option<Excursions>, barsToMfe: Option<nat>, barsToMae: Option<nat>,
    targetHit: Option<bool>, invalidationHit: Option<bool>)

  function Extent(e: Excursions, which: Extreme): real {
    if which.Mfe? then e.mfe else e.mae
  }

  /** On bars that have both prices or neither, the largest excursion of any bar is the window-wide
      excursion, so the first bar to reach it is where the window's extreme was reached. */
  lemma {:induction false} FirstExtremeIsWindowExtreme(rows: seq<Bar>, side: Side, entry: real, which: Extreme, k: nat)
    requires NoHalfBars(rows) && AbsReal(entry) > EPSILON && FirstExtreme(rows, side, entry, which, k)
    ensures
      var e := ComputeMfeMae(side, Some(entry), MaxHigh(rows), MinLow(rows));
      e.Some? && Excursion(rows[k - 1], side, entry, which) == Extent(e.value, which)
  {
    assert MaxHigh(rows).Some? && MinLow(rows).Some?;
    var h :| 0 <= h < |rows| && rows[h].high == MaxHigh(rows);
    var l :| 0 <= l < |rows| && rows[l].low == MinLow(rows);
    assert !HalfBar(rows[h]) && !HalfBar(rows[l]);
  }

  /** A half bar can make the two disagree: one that only knows its high moves the window-wide
      excursion and is skipped by the bar search. */
  lemma HalfBarsDisagree()
    ensures
      var rows := [Bar(Some(12.0), Some(9.0)), Bar(Some(20.0), None)];
      var e := ComputeMfeMae(Long, Some(10.0), MaxHigh(rows), MinLow(rows));
      && e == Some(Excursions(10.0, 1.0)) && FirstExtreme(rows, Long, 10.0, Mfe, 1)
      && Excursion(rows[0], Long, 10.0, Mfe) == 2.0
  {
    var rows := [Bar(Some(12.0), Some(9.0)), Bar(Some(20.0), None)];
    assert Front(rows) == [rows[0]] && Front([rows[0]]) == [];
    assert MaxHigh([rows[0]]) == Some(12.0) && MinLow([rows[0]]) == Some(9.0);
    assert MaxHigh(rows) == Some(20.0) && MinLow(rows) == Some(9.0);
  }

  /** The price that decides an excursion: the high for a long's mfe and a short's mae, else the low. */
  function Toward(side: Side, which: Extreme): Direction {
    if which.Mfe? == side.Long? then UpTo else DownTo
  }

  /** A complete bar that holds the window's own extreme in this direction. */
  predicate AtExtreme(rows: seq<Bar>, b: Bar, direction: Direction) {
    Complete(b) && if direction.UpTo? then b.high == MaxHigh(rows) else b.low == MinLow(rows)
  }

  ghost predicate ExtremeIsWhole(rows: seq<Bar>, direction: Direction) {
    exists i :: 0 <= i < |rows| && AtExtreme(rows, rows[i], direction)
  }

  /** No complete bar goes further than the window, and it goes as far exactly when it holds the extreme. */
  lemma BarMeetsExtent(rows: seq<Bar>, i: nat, side: Side, entry: real, which: Extreme, e: Option<Excursions>)
    requires i < |rows| && Complete(rows[i])
    requires e.Some? && e == ComputeMfeMae(side, Some(entry), MaxHigh(rows), MinLow(rows))
    ensures Excursion(rows[i], side, entry, which) <= Extent(e.value, which)
    ensures Excursion(rows[i], side, entry, which) == Extent(e.value, which)
       <==> AtExtreme(rows, rows[i], Toward(side, which))
  {
  }

  /** On any window, the first bar with the largest excursion has the window-wide excursion exactly when
      some complete bar holds the window's extreme; for mfe and mae, long and short. */
  lemma {:induction false} ExtremeAgreesExactly(
      rows: seq<Bar>, side: Side, entry: real, which: Extreme, k: nat, e: Option<Excursions>)
    requires FirstExtreme(rows, side, entry, which, k)
    requires e.Some? && e == ComputeMfeMae(side, Some(entry), MaxHigh(rows), MinLow(rows))
    ensures Excursion(rows[k - 1], side, entry, which) == Extent(e.value, which)
       <==> ExtremeIsWhole(rows, Toward(side, which))
  {
    BarMeetsExtent(rows, k - 1, side, entry, which, e);
    if i :| 0 <= i < |rows| && AtExtreme(rows, rows[i], Toward(side, which)) {
      BarMeetsExtent(rows, i, side, entry, which, e);
    }
  }

  /** A level is passed by the window's extreme in this direction. */
  predicate ExtremePasses(rows: seq<Bar>, level: real, direction: Direction) {
    if direction.UpTo? then MaxHigh(rows).Some? && MaxHigh(rows).value >= level
    else MinLow(rows).Some? && MinLow(rows).value <= level
  }

  lemma HitPasses(rows: seq<Bar>, level: real, direction: Direction)
    requires Hit(rows, level, direction)
    ensures ExtremePasses(rows, level, direction)
  {
    var i :| 0 <= i < |rows| && BarReaches(rows[i], level, direction);
    assert rows[i].high.Some? && rows[i].low.Some?;
  }

  lemma WholeExtremeHits(rows: seq<Bar>, level: real, direction: Direction)
    requires ExtremeIsWhole(rows, direction) && ExtremePasses(rows, level, direction)
    ensures Hit(rows, level, direction)
  {
    var i :| 0 <= i < |rows| && AtExtreme(rows, rows[i], direction);
    assert BarReaches(rows[i], level, direction);
  }

  predicate NoExtreme(rows: seq<Bar>, direction: Direction) {
    if direction.UpTo? then MaxHigh(rows).None? else MinLow(rows).None?
  }

  /** On any window, level hits agree with the window's extreme at every level exactly when some complete
      bar holds that extreme, or no bar knows one. */
  lemma HitAgreesExactly(rows: seq<Bar>, direction: Direction)
    ensures (forall level :: Hit(rows, level, direction) <==> ExtremePasses(rows, level, direction))
       <==> NoExtreme(rows, direction) || ExtremeIsWhole(rows, direction)
  {
    if NoExtreme(rows, direction) || ExtremeIsWhole(rows, direction) {
      forall level ensures Hit(rows, level, direction) <==> ExtremePasses(rows, level, direction) {
        if Hit(rows, level, direction) { HitPasses(rows, level, direction); }
        if ExtremePasses(rows, level, direction) { WholeExtremeHits(rows, level, direction); }
      }
    } else {
      var extreme := if direction.UpTo? then MaxHigh(rows).value else MinLow(rows).value;
      assert ExtremePasses(rows, extreme, direction);
      if Hit(rows, extreme, direction) {
        HitIsAtExtreme(rows, extreme, direction);
      }
      assert !Hit(rows, extreme, direction);
    }
  }

  lemma HitIsAtExtreme(rows: seq<Bar>, extreme: real, direction: Direction)
    requires Hit(rows, extreme, direction)
    requires if direction.UpTo? then MaxHigh(rows) == Some(extreme) else MinLow(rows) == Some(extreme)
    ensures ExtremeIsWhole(rows, direction)
  {
    var i :| 0 <= i < |rows| && BarReaches(rows[i], extreme, direction);
    assert AtExtreme(rows, rows[i], direction);
  }

  lemma NoHalfBarsIsWhole(rows: seq<Bar>, direction: Direction)
    requires NoHalfBars(rows) && !NoExtreme(rows, direction)
    ensures ExtremeIsWhole(rows, direction)
  {
    if direction.UpTo? {
      var i :| 0 <= i < |rows| && rows[i].high == MaxHigh(rows);
      assert !HalfBar(rows[i]) && AtExtreme(rows, rows[i], direction);
    } else {
      var i :| 0 <= i < |rows| && rows[i].low == MinLow(rows);
      assert !HalfBar(rows[i]) && AtExtreme(rows, rows[i], direction);
    }
  }

  /** Without half bars a level is reached by some bar exactly when the window's extreme passes it. */
  lemma HitIsExtremePast(rows: seq<Bar>, level: real, direction: Direction)
    requires NoHalfBars(rows)
    ensures Hit(rows, level, direction) <==> ExtremePasses(rows, level, direction)
  {
    HitAgreesExactly(rows, direction);
    if !NoExtreme(rows, direction) {
      NoHalfBarsIsWhole(rows, direction);
    }
  }

  function HitDirection(side: Side): Direction {
    if side.Long? then UpTo else DownTo
  }

  function MissDirection(side: Side): Direction {
    if side.Long? then DownTo else UpTo
  }

  /** The window's extreme passes a level ahead of the signal when the mfe covers the distance to it, and
      a level behind it when the mae does. */
  lemma PassIsExcursion(rows: seq<Bar>, side: Side, entry: real, level: real)
    requires ComputeMfeMae(side, Some(entry), MaxHigh(rows), MinLow(rows)).Some?
    ensures
      var e := ComputeMfeMae(side, Some(entry), MaxHigh(rows), MinLow(rows)).value;
      && (ExtremePasses(rows, level, HitDirection(side)) <==> e.mfe >= Signed(side, level - entry))
      && (ExtremePasses(rows, level, MissDirection(side)) <==> e.mae >= Signed(side, entry - level))
  {
  }

  /** At every level, hits ahead agree with the mfe exactly when a complete bar holds the extreme ahead,
      and hits behind agree with the mae exactly when a complete bar holds the extreme behind. */
  lemma HitIsExcursionPast(rows: seq<Bar>, side: Side, entry: real)
    requires ComputeMfeMae(side, Some(entry), MaxHigh(rows), MinLow(rows)).Some?
    ensures
      var e := ComputeMfeMae(side, Some(entry), MaxHigh(rows), MinLow(rows)).value;
      && ((forall level :: Hit(rows, level, HitDirection(side)) <==> e.mfe >= Signed(side, level - entry))
          <==> ExtremeIsWhole(rows, HitDirection(side)))
      && ((forall level :: Hit(rows, level, MissDirection(side)) <==> e.mae >= Signed(side, entry - level))
          <==> ExtremeIsWhole(rows, MissDirection(side)))
  {
    forall level
      ensures
        var e := ComputeMfeMae(side, Some(entry), MaxHigh(rows), MinLow(rows)).value;
        && (ExtremePasses(rows, level, HitDirection(side)) <==> e.mfe >= Signed(side, level - entry))
        && (ExtremePasses(rows, level, MissDirection(side)) <==> e.mae >= Signed(side, entry - level))
    {
      PassIsExcursion(rows, side, entry, level);
    }
    HitAgreesExactly(rows, HitDirection(side));
    HitAgreesExactly(rows, MissDirection(side));
  }

  /** The bar count points at the first bar whose excursion is the window's. */
  ghost predicate CountAgrees(rows: seq<Bar>, side: Side, entry: real, which: Extreme, k: Option<nat>, extent: real) {
    k.Some? && FirstExtreme(rows, side, entry, which, k.value)
    && Excursion(rows[k.value - 1], side, entry, which) == extent
  }

  lemma NoneIsWhole(rows: seq<Bar>, direction: Direction)
    requires forall i :: 0 <= i < |rows| ==> !Complete(rows[i])
    ensures !ExtremeIsWhole(rows, direction)
  {
  }

  lemma FoundAgrees(rows: seq<Bar>, side: Side, entry: real, which: Extreme, k: nat, extent: real)
    requires FirstExtreme(rows, side, entry, which, k)
    ensures CountAgrees(rows, side, entry, which, Some(k), extent)
       <==> Excursion(rows[k - 1], side, entry, which) == extent
  {
  }

  lemma FoundAgreesExactly(rows: seq<Bar>, side: Side, entry: real, which: Extreme, k: nat, e: Option<Excursions>)
    requires e.Some? && e == ComputeMfeMae(side, Some(entry), MaxHigh(rows), MinLow(rows))
    requires FirstExtreme(rows, side, entry, which, k)
    ensures CountAgrees(rows, side, entry, which, Some(k), Extent(e.value, which))
       <==> ExtremeIsWhole(rows, Toward(side, which))
  {
    ExtremeAgreesExactly(rows, side, entry, which, k, e);
    FoundAgrees(rows, side, entry, which, k, Extent(e.value, which));
  }

  lemma CountsAgreeExactly(
      rows: seq<Bar>, side: Side, entry: real, which: Extreme, k: Option<nat>, e: Option<Excursions>)
    requires e.Some? && e == ComputeMfeMae(side, Some(entry), MaxHigh(rows), MinLow(rows))
    requires k.None? ==> forall i :: 0 <= i < |rows| ==> !Complete(rows[i])
    requires k.Some? ==> FirstExtreme(rows, side, entry, which, k.value)
    ensures CountAgrees(rows, side, entry, which, k, Extent(e.value, which))
       <==> ExtremeIsWhole(rows, Toward(side, which))
  {
    if k.Some? {
      FoundAgreesExactly(rows, side, entry, which, k.value, e);
    } else {
      NoneIsWhole(rows, Toward(side, which));
    }
  }

  /** A hit says whether some complete bar reaches the level; it is unknown without level or bars. */
  ghost predicate HitMeans(rows: seq<Bar>, level: Option<real>, direction: Direction, hit: Option<bool>) {
    && (hit.None? <==> level.None? || rows == [])
    && (hit.Some? ==> (hit.value <==> Hit(rows, level.value, direction)))
  }

  /** The truth labels of one signal. The bar counts name the first bars whose excursions are the
      window's mfe and mae exactly when complete bars hold the window's extremes, as they do when there
      are no half bars; then the hits are exactly the levels those excursions cover. */
  method ComputeTruthLabels(
      rows: seq<Bar>, side: Side, entry: Option<real>, target: Option<real>, invalidation: Option<real>)
    returns (t: TruthLabels)
    ensures t.excursions == ComputeMfeMae(side, entry, MaxHigh(rows), MinLow(rows))
    ensures entry.None? ==> t.excursions.None? && t.barsToMfe.None? && t.barsToMae.None?
    ensures HitMeans(rows, target, HitDirection(side), t.targetHit)
    ensures HitMeans(rows, invalidation, MissDirection(side), t.invalidationHit)
    ensures t.excursions.Some? ==>
      && (CountAgrees(rows, side, entry.value, Mfe, t.barsToMfe, t.excursions.value.mfe)
          <==> ExtremeIsWhole(rows, HitDirection(side)))
      && (CountAgrees(rows, side, entry.value, Mae, t.barsToMae, t.excursions.value.mae)
          <==> ExtremeIsWhole(rows, MissDirection(side)))
    ensures t.excursions.Some? && target.Some? && ExtremeIsWhole(rows, HitDirection(side)) ==>
      t.targetHit == Some(t.excursions.value.mfe >= Signed(side, target.value - entry.value))
    ensures t.excursions.Some? && invalidation.Some? && ExtremeIsWhole(rows, MissDirection(side)) ==>
      t.invalidationHit == Some(t.excursions.value.mae >= Signed(side, entry.value - invalidation.value))
    ensures t.excursions.Some? && NoHalfBars(rows) ==>
      ExtremeIsWhole(rows, HitDirection(side)) && ExtremeIsWhole(rows, MissDirection(side))
  {
    var e := ComputeMfeMae(side, entry, MaxHigh(rows), MinLow(rows));
    var barsToMfe := BarsToExtreme(rows, side, entry, Mfe);
    var barsToMae := BarsToExtreme(rows, side, entry, Mae);
    var targetHit := DidPriceReachLevel(rows, target, HitDirection(side));
    var invalidationHit := DidPriceReachLevel(rows, invalidation, MissDirection(side));
    t := TruthLabels(e, barsToMfe, barsToMae, targetHit, invalidationHit);
    if e.Some? {
      CountsAgreeExactly(rows, side, entry.value, Mfe, barsToMfe, e);
      CountsAgreeExactly(rows, side, entry.value, Mae, barsToMae, e);
      HitIsExcursionPast(rows, side, entry.value);
      if NoHalfBars(rows) {
        NoHalfBarsIsWhole(rows, UpTo);
        NoHalfBarsIsWhole(rows, DownTo);
      }
    }
  }

  // ------------------------------------------------------------------
  // Evaluating each signal once
  // ------------------------------------------------------------------

  datatype Key = Key(symbol: string, timeframe: string)

  datatype JournalRow = JournalRow(id: string, key: Key, time: int)

  /** The rows of one symbol and timeframe, in journal order. */
  datatype Group = Group(key: Key, rows: seq<JournalRow>)

  predicate EarlierRow(a: JournalRow, b: JournalRow) {
    a.time < b.time
  }

  /** The journal as it is loaded: by event time, ties in file order. */
  function SortByTime(rows: seq<JournalRow>): seq<JournalRow> {
    SortBy(rows, EarlierRow)
  }

  /** Loading the journal sorts it by event time and loses no row. */
  lemma JournalIsOrdered(rows: seq<JournalRow>)
    ensures forall i, j :: 0 <= i < j < |SortByTime(rows)| ==> SortByTime(rows)[i].time <= SortByTime(rows)[j].time
    ensures multiset(SortByTime(rows)) == multiset(rows)
  {
    SortIsOrdered(rows, EarlierRow);
  }

  function Filter(rows: seq<JournalRow>, key: Key): seq<JournalRow> {
    if rows == [] then []
    else Filter(Front(rows), key) + if Last(rows).key == key then [Last(rows)] else []
  }

  lemma {:induction false} FilterConcat(a: seq<JournalRow>, b: seq<JournalRow>, key: Key)
    ensures Filter(a + b, key) == Filter(a, key) + Filter(b, key)
  {
    if b == [] {
      assert a + b == a;
    } else {
      assert Front(a + b) == a + Front(b);
      FilterConcat(a, Front(b), key);
    }
  }

  ghost predicate GroupsOf(rows: seq<JournalRow>, groups: seq<Group>) {
    && (forall i, j :: 0 <= i < j < |groups| ==> groups[i].key != groups[j].key)
    && (forall i :: 0 <= i < |groups| ==> groups[i].rows == Filter(rows, groups[i].key))
    && (forall i :: 0 <= i < |rows| ==> HasGroup(groups, rows[i].key))
  }

  lemma {:induction false} FilterKeepsOrder(rows: seq<JournalRow>, key: Key)
    requires OrderedBy(rows, EarlierRow)
    ensures OrderedBy(Filter(rows, key), EarlierRow)
    ensures forall r :: r in Filter(rows, key) ==> r in rows
  {
    if rows != [] {
      FilterKeepsOrder(Front(rows), key);
      var before := Filter(Front(rows), key);
      forall i | 0 <= i < |before| ensures !EarlierRow(Last(rows), before[i]) {
        assert before[i] in before && before[i] in Front(rows);
        var k :| 0 <= k < |Front(rows)| && Front(rows)[k] == before[i];
        assert rows[k] == before[i];
      }
    }
  }

  /** Grouping sorts each group by time again; after loading in time order that changes nothing. */
  lemma GroupsAreOrdered(journal: seq<JournalRow>, groups: seq<Group>, i: nat)
    requires GroupsOf(SortByTime(journal), groups) && i < |groups|
    ensures SortByTime(groups[i].rows) == groups[i].rows
  {
    SortIsOrdered(journal, EarlierRow);
    FilterKeepsOrder(SortByTime(journal), groups[i].key);
    SortIsIdle(groups[i].rows, EarlierRow);
  }

  method FindGroup(groups: seq<Group>, key: Key) returns (j: nat)
    ensures j <= |groups|
    ensures j < |groups| ==> groups[j].key == key
    ensures j == |groups| ==> !HasGroup(groups, key)
  {
    j := 0;
    while j < |groups| && groups[j].key != key
      invariant j <= |groups| && forall i :: 0 <= i < j ==> groups[i].key != key
    {
      j := j + 1;
    }
  }

  /** One more row joins the group of its key, which is new when `j` is past the end. */
  function Joined(groups: seq<Group>, j: nat, row: JournalRow): seq<Group>
    requires j <= |groups|
  {
    if j < |groups| then groups[j := Group(row.key, groups[j].rows + [row])] else groups + [Group(row.key, [row])]
  }

  lemma JoinedGroups(rows: seq<JournalRow>, groups: seq<Group>, j: nat, row: JournalRow)
    requires GroupsOf(rows, groups) && j <= |groups|
    requires if j < |groups| then groups[j].key == row.key else !HasGroup(groups, row.key)
    ensures GroupsOf(rows + [row], Joined(groups, j, row))
  {
    var groups' := Joined(groups, j, row);
    assert Front(rows + [row]) == rows;
    if j == |groups| {
      forall i | 0 <= i < |rows| ensures rows[i].key != row.key {
        assert HasGroup(groups, rows[i].key);
      }
      FilterAbsent(rows, row.key);
    }
    forall i | 0 <= i < |rows + [row]| ensures HasGroup(groups', (rows + [row])[i].key) {
      if i < |rows| {
        assert HasGroup(groups, rows[i].key);
        var k :| 0 <= k < |groups| && groups[k].key == rows[i].key;
        assert groups'[k].key == rows[i].key;
      } else {
        assert groups'[j].key == row.key;
      }
    }
  }

  method GroupJournalRows(rows: seq<JournalRow>) returns (groups: seq<Group>)
    ensures GroupsOf(rows, groups)
  {
    groups := [];
    for n := 0 to |rows|
      invariant GroupsOf(rows[..n], groups)
    {
      var j := FindGroup(groups, rows[n].key);
      JoinedGroups(rows[..n], groups, j, rows[n]);
      ghost var joined := Joined(groups, j, rows[n]);
      if j < |groups| {
        groups := groups[j := Group(rows[n].key, groups[j].rows + [rows[n]])];
      } else {
        groups := groups + [Group(rows[n].key, [rows[n]])];
      }
      assert groups == joined && rows[..n + 1] == rows[..n] + [rows[n]];
    }
    assert rows[..|rows|] == rows;
  }

  lemma {:induction false} FilterAbsent(rows: seq<JournalRow>, key: Key)
    requires forall i :: 0 <= i < |rows| ==> rows[i].key != key
    ensures Filter(rows, key) == []
  {
    if rows != [] {
      FilterAbsent(Front(rows), key);
    }
  }

  /** What the evaluation looks at: a signal and how many rows follow it in its group. */
  datatype Entry = Entry(id: string, later: nat)

  function Entries(rows: seq<JournalRow>): seq<Entry> {
    seq(|rows|, i requires 0 <= i < |rows| => Entry(rows[i].id, |rows| - 1 - i))
  }

  function AllEntries(groups: seq<Group>): seq<Entry> {
    if groups == [] then [] else AllEntries(Front(groups)) + Entries(Last(groups).rows)
  }

  predicate Ready(e: Entry, minLater: nat) {
    e.id != "" && e.later >= minLater
  }

  /** Ids the evaluation appends to the outcomes, in order. */
  function Written(es: seq<Entry>, known: set<string>, minLater: nat): seq<string> {
    if es == [] then [] else
    var w := Written(Front(es), known, minLater);
    var e := Last(es);
    if Ready(e, minLater) && e.id !in known && e.id !in w then w + [e.id] else w
  }

  /** Signals left for a later run. */
  function PendingCount(es: seq<Entry>, known: set<string>, minLater: nat): nat {
    if es == [] then 0 else
    var e := Last(es);
    PendingCount(Front(es), known, minLater) +
    if e.id != "" && e.id !in known && e.id !in Written(Front(es), known, minLater) && e.later < minLater then 1 else 0
  }

  ghost predicate Distinct(ids: seq<string>) {
    forall i, j :: 0 <= i < j < |ids| ==> ids[i] != ids[j]
  }

  /** Each ready signal ends up known, nothing is written twice, and only ready signals are written. */
  lemma {:induction false} WrittenComplete(es: seq<Entry>, known: set<string>, minLater: nat)
    ensures Distinct(Written(es, known, minLater))
    ensures forall i :: 0 <= i < |es| && Ready(es[i], minLater) ==>
      es[i].id in known || es[i].id in Written(es, known, minLater)
    ensures forall x :: x in Written(es, known, minLater) ==>
      x !in known && exists i :: 0 <= i < |es| && es[i].id == x && Ready(es[i], minLater)
  {
    if es != [] {
      WrittenComplete(Front(es), known, minLater);
      var w := Written(Front(es), known, minLater);
      forall x | x in Written(es, known, minLater)
        ensures x !in known && exists i :: 0 <= i < |es| && es[i].id == x && Ready(es[i], minLater)
      {
        if x in w {
          var i :| 0 <= i < |Front(es)| && Front(es)[i].id == x && Ready(Front(es)[i], minLater);
          assert es[i] == Front(es)[i];
        } else {
          assert Last(es).id == x;
        }
      }
      forall i | 0 <= i < |es| && Ready(es[i], minLater)
        ensures es[i].id in known || es[i].id in Written(es, known, minLater)
      {
        if i < |es| - 1 {
          assert Front(es)[i] == es[i];
        }
      }
    }
  }

  lemma KnownIdsAppend(known: set<string>, a: seq<string>, b: seq<string>)
    ensures known + KnownIds(a) + KnownIds(b) == known + KnownIds(a + b)
  {
    assert forall x :: x in a + b <==> x in a || x in b;
  }

  lemma {:induction false} WrittenConcat(a: seq<Entry>, b: seq<Entry>, known: set<string>, minLater: nat)
    ensures
      var w := Written(a, known, minLater);
      var known' := known + KnownIds(w);
      && Written(a + b, known, minLater) == w + Written(b, known', minLater)
      && PendingCount(a + b, known, minLater) == PendingCount(a, known, minLater) + PendingCount(b, known', minLater)
  {
    var w := Written(a, known, minLater);
    var known' := known + KnownIds(w);
    if b == [] {
      assert a + b == a;
    } else {
      assert Front(a + b) == a + Front(b);
      WrittenConcat(a, Front(b), known, minLater);
      var id := Last(b).id;
      var rest := Written(Front(b), known', minLater);
      assert id in known' || id in rest <==> id in known || id in w + rest;
    }
  }

  /** What the entries of one more group add to a run in progress. */
  lemma OneGroupMore(start: seq<string>, es: seq<Entry>, more: seq<Entry>, known: set<string>, minLater: nat)
    ensures
      var w, all := Written(es, known, minLater), Written(es + more, known, minLater);
      var known' := known + KnownIds(w);
      var added := Written(more, known', minLater);
      && start + w + added == start + all && |all| == |w| + |added|
      && known' + KnownIds(added) == known + KnownIds(all)
      && PendingCount(es + more, known, minLater)
         == PendingCount(es, known, minLater) + PendingCount(more, known', minLater)
  {
    var w := Written(es, known, minLater);
    var added := Written(more, known + KnownIds(w), minLater);
    WrittenConcat(es, more, known, minLater);
    KnownIdsAppend(known, w, added);
    ConcatAssociates(start, w, added);
  }

  /** When every ready signal is known already there is nothing to write. */
  lemma {:induction false} NothingToWrite(es: seq<Entry>, known: set<string>, minLater: nat)
    requires forall i :: 0 <= i < |es| && Ready(es[i], minLater) ==> es[i].id in known
    ensures Written(es, known, minLater) == []
  {
    if es != [] {
      assert forall i :: 0 <= i < |Front(es)| ==> Front(es)[i] == es[i];
      NothingToWrite(Front(es), known, minLater);
    }
  }

  function KnownIds(ids: seq<string>): set<string> {
    set x | x in ids
  }

  /** Entries whose id satisfies `f`. */
  function Tally(es: seq<Entry>, f: string -> bool): nat {
    if es == [] then 0 else Tally(Front(es), f) + if f(Last(es).id) then 1 else 0
  }

  function RowTally(rows: seq<JournalRow>, f: string -> bool): nat {
    if rows == [] then 0 else RowTally(Front(rows), f) + if f(Last(rows).id) then 1 else 0
  }

  function CountOf(es: seq<Entry>, x: string): nat {
    Tally(es, id => id == x)
  }

  function RowCountOf(rows: seq<JournalRow>, x: string): nat {
    RowTally(rows, id => id == x)
  }

  /** No id but the empty one occurs twice. */
  ghost predicate UniqueIds(rows: seq<JournalRow>) {
    forall x :: x != "" ==> RowCountOf(rows, x) <= 1
  }

  ghost predicate UniqueEntries(es: seq<Entry>) {
    forall x :: x != "" ==> CountOf(es, x) <= 1
  }

  lemma {:induction false} TallyFound(es: seq<Entry>, i: nat, f: string -> bool)
    requires i < |es| && f(es[i].id)
    ensures Tally(es, f) >= 1
  {
    if i < |es| - 1 {
      TallyFound(Front(es), i, f);
    }
  }

  /** With unique ids every entry that has one is evaluated, pending or already done. */
  lemma {:induction false} CountsAddUp(es: seq<Entry>, known: set<string>, minLater: nat)
    requires UniqueEntries(es)
    ensures |Written(es, known, minLater)| + PendingCount(es, known, minLater)
          + Tally(es, id => id != "" && id in known) == Tally(es, id => id != "")
  {
    if es != [] {
      var x := Last(es).id;
      assert UniqueEntries(Front(es)) by {
        forall y | y != "" ensures CountOf(Front(es), y) <= 1 {
          assert CountOf(es, y) <= 1;
        }
      }
      CountsAddUp(Front(es), known, minLater);
      assert x != "" ==> CountOf(es, x) <= 1;
      if x != "" && x in Written(Front(es), known, minLater) {
        WrittenComplete(Front(es), known, minLater);
        var i :| 0 <= i < |Front(es)| && Front(es)[i].id == x;
        TallyFound(Front(es), i, id => id == x);
      }
    }
  }

  // ------------------------------------------------------------------
  // Grouping loses no row
  // ------------------------------------------------------------------

  predicate HasGroup(groups: seq<Group>, key: Key) {
    exists j :: 0 <= j < |groups| && groups[j].key == key
  }

  function CoveredTally(rows: seq<JournalRow>, groups: seq<Group>, f: string -> bool): nat {
    if rows == [] then 0
    else CoveredTally(Front(rows), groups, f) + if HasGroup(groups, Last(rows).key) && f(Last(rows).id) then 1 else 0
  }

  lemma {:induction false} EntriesTally(rows: seq<JournalRow>, es: seq<Entry>, f: string -> bool)
    requires |es| == |rows| && forall i :: 0 <= i < |rows| ==> es[i].id == rows[i].id
    ensures Tally(es, f) == RowTally(rows, f)
  {
    if rows != [] {
      EntriesTally(Front(rows), Front(es), f);
    }
  }

  lemma {:induction false} TallyConcat(a: seq<Entry>, b: seq<Entry>, f: string -> bool)
    ensures Tally(a + b, f) == Tally(a, f) + Tally(b, f)
  {
    if b == [] {
      assert a + b == a;
    } else {
      assert Front(a + b) == a + Front(b);
      TallyConcat(a, Front(b), f);
    }
  }

  lemma {:induction false} OneMoreGroup(rows: seq<JournalRow>, groups: seq<Group>, g: Group, f: string -> bool)
    requires !HasGroup(groups, g.key)
    ensures CoveredTally(rows, groups + [g], f) == CoveredTally(rows, groups, f) + RowTally(Filter(rows, g.key), f)
  {
    if rows != [] {
      OneMoreGroup(Front(rows), groups, g, f);
      var key := Last(rows).key;
      assert HasGroup(groups + [g], key) <==> HasGroup(groups, key) || key == g.key by {
        assert (groups + [g])[|groups|] == g;
        if HasGroup(groups, key) {
          var j :| 0 <= j < |groups| && groups[j].key == key;
          assert (groups + [g])[j].key == key;
        }
      }
      if key == g.key {
        assert Front(Filter(Front(rows), key) + [Last(rows)]) == Filter(Front(rows), key);
      } else {
        assert Filter(Front(rows), g.key) + [] == Filter(Front(rows), g.key);
      }
    }
  }

  lemma {:induction false} NoGroups(rows: seq<JournalRow>, f: string -> bool)
    ensures CoveredTally(rows, [], f) == 0
  {
    if rows != [] {
      NoGroups(Front(rows), f);
    }
  }

  lemma {:induction false} GroupsTally(rows: seq<JournalRow>, groups: seq<Group>, f: string -> bool)
    requires forall i, j :: 0 <= i < j < |groups| ==> groups[i].key != groups[j].key
    requires forall i :: 0 <= i < |groups| ==> groups[i].rows == Filter(rows, groups[i].key)
    ensures Tally(AllEntries(groups), f) == CoveredTally(rows, groups, f)
  {
    if groups == [] {
      NoGroups(rows, f);
    } else {
      var g := Last(groups);
      GroupsTally(rows, Front(groups), f);
      OneMoreGroup(rows, Front(groups), g, f);
      assert groups == Front(groups) + [g];
      TallyConcat(AllEntries(Front(groups)), Entries(g.rows), f);
      EntriesTally(g.rows, Entries(g.rows), f);
    }
  }

  lemma {:induction false} AllCovered(rows: seq<JournalRow>, groups: seq<Group>, f: string -> bool)
    requires forall i :: 0 <= i < |rows| ==> HasGroup(groups, rows[i].key)
    ensures CoveredTally(rows, groups, f) == RowTally(rows, f)
  {
    if rows != [] {
      assert forall i :: 0 <= i < |Front(rows)| ==> Front(rows)[i] == rows[i];
      AllCovered(Front(rows), groups, f);
    }
  }

  lemma {:induction false} InsertTally(rows: seq<JournalRow>, row: JournalRow, f: string -> bool)
    ensures RowTally(InsertBy(rows, row, EarlierRow), f) == RowTally(rows, f) + if f(row.id) then 1 else 0
  {
    if rows == [] || !EarlierRow(row, Last(rows)) {
      assert Front(rows + [row]) == rows;
    } else {
      InsertTally(Front(rows), row, f);
      var rest := InsertBy(Front(rows), row, EarlierRow);
      assert Front(rest + [Last(rows)]) == rest;
    }
  }

  lemma {:induction false} SortTally(rows: seq<JournalRow>, f: string -> bool)
    ensures RowTally(SortByTime(rows), f) == RowTally(rows, f)
  {
    if rows != [] {
      SortTally(Front(rows), f);
      InsertTally(SortByTime(Front(rows)), Last(rows), f);
    }
  }

  /** Sorting and grouping keep every row: the entries have the journal's ids. */
  lemma EntriesAreJournal(journal: seq<JournalRow>, groups: seq<Group>, f: string -> bool)
    requires GroupsOf(SortByTime(journal), groups)
    ensures Tally(AllEntries(groups), f) == RowTally(journal, f)
  {
    var sorted := SortByTime(journal);
    GroupsTally(sorted, groups, f);
    AllCovered(sorted, groups, f);
    SortTally(journal, f);
  }

  // ------------------------------------------------------------------
  // The outcome file
  // ------------------------------------------------------------------

  datatype Summary = Summary(evaluated: nat, pending: nat, journalRows: nat)

  class OutcomeStore {
    var outcomes: seq<string>

    constructor ()
      ensures outcomes == []
    {
      outcomes := [];
    }

    ghost function Known(): set<string>
      reads this
    {
      KnownIds(outcomes)
    }

    method EvaluateGroupRows(rows: seq<JournalRow>, existing: set<string>, minLater: nat)
      returns (existing': set<string>, evaluated: nat, pending: nat)
      modifies this
      ensures outcomes == old(outcomes) + Written(Entries(rows), existing, minLater)
      ensures existing' == existing + KnownIds(Written(Entries(rows), existing, minLater))
      ensures evaluated == |Written(Entries(rows), existing, minLater)|
      ensures pending == PendingCount(Entries(rows), existing, minLater)
    {
      ghost var es := Entries(rows);
      existing', evaluated, pending := existing, 0, 0;
      for i := 0 to |rows|
        invariant outcomes == old(outcomes) + Written(es[..i], existing, minLater)
        invariant existing' == existing + KnownIds(Written(es[..i], existing, minLater))
        invariant evaluated == |Written(es[..i], existing, minLater)|
        invariant pending == PendingCount(es[..i], existing, minLater)
      {
        var id := rows[i].id;
        assert Front(es[..i + 1]) == es[..i] && Last(es[..i + 1]) == es[i];
        if id == "" || id in existing' {
          continue;
        }
        if |rows| - 1 - i < minLater {
          pending := pending + 1;
          continue;
        }
        outcomes := outcomes + [id];
        existing' := existing' + {id};
        evaluated := evaluated + 1;
      }
      assert es[..|rows|] == es;
    }

    method EvaluateGroups(gs: seq<Group>, minLater: nat) returns (evaluated: nat, pending: nat)
      modifies this
      ensures outcomes == old(outcomes) + Written(AllEntries(gs), old(Known()), minLater)
      ensures evaluated == |Written(AllEntries(gs), old(Known()), minLater)|
      ensures pending == PendingCount(AllEntries(gs), old(Known()), minLater)
    {
      var existing := KnownIds(outcomes);
      ghost var known, start, w, es := existing, outcomes, [], [];
      evaluated, pending := 0, 0;
      for n := 0 to |gs|
        invariant es == AllEntries(gs[..n]) && w == Written(es, known, minLater)
        invariant outcomes == start + w && existing == known + KnownIds(w)
        invariant evaluated == |w| && pending == PendingCount(es, known, minLater)
      {
        ghost var more := Entries(gs[n].rows);
        assert Front(gs[..n + 1]) == gs[..n];
        OneGroupMore(start, es, more, known, minLater);
        var e, p;
        existing, e, p := EvaluateGroupRows(gs[n].rows, existing, minLater);
        evaluated, pending := evaluated + e, pending + p;
        es := es + more;
        w := Written(es, known, minLater);
      }
      assert gs[..|gs|] == gs;
    }

    /** One evaluation run over the journal: the ready signals of every group that had no outcome get
        one, in group order, and the summary counts what happened. */
    method RunSignalOutcomeEvaluationOnce(journal: seq<JournalRow>, minLater: int)
      returns (r: Result<Summary, string>, ghost groups: seq<Group>)
      modifies this
      ensures minLater < 1 <==> r.Err?
      ensures r.Err? ==> outcomes == old(outcomes)
      ensures r.Ok? ==> GroupsOf(SortByTime(journal), groups)
      ensures r.Ok? ==> outcomes == old(outcomes) + Written(AllEntries(groups), old(Known()), minLater)
      ensures r.Ok? ==> r.value.journalRows == |journal| && r.value.evaluated == |outcomes| - |old(outcomes)|
      ensures r.Ok? ==> r.value.pending == PendingCount(AllEntries(groups), old(Known()), minLater)
    {
      groups := [];
      if minLater < 1 {
        return Err("min_future_bars must be >= 1"), groups;
      }
      var gs := GroupJournalRows(SortByTime(journal));
      groups := gs;
      var evaluated, pending := EvaluateGroups(gs, minLater);
      r := Ok(Summary(evaluated, pending, |journal|));
    }
  }

  /** Rows of the journal that come after row `p` in its group, once sorted. */
  function LaterInGroup(sorted: seq<JournalRow>, p: nat): nat
    requires p < |sorted|
  {
    |Filter(sorted[p + 1..], sorted[p].key)|
  }

  /** A journal row and its later rows appear as one entry of its group. */
  lemma RowHasEntry(sorted: seq<JournalRow>, groups: seq<Group>, p: nat) returns (k: nat)
    requires GroupsOf(sorted, groups) && p < |sorted|
    ensures k < |AllEntries(groups)| && AllEntries(groups)[k] == Entry(sorted[p].id, LaterInGroup(sorted, p))
  {
    var key := sorted[p].key;
    var j :| 0 <= j < |groups| && groups[j].key == sorted[p].key;
    assert sorted == sorted[..p] + [sorted[p]] + sorted[p + 1..];
    FilterConcat(sorted[..p] + [sorted[p]], sorted[p + 1..], key);
    FilterConcat(sorted[..p], [sorted[p]], key);
    assert Filter([sorted[p]], key) == [sorted[p]] by { assert Front([sorted[p]]) == []; }
    var i := |Filter(sorted[..p], key)|;
    assert groups[j].rows[i] == sorted[p];
    k := EntryOfGroup(groups, j, i);
  }

  lemma {:induction false} EntryOfGroup(groups: seq<Group>, j: nat, i: nat) returns (k: nat)
    requires j < |groups| && i < |groups[j].rows|
    ensures k < |AllEntries(groups)| && AllEntries(groups)[k] == Entries(groups[j].rows)[i]
  {
    if j == |groups| - 1 {
      k := |AllEntries(Front(groups))| + i;
    } else {
      k := EntryOfGroup(Front(groups), j, i);
    }
  }

  /** Evaluate-once completeness: after a run every signal with enough later rows in its group has
      exactly one outcome, and a second run on the same journal writes nothing. */
  lemma EvaluateOnce(journal: seq<JournalRow>, groups: seq<Group>, before: seq<string>, minLater: nat)
    requires GroupsOf(SortByTime(journal), groups) && Distinct(before)
    ensures
      var sorted := SortByTime(journal);
      var after := before + Written(AllEntries(groups), KnownIds(before), minLater);
      && Distinct(after)
      && (forall p :: 0 <= p < |sorted| && sorted[p].id != "" && LaterInGroup(sorted, p) >= minLater ==>
            sorted[p].id in after)
      && Written(AllEntries(groups), KnownIds(after), minLater) == []
  {
    var sorted := SortByTime(journal);
    var es := AllEntries(groups);
    var known := KnownIds(before);
    var after := before + Written(es, known, minLater);
    WrittenComplete(es, known, minLater);
    DistinctConcat(before, Written(es, known, minLater));
    forall p | 0 <= p < |sorted| && sorted[p].id != "" && LaterInGroup(sorted, p) >= minLater
      ensures sorted[p].id in after
    {
      var k := RowHasEntry(sorted, groups, p);
      assert Ready(es[k], minLater);
    }
    NothingToWrite(es, KnownIds(after), minLater);
  }

  lemma DistinctConcat(a: seq<string>, b: seq<string>)
    requires Distinct(a) && Distinct(b) && forall x :: x in b ==> x !in KnownIds(a)
    ensures Distinct(a + b)
  {
    forall i, j | 0 <= i < j < |a + b| ensures (a + b)[i] != (a + b)[j] {
      if i < |a| <= j {
        assert (a + b)[j] in b && (a + b)[i] in KnownIds(a);
      }
    }
  }

  /** With unique ids, evaluated, pending and already-done signals are all the rows that have an id. */
  lemma {:induction false} EvaluationCounts(
      journal: seq<JournalRow>, groups: seq<Group>, before: seq<string>, minLater: nat)
    requires GroupsOf(SortByTime(journal), groups) && UniqueIds(journal)
    ensures |Written(AllEntries(groups), KnownIds(before), minLater)|
          + PendingCount(AllEntries(groups), KnownIds(before), minLater)
          + RowTally(journal, id => id != "" && id in KnownIds(before))
         == RowTally(journal, id => id != "")
  {
    var es := AllEntries(groups);
    forall x | x != "" ensures CountOf(es, x) <= 1 {
      EntriesAreJournal(journal, groups, id => id == x);
      assert RowCountOf(journal, x) <= 1;
    }
    CountsAddUp(es, KnownIds(before), minLater);
    EntriesAreJournal(journal, groups, id => id != "" && id in KnownIds(before));
    EntriesAreJournal(journal, groups, id => id != "");
  }

  // ------------------------------------------------------------------
  // Many runs
  // ------------------------------------------------------------------

  /** One evaluation run: the journal it loads and its minimum of later bars. */
  datatype Evaluation = Evaluation(journal: seq<JournalRow>, minLater: nat)

  ghost predicate Finishes(before: seq<string>, e: Evaluation, after: seq<string>) {
    exists groups :: GroupsOf(SortByTime(e.journal), groups)
      && after == before + Written(AllEntries(groups), KnownIds(before), e.minLater)
  }

  /** A run that may stop between two appends: it adds the first outcomes of a run that finishes. */
  ghost predicate Evaluates(before: seq<string>, e: Evaluation, after: seq<string>) {
    exists whole :: Finishes(before, e, whole) && before <= after <= whole
  }

  /** Some row of the journal has this id and enough later rows in its group. */
  ghost predicate ReadyIn(e: Evaluation, x: string) {
    var sorted := SortByTime(e.journal);
    x != "" && exists p :: 0 <= p < |sorted| && sorted[p].id == x && LaterInGroup(sorted, p) >= e.minLater
  }

  lemma {:induction false} FilterPlace(rows: seq<JournalRow>, key: Key, i: nat) returns (p: nat)
    requires i < |Filter(rows, key)|
    ensures p < |rows| && rows[p] == Filter(rows, key)[i] && rows[p].key == key
    ensures |Filter(rows[p + 1..], key)| == |Filter(rows, key)| - 1 - i
  {
    if i == |Filter(Front(rows), key)| {
      p := |rows| - 1;
      assert rows[p + 1..] == [];
    } else {
      p := FilterPlace(Front(rows), key, i);
      FilterSuffix(rows, key, p + 1);
    }
  }

  lemma FilterSuffix(rows: seq<JournalRow>, key: Key, n: nat)
    requires n < |rows|
    ensures |Filter(rows[n..], key)| == |Filter(Front(rows)[n..], key)| + if Last(rows).key == key then 1 else 0
  {
    assert Front(rows[n..]) == Front(rows)[n..] && Last(rows[n..]) == Last(rows);
  }

  lemma {:induction false} EntryGroup(groups: seq<Group>, k: nat) returns (j: nat, i: nat)
    requires k < |AllEntries(groups)|
    ensures j < |groups| && i < |groups[j].rows| && AllEntries(groups)[k] == Entries(groups[j].rows)[i]
  {
    var front := AllEntries(Front(groups));
    if k < |front| {
      j, i := EntryGroup(Front(groups), k);
    } else {
      j, i := |groups| - 1, k - |front|;
    }
  }

  /** Every entry of the evaluation is a journal row with its later rows. */
  lemma EntryHasRow(sorted: seq<JournalRow>, groups: seq<Group>, k: nat) returns (p: nat)
    requires GroupsOf(sorted, groups) && k < |AllEntries(groups)|
    ensures p < |sorted| && AllEntries(groups)[k] == Entry(sorted[p].id, LaterInGroup(sorted, p))
  {
    var j, i := EntryGroup(groups, k);
    p := FilterPlace(sorted, groups[j].key, i);
  }

  lemma WrittenIsReady(e: Evaluation, groups: seq<Group>, known: set<string>, x: string)
    requires GroupsOf(SortByTime(e.journal), groups) && x in Written(AllEntries(groups), known, e.minLater)
    ensures ReadyIn(e, x)
  {
    var es := AllEntries(groups);
    WrittenComplete(es, known, e.minLater);
    var k :| 0 <= k < |es| && es[k].id == x && Ready(es[k], e.minLater);
    var p := EntryHasRow(SortByTime(e.journal), groups, k);
  }

  /** One run that finishes adds exactly the signals that are ready in its journal, each once. */
  lemma EvaluationAddsReady(before: seq<string>, e: Evaluation, after: seq<string>)
    requires Finishes(before, e, after) && Distinct(before)
    ensures Distinct(after) && before <= after
    ensures forall x :: x in after <==> x in before || ReadyIn(e, x)
  {
    var sorted := SortByTime(e.journal);
    var groups :| GroupsOf(sorted, groups)
      && after == before + Written(AllEntries(groups), KnownIds(before), e.minLater);
    var w := Written(AllEntries(groups), KnownIds(before), e.minLater);
    EvaluateOnce(e.journal, groups, before, e.minLater);
    forall x | x in w ensures ReadyIn(e, x) {
      WrittenIsReady(e, groups, KnownIds(before), x);
    }
  }

  /** One that stops adds only such signals, each once. */
  lemma StoppedAddsReady(before: seq<string>, e: Evaluation, after: seq<string>)
    requires Evaluates(before, e, after) && Distinct(before)
    ensures Distinct(after) && before <= after
    ensures forall x :: x in after ==> x in before || ReadyIn(e, x)
  {
    var whole :| Finishes(before, e, whole) && before <= after <= whole;
    EvaluationAddsReady(before, e, whole);
    assert forall i :: 0 <= i < |after| ==> after[i] == whole[i];
  }

  /** The outcomes after each of a series of runs, starting from none. */
  ghost predicate History(runs: seq<Evaluation>, outcomes: seq<seq<string>>) {
    && |outcomes| == |runs| + 1 && outcomes[0] == []
    && forall n :: 0 <= n < |runs| ==> Evaluates(outcomes[n], runs[n], outcomes[n + 1])
  }

  ghost predicate WasReady(runs: seq<Evaluation>, n: nat, x: string) {
    exists m :: 0 <= m < n && m < |runs| && ReadyIn(runs[m], x)
  }

  /** Run `m` of the history finished. */
  ghost predicate FinishedRun(runs: seq<Evaluation>, outcomes: seq<seq<string>>, m: nat) {
    m < |runs| && m + 1 < |outcomes| && Finishes(outcomes[m], runs[m], outcomes[m + 1])
  }

  ghost predicate WasReadyInFinished(runs: seq<Evaluation>, outcomes: seq<seq<string>>, n: nat, x: string) {
    exists m: nat :: m < n && FinishedRun(runs, outcomes, m) && ReadyIn(runs[m], x)
  }

  ghost predicate AllFinished(runs: seq<Evaluation>, outcomes: seq<seq<string>>, n: nat) {
    forall m: nat :: m < n && m < |runs| ==> FinishedRun(runs, outcomes, m)
  }

  lemma {:induction false} HistoryGrows(runs: seq<Evaluation>, outcomes: seq<seq<string>>, n: nat)
    requires History(runs, outcomes) && n <= |runs|
    ensures Distinct(outcomes[n])
    ensures n > 0 ==> outcomes[n - 1] <= outcomes[n]
  {
    if n > 0 {
      HistoryGrows(runs, outcomes, n - 1);
      assert Evaluates(outcomes[n - 1], runs[n - 1], outcomes[n - 1 + 1]);
      StoppedAddsReady(outcomes[n - 1], runs[n - 1], outcomes[n]);
    }
  }

  lemma {:induction false} OutcomeStays(runs: seq<Evaluation>, outcomes: seq<seq<string>>, m: nat, n: nat, x: string)
    requires History(runs, outcomes) && m <= n <= |runs| && x in outcomes[m]
    ensures x in outcomes[n]
    decreases n
  {
    if m < n {
      OutcomeStays(runs, outcomes, m, n - 1, x);
      HistoryGrows(runs, outcomes, n);
      var i :| 0 <= i < |outcomes[n - 1]| && outcomes[n - 1][i] == x;
      assert outcomes[n][i] == x;
    }
  }

  lemma ReadyIsAdded(runs: seq<Evaluation>, outcomes: seq<seq<string>>, m: nat, n: nat, x: string)
    requires History(runs, outcomes) && m < n <= |runs| && FinishedRun(runs, outcomes, m) && ReadyIn(runs[m], x)
    ensures x in outcomes[n]
  {
    HistoryGrows(runs, outcomes, m);
    EvaluationAddsReady(outcomes[m], runs[m], outcomes[m + 1]);
    OutcomeStays(runs, outcomes, m + 1, n, x);
  }

  lemma {:induction false} HistoryExplains(runs: seq<Evaluation>, outcomes: seq<seq<string>>, n: nat, x: string)
    requires History(runs, outcomes) && n <= |runs| && x in outcomes[n]
    ensures WasReady(runs, n, x)
  {
    assert n > 0;
    HistoryGrows(runs, outcomes, n - 1);
    assert Evaluates(outcomes[n - 1], runs[n - 1], outcomes[n - 1 + 1]);
    StoppedAddsReady(outcomes[n - 1], runs[n - 1], outcomes[n]);
    if x in outcomes[n - 1] {
      HistoryExplains(runs, outcomes, n - 1, x);
    }
  }

  /** Over any series of runs, whatever each finds in the journal and wherever it stops, the outcomes only
      grow and no signal ever gets two; a signal that was ready in a run that finished has one, and every
      signal that has one was ready in some run. When all runs finish these are the same signals. */
  lemma HistoryEvaluatesOnce(runs: seq<Evaluation>, outcomes: seq<seq<string>>, n: nat)
    requires History(runs, outcomes) && n <= |runs|
    ensures Distinct(outcomes[n])
    ensures n > 0 ==> outcomes[n - 1] <= outcomes[n]
    ensures forall x :: WasReadyInFinished(runs, outcomes, n, x) ==> x in outcomes[n]
    ensures forall x :: x in outcomes[n] ==> WasReady(runs, n, x)
    ensures AllFinished(runs, outcomes, n) ==> forall x :: x in outcomes[n] <==> WasReady(runs, n, x)
  {
    HistoryGrows(runs, outcomes, n);
    forall x, m: nat | m < n && FinishedRun(runs, outcomes, m) && ReadyIn(runs[m], x) ensures x in outcomes[n] {
      ReadyIsAdded(runs, outcomes, m, n, x);
    }
    forall x | x in outcomes[n] ensures WasReady(runs, n, x) {
      HistoryExplains(runs, outcomes, n, x);
    }
    if AllFinished(runs, outcomes, n) {
      forall x | WasReady(runs, n, x) ensures WasReadyInFinished(runs, outcomes, n, x) {
        var m: nat :| m < n && m < |runs| && ReadyIn(runs[m], x);
        assert FinishedRun(runs, outcomes, m);
      }
    }
  }
}
