/** The lifecycle of a research feature: observe, candidate, promote, decay, retire. */
module FeatureLifecycle {
  import opened Common

  datatype Status = Observe | Candidate | Promote | Decay | Retire

  const PROMOTION_MIN_SAMPLES := 40
  const DEMOTION_MIN_SAMPLES := 20
  const PROMOTE_QUALITY_THRESHOLD := 0.15
  const CANDIDATE_CORRELATION_THRESHOLD := 0.10
  const EPSILON := 0.000000000001

  /** One scoring run's view of a feature. */
  datatype Evaluation = Evaluation(samples: nat, correlation: Option<real>)

  function Confidence(e: Evaluation): real {
    MinReal(1.0, e.samples as real / PROMOTION_MIN_SAMPLES as real)
  }

  function Correlation(e: Evaluation): real {
    if e.correlation.Some? then e.correlation.value else 0.0
  }

  function PromotionScore(e: Evaluation): real {
    MaxReal(0.0, Correlation(e)) * Confidence(e)
  }

  function DecayScore(e: Evaluation): real {
    MaxReal(0.0, -Correlation(e)) * Confidence(e)
  }

  function Next(status: Status, e: Evaluation): Status {
    match status
    case Observe =>
      if e.samples >= PROMOTION_MIN_SAMPLES && e.correlation.Some?
         && e.correlation.value > CANDIDATE_CORRELATION_THRESHOLD
      then Candidate else Observe
    case Candidate =>
      if e.samples >= PROMOTION_MIN_SAMPLES && PromotionScore(e) >= PROMOTE_QUALITY_THRESHOLD then Promote
      else if e.samples >= DEMOTION_MIN_SAMPLES && DecayScore(e) > 0.6 then Decay
      else Candidate
    case Promote =>
      if e.samples >= DEMOTION_MIN_SAMPLES && DecayScore(e) > 0.7 then Decay else Promote
    case Decay =>
      if e.samples >= PROMOTION_MIN_SAMPLES && PromotionScore(e) >= PROMOTE_QUALITY_THRESHOLD then Candidate
      else if e.samples >= DEMOTION_MIN_SAMPLES && DecayScore(e) > 0.8 then Retire
      else Decay
    case Retire => Retire
  }

  /** The status after a run of evaluations of a new feature; runs without samples are skipped. */
  function After(run: seq<Evaluation>): Status {
    if run == [] then Observe
    else if Last(run).samples == 0 then After(Front(run))
    else Next(After(Front(run)), Last(run))
  }

  // ------------------------------------------------------------------
  // Exactly when a feature moves
  // ------------------------------------------------------------------

  /** Correlation against the trade, times the samples counted up to 40. */
  function Evidence(e: Evaluation): real {
    -Correlation(e) * (if e.samples < 40 then e.samples else 40) as real
  }

  lemma EvidenceIsDecay(e: Evaluation, bound: real)
    requires bound > 0.0
    ensures DecayScore(e) > bound <==> Evidence(e) > 40.0 * bound
  {
    var c, n := -Correlation(e), (if e.samples < 40 then e.samples else 40) as real;
    assert Confidence(e) * 40.0 == n;
    if c > 0.0 {
      assert (c * Confidence(e)) * 40.0 == c * (Confidence(e) * 40.0);
    } else {
      ProductNonNegative(-c, n);
      assert Evidence(e) == -((-c) * n);
    }
  }

  lemma FullConfidence(e: Evaluation)
    requires e.samples >= 40
    ensures Confidence(e) == 1.0
  {
    assert e.samples as real / 40.0 >= 1.0;
  }

  /** A feature moves exactly like this: from observe to candidate on 40 samples above 0.10; from candidate
      to promote on 40 samples from 0.15 up; to decay, and from decay to retire, on 20 samples against the
      trade beyond a bound that rises from step to step; from decay back to candidate like a promotion. */
  lemma NextExactly(e: Evaluation)
    ensures Next(Observe, e) == if e.samples >= 40 && Correlation(e) > 0.10 then Candidate else Observe
    ensures Next(Candidate, e) == (if e.samples >= 40 && Correlation(e) >= 0.15 then Promote
                                   else if e.samples >= 20 && Evidence(e) > 24.0 then Decay else Candidate)
    ensures Next(Promote, e) == if e.samples >= 20 && Evidence(e) > 28.0 then Decay else Promote
    ensures Next(Decay, e) == (if e.samples >= 40 && Correlation(e) >= 0.15 then Candidate
                               else if e.samples >= 20 && Evidence(e) > 32.0 then Retire else Decay)
    ensures Next(Retire, e) == Retire
  {
    EvidenceIsDecay(e, 0.6);
    EvidenceIsDecay(e, 0.7);
    EvidenceIsDecay(e, 0.8);
    if e.samples >= 40 {
      FullConfidence(e);
      assert PromotionScore(e) == MaxReal(0.0, Correlation(e));
    }
  }

  /** So a promoted feature was a candidate before, and a candidate was observed or decaying before. */
  lemma {:induction false} PromotePassesCandidate(run: seq<Evaluation>) returns (i: nat)
    requires After(run).Promote?
    ensures i < |run| && After(run[..i]).Candidate? && run[i].samples >= 40 && Correlation(run[i]) >= 0.15
  {
    var last := |run| - 1;
    assert run[..last] == Front(run);
    NextExactly(Last(run));
    if Last(run).samples == 0 || After(Front(run)).Promote? {
      i := PromotePassesCandidate(Front(run));
      assert Front(run)[..i] == run[..i];
    } else {
      i := last;
    }
  }

  /** And two good evaluations in a row take a new feature to promote. */
  lemma TwoGoodEvaluations(a: Evaluation, b: Evaluation)
    requires a.samples >= 40 && Correlation(a) > 0.10 && b.samples >= 40 && Correlation(b) >= 0.15
    ensures After([a, b]).Promote?
  {
    assert Front([a, b]) == [a] && Front([a]) == [];
    NextExactly(a);
    NextExactly(b);
    assert After([]) == Observe && After([a]) == Candidate;
  }

  // ------------------------------------------------------------------
  // What a status says about the past
  // ------------------------------------------------------------------

  predicate Promising(e: Evaluation) {
    e.samples >= PROMOTION_MIN_SAMPLES && Correlation(e) > CANDIDATE_CORRELATION_THRESHOLD
  }

  predicate Against(e: Evaluation, bound: real) {
    e.samples >= DEMOTION_MIN_SAMPLES && Correlation(e) < -bound
  }

  lemma {:induction false} DecayMeansAgainst(e: Evaluation, bound: real)
    requires bound >= 0.0 && DecayScore(e) > bound
    ensures Correlation(e) < -bound
  {
    var c := MaxReal(0.0, -Correlation(e));
    assert 0.0 <= Confidence(e) <= 1.0;
    ProductNonNegative(c, 1.0 - Confidence(e));
    assert c * Confidence(e) == c - c * (1.0 - Confidence(e));
  }

  ghost predicate WasPromising(run: seq<Evaluation>, i: nat) {
    i < |run| && Promising(run[i])
  }

  ghost predicate Fell(run: seq<Evaluation>, i: nat, j: nat) {
    i < j < |run| && Promising(run[i]) && Against(run[j], 0.6)
  }

  ghost predicate FellTwice(run: seq<Evaluation>, i: nat, j: nat, k: nat) {
    i < j < k < |run| && Promising(run[i]) && Against(run[j], 0.6) && Against(run[k], 0.8)
  }

  /** The history behind a status: a candidate or promoted feature once was promising, a decaying one
      then turned against the trade, a retired one did so twice, in separate later evaluations. */
  ghost predicate Explained(run: seq<Evaluation>) {
    match After(run)
    case Observe => true
    case Candidate => exists i :: WasPromising(run, i)
    case Promote => exists i :: WasPromising(run, i)
    case Decay => exists i, j :: Fell(run, i, j)
    case Retire => exists i, j, k :: FellTwice(run, i, j, k)
  }

  lemma {:induction false} StatusIsExplained(run: seq<Evaluation>)
    ensures Explained(run)
  {
    if run != [] {
      var front, e := Front(run), Last(run);
      StatusIsExplained(front);
      forall i | WasPromising(front, i) ensures WasPromising(run, i) {
      }
      forall i, j | Fell(front, i, j) ensures Fell(run, i, j) {
      }
      forall i, j, k | FellTwice(front, i, j, k) ensures FellTwice(run, i, j, k) {
      }
      var last := |run| - 1;
      if After(run) != After(front) {
        match After(run)
        case Candidate =>
          if After(front).Observe? {
            assert WasPromising(run, last);
          } else {
            var i, j :| Fell(front, i, j);
            assert WasPromising(run, i);
          }
        case Promote =>
        case Decay =>
          var i :| WasPromising(front, i);
          DecayMeansAgainst(e, 0.6);
          assert Fell(run, i, last);
        case Retire =>
          var i, j :| Fell(front, i, j);
          DecayMeansAgainst(e, 0.8);
          assert FellTwice(run, i, j, last);
      }
    }
  }

  /** Every run that ends in retire holds a promising evaluation, later one with correlation below
      -0.6, and later still a separate one below -0.8. */
  lemma RetireHistory(run: seq<Evaluation>) returns (i: nat, j: nat, k: nat)
    requires After(run).Retire?
    ensures i < j < k < |run|
    ensures run[i].samples >= 40 && Correlation(run[i]) > 0.10
    ensures run[j].samples >= 20 && Correlation(run[j]) < -0.6
    ensures run[k].samples >= 20 && Correlation(run[k]) < -0.8
  {
    StatusIsExplained(run);
    i, j, k :| FellTwice(run, i, j, k);
  }

  /** Retire is absorbing. */
  lemma {:induction false} RetireIsForever(run: seq<Evaluation>, more: seq<Evaluation>)
    requires After(run).Retire?
    ensures After(run + more).Retire?
  {
    if more == [] {
      assert run + more == run;
    } else {
      assert Front(run + more) == run + Front(more);
      RetireIsForever(run, Front(more));
    }
  }

  // ------------------------------------------------------------------
  // The correlation
  // ------------------------------------------------------------------

  datatype Outcome = Win | Loss | Scratch | Unlabelled

  /** A joined journal and outcome row, as far as one feature is concerned. */
  datatype JoinedRow = JoinedRow(value: Option<real>, outcome: Outcome)

  function NormalizedSpread(a: Option<real>, b: Option<real>): (r: Option<real>)
    ensures r.Some? <==> a.Some? && b.Some?
  {
    if a.None? || b.None? then None
    else Some((a.value - b.value) / MaxReal(MaxReal(AbsReal(a.value), AbsReal(b.value)), EPSILON))
  }

  lemma QuotientFacts(d: real, n: real)
    requires n > 0.0 && -2.0 * n <= d <= 2.0 * n
    ensures -2.0 <= d / n <= 2.0 && (d / n > 0.0 <==> d > 0.0)
  {
    QuotientBounds(d, n, 2.0);
    QuotientBounds(d, n, -2.0);
    QuotientBounds(d, n, 0.0);
  }

  lemma QuotientNegates(d: real, n: real)
    requires n > 0.0
    ensures (-d) / n == -(d / n)
  {
    var q := d / n;
    assert q * n == d;
    assert (-q) * n == -d;
  }

  /** It is the difference measured by the larger of the two sizes. */
  lemma SpreadExactly(a: real, b: real)
    ensures
      var scale := MaxReal(MaxReal(AbsReal(a), AbsReal(b)), 0.000000000001);
      NormalizedSpread(Some(a), Some(b)).value * scale == a - b
  {
    var scale := MaxReal(MaxReal(AbsReal(a), AbsReal(b)), EPSILON);
    assert ((a - b) / scale) * scale == a - b;
  }

  /** The spread lies between -2 and 2, is antisymmetric, and has the sign of the difference. */
  lemma SpreadBounds(a: real, b: real)
    ensures
      var s := NormalizedSpread(Some(a), Some(b)).value;
      -2.0 <= s <= 2.0 && (s > 0.0 <==> a > b) && NormalizedSpread(Some(b), Some(a)) == Some(-s)
  {
    var n := MaxReal(MaxReal(AbsReal(a), AbsReal(b)), EPSILON);
    assert n == MaxReal(MaxReal(AbsReal(b), AbsReal(a)), EPSILON);
    QuotientFacts(a - b, n);
    QuotientNegates(a - b, n);
    assert b - a == -(a - b);
  }

  function SumWhere(rows: seq<JoinedRow>, outcome: Option<Outcome>): real {
    if rows == [] then 0.0 else
    SumWhere(Front(rows), outcome) +
      if Last(rows).value.Some? && (outcome.None? || Last(rows).outcome == outcome.value)
      then Last(rows).value.value else 0.0
  }

  function CountWhere(rows: seq<JoinedRow>, outcome: Option<Outcome>): nat {
    if rows == [] then 0 else
    CountWhere(Front(rows), outcome) +
      if Last(rows).value.Some? && (outcome.None? || Last(rows).outcome == outcome.value) then 1 else 0
  }

  function MeanWhere(rows: seq<JoinedRow>, outcome: Outcome): Option<real> {
    if CountWhere(rows, Some(outcome)) == 0 then None
    else Some(SumWhere(rows, Some(outcome)) / CountWhere(rows, Some(outcome)) as real)
  }

  /** The known values of the rows with this outcome. */
  function ValuesOf(rows: seq<JoinedRow>, outcome: Outcome): seq<real> {
    if rows == [] then [] else
    var r := Last(rows);
    ValuesOf(Front(rows), outcome) + if r.value.Some? && r.outcome == outcome then [r.value.value] else []
  }

  function SumUp(xs: seq<real>): real {
    if xs == [] then 0.0 else SumUp(Front(xs)) + Last(xs)
  }

  lemma SumUpAppends(xs: seq<real>, x: real)
    ensures SumUp(xs + [x]) == SumUp(xs) + x
  {
    assert Front(xs + [x]) == xs;
  }

  lemma {:induction false} WhereIsValues(rows: seq<JoinedRow>, outcome: Outcome)
    ensures CountWhere(rows, Some(outcome)) == |ValuesOf(rows, outcome)|
    ensures SumWhere(rows, Some(outcome)) == SumUp(ValuesOf(rows, outcome))
  {
    if rows != [] {
      WhereIsValues(Front(rows), outcome);
      var front := ValuesOf(Front(rows), outcome);
      if Last(rows).value.Some? && Last(rows).outcome == outcome {
        SumUpAppends(front, Last(rows).value.value);
      } else {
        assert ValuesOf(rows, outcome) == front;
      }
    }
  }

  predicate IsMean(mean: real, total: real, n: nat) {
    mean * n as real == total
  }

  lemma QuotientIsMean(total: real, n: nat)
    requires n > 0
    ensures IsMean(total / n as real, total, n)
  {
  }

  /** The mean of an outcome is that of the known values of its rows. */
  lemma MeanOfValues(rows: seq<JoinedRow>, outcome: Outcome)
    ensures
      var xs := ValuesOf(rows, outcome);
      var mean := MeanWhere(rows, outcome);
      if xs == [] then mean.None? else mean.Some? && IsMean(mean.value, SumUp(xs), |xs|)
  {
    WhereIsValues(rows, outcome);
    if ValuesOf(rows, outcome) != [] {
      QuotientIsMean(SumUp(ValuesOf(rows, outcome)), |ValuesOf(rows, outcome)|);
    }
  }

  /** A row counts as a sample exactly when its value is known. */
  lemma {:induction false} SamplesAreKnown(rows: seq<JoinedRow>)
    ensures CountWhere(rows, None) == |set i | 0 <= i < |rows| && rows[i].value.Some?|
  {
    var known := set i | 0 <= i < |rows| && rows[i].value.Some?;
    if rows != [] {
      SamplesAreKnown(Front(rows));
      var before := set i | 0 <= i < |Front(rows)| && Front(rows)[i].value.Some?;
      assert known == before + if Last(rows).value.Some? then {|rows| - 1} else {};
    } else {
      assert known == {};
    }
  }

  method ComputeFeatureCorrelation(rows: seq<JoinedRow>) returns (e: Evaluation)
    ensures e.samples == CountWhere(rows, None)
    ensures e.correlation == NormalizedSpread(MeanWhere(rows, Win), MeanWhere(rows, Loss))
  {
    var samples, wins, losses, winSum, lossSum := 0, 0, 0, 0.0, 0.0;
    for i := 0 to |rows|
      invariant samples == CountWhere(rows[..i], None)
      invariant wins == CountWhere(rows[..i], Some(Win)) <= samples
      invariant losses == CountWhere(rows[..i], Some(Loss)) <= samples
      invariant winSum == SumWhere(rows[..i], Some(Win)) && lossSum == SumWhere(rows[..i], Some(Loss))
    {
      assert Front(rows[..i + 1]) == rows[..i];
      if rows[i].value.None? {
        continue;
      }
      samples := samples + 1;
      if rows[i].outcome.Win? {
        wins, winSum := wins + 1, winSum + rows[i].value.value;
      } else if rows[i].outcome.Loss? {
        losses, lossSum := losses + 1, lossSum + rows[i].value.value;
      }
    }
    assert rows[..|rows|] == rows;
    if samples == 0 {
      return Evaluation(0, None);
    }
    var avgWin := if wins > 0 then Some(winSum / wins as real) else None;
    var avgLoss := if losses > 0 then Some(lossSum / losses as real) else None;
    e := Evaluation(samples, NormalizedSpread(avgWin, avgLoss));
  }

  // ------------------------------------------------------------------
  // The lifecycle table, updated in place
  // ------------------------------------------------------------------

  datatype LifecycleRow = LifecycleRow(current: Status, previous: Option<Status>, last: Evaluation, changedAt: int)

  class LifecycleStore {
    var rows: map<string, LifecycleRow>
    /** Every evaluation a feature has had since it was first seen. */
    ghost var history: map<string, seq<Evaluation>>

    ghost predicate Valid()
      reads this
    {
      && history.Keys == rows.Keys
      && forall f :: f in rows ==> rows[f].current == After(history[f])
    }

    constructor ()
      ensures Valid() && rows == map[]
    {
      rows, history := map[], map[];
    }

    ghost function HistoryOf(feature: string): seq<Evaluation>
      reads this
    {
      if feature in history then history[feature] else []
    }

    method UpsertFeatureLifecycle(feature: string, e: Evaluation, now: int) returns (transitioned: bool)
      requires Valid() && e.samples > 0
      modifies this
      ensures Valid() && history == old(history)[feature := old(HistoryOf(feature)) + [e]]
      ensures feature in rows && rows == old(rows)[feature := rows[feature]] && rows[feature].last == e
      ensures transitioned <==> rows[feature].current != After(old(HistoryOf(feature)))
      ensures feature in old(rows) && transitioned ==>
        rows[feature].previous == Some(old(rows)[feature].current) && rows[feature].changedAt == now
      ensures feature in old(rows) && !transitioned ==>
        rows[feature].previous == None && rows[feature].changedAt == old(rows)[feature].changedAt
    {
      var current := if feature in rows then rows[feature].current else Observe;
      var next := Next(current, e);
      transitioned := next != current;
      ghost var before := HistoryOf(feature);
      assert Front(before + [e]) == before;
      history := history[feature := before + [e]];
      if feature in rows {
        rows := rows[feature := LifecycleRow(next, if transitioned then Some(current) else None, e,
                                             if transitioned then now else rows[feature].changedAt)];
      } else {
        rows := rows[feature := LifecycleRow(next, None, e, now)];
      }
    }

    /** One scoring pass over a feature's joined rows; a feature without samples is left alone. */
    method EvaluateFeature(feature: string, joined: seq<JoinedRow>, now: int)
      requires Valid()
      modifies this
      ensures Valid()
      ensures CountWhere(joined, None) == 0 ==> rows == old(rows) && history == old(history)
      ensures CountWhere(joined, None) > 0 ==>
        var e := Evaluation(CountWhere(joined, None),
                            NormalizedSpread(MeanWhere(joined, Win), MeanWhere(joined, Loss)));
        feature in rows && history == old(history)[feature := old(HistoryOf(feature)) + [e]]
        && rows[feature].current == After(old(HistoryOf(feature)) + [e])
        && forall f :: f in old(rows) && f != feature ==> f in rows && rows[f] == old(rows)[f]
    {
      var e := ComputeFeatureCorrelation(joined);
      if e.samples == 0 {
        return;
      }
      var transitioned := UpsertFeatureLifecycle(feature, e, now);
    }
  }
}
