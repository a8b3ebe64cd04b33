/** Walk-forward policy selection: the selector simulation and the policy audit, both of which may
    only use rows that came before the ones they are judged on. */
module WalkForward {
  import opened Common

  datatype Label = Winner | Loser | Scratch | Unknown

  /** One evaluated execution outcome. An empty policy stands for none. */
  datatype Row = Row(
    id: int, at: int, policy: string, policySide: Option<Side>, direction: Option<Side>,
    pnlPoints: Option<real>, pnlPct: Option<real>, outcome: Label, cohort: string)

  // ------------------------------------------------------------------
  // Statistics of a row list
  // ------------------------------------------------------------------

  function CountIf(rows: seq<Row>, p: Row -> bool): nat {
    if rows == [] then 0 else CountIf(Front(rows), p) + if p(Last(rows)) then 1 else 0
  }

  /** Sum of the values that are present. */
  function Total(rows: seq<Row>, f: Row -> Option<real>): real {
    if rows == [] then 0.0
    else Total(Front(rows), f) + if f(Last(rows)).Some? then f(Last(rows)).value else 0.0
  }

  function Average(rows: seq<Row>, f: Row -> Option<real>): Option<real> {
    var n := CountIf(rows, r => f(r).Some?);
    if n == 0 then None else Some(Total(rows, f) / n as real)
  }

  function Ratio(part: nat, whole: nat): real {
    if whole == 0 then 0.0 else part as real / whole as real
  }

  function OrElse(x: Option<real>, default: real): real {
    if x.Some? then x.value else default
  }

  lemma {:induction false} CountOfSplit(a: seq<Row>, b: seq<Row>, p: Row -> bool)
    ensures CountIf(a + b, p) == CountIf(a, p) + CountIf(b, p)
  {
    if b == [] {
      assert a + b == a;
    } else {
      assert Front(a + b) == a + Front(b);
      CountOfSplit(a, Front(b), p);
    }
  }

  lemma {:induction false} TotalOfSplit(a: seq<Row>, b: seq<Row>, f: Row -> Option<real>)
    ensures Total(a + b, f) == Total(a, f) + Total(b, f)
  {
    if b == [] {
      assert a + b == a;
    } else {
      assert Front(a + b) == a + Front(b);
      TotalOfSplit(a, Front(b), f);
    }
  }

  lemma CountWithout(l: seq<Row>, x: Row, r: seq<Row>, p: Row -> bool)
    ensures CountIf(l + [x] + r, p) == CountIf(l + r, p) + if p(x) then 1 else 0
  {
    CountOfSplit(l + [x], r, p);
    assert Front(l + [x]) == l;
    CountOfSplit(l, r, p);
  }

  lemma TotalWithout(l: seq<Row>, x: Row, r: seq<Row>, f: Row -> Option<real>)
    ensures Total(l + [x] + r, f) == Total(l + r, f) + if f(x).Some? then f(x).value else 0.0
  {
    TotalOfSplit(l + [x], r, f);
    assert Front(l + [x]) == l;
    TotalOfSplit(l, r, f);
  }

  /** Statistics do not depend on the order of the rows. */
  lemma {:induction false} StatisticsIgnoreOrder(a: seq<Row>, b: seq<Row>, p: Row -> bool, f: Row -> Option<real>)
    requires multiset(a) == multiset(b)
    ensures CountIf(a, p) == CountIf(b, p) && Total(a, f) == Total(b, f)
    decreases |a|
  {
    if a == [] {
      assert |multiset(b)| == 0 && b == [];
    } else {
      assert Last(a) in multiset(b);
      var i :| 0 <= i < |b| && b[i] == Last(a);
      RemoveSame(a, b, i);
      StatisticsIgnoreOrder(Front(a), b[..i] + b[i + 1..], p, f);
      assert b == b[..i] + [b[i]] + b[i + 1..];
      CountWithout(b[..i], b[i], b[i + 1..], p);
      TotalWithout(b[..i], b[i], b[i + 1..], f);
    }
  }

  // ------------------------------------------------------------------
  // Ranking by name
  // ------------------------------------------------------------------

  /** Sort key of a candidate: larger numbers first, in this order, then the smaller name. */
  datatype Score = Score(first: real, second: real, third: real, fourth: real)

  function Less(a: string, b: string): bool {
    if b == "" then false
    else if a == "" then true
    else if a[0] != b[0] then a[0] < b[0]
    else Less(a[1..], b[1..])
  }

  lemma LessIsTotal(a: string, b: string)
    ensures a != b ==> Less(a, b) || Less(b, a)
    ensures !(Less(a, b) && Less(b, a)) && !Less(a, a)
  {
    if a != "" && b != "" && a[0] == b[0] {
      LessIsTotal(a[1..], b[1..]);
      assert a == [a[0]] + a[1..] && b == [b[0]] + b[1..];
    }
    if a != "" {
      LessIsTotal(a[1..], a[1..]);
    }
  }

  lemma LessIsTransitive(a: string, b: string, c: string)
    requires Less(a, b) && Less(b, c)
    ensures Less(a, c)
  {
    if a != "" && a[0] == b[0] && b[0] == c[0] {
      LessIsTransitive(a[1..], b[1..], c[1..]);
    }
  }

  predicate Better(x: Score, a: string, y: Score, b: string) {
    if x.first != y.first then x.first > y.first
    else if x.second != y.second then x.second > y.second
    else if x.third != y.third then x.third > y.third
    else if x.fourth != y.fourth then x.fourth > y.fourth
    else Less(a, b)
  }

  lemma BetterIsTotal(x: Score, a: string, y: Score, b: string)
    ensures a != b ==> Better(x, a, y, b) || Better(y, b, x, a)
    ensures !(Better(x, a, y, b) && Better(y, b, x, a))
  {
    LessIsTotal(a, b);
  }

  lemma BetterIsTransitive(x: Score, a: string, y: Score, b: string, z: Score, c: string)
    requires Better(x, a, y, b) && Better(y, b, z, c)
    ensures Better(x, a, z, c)
  {
    if Less(a, b) && Less(b, c) {
      LessIsTransitive(a, b, c);
    }
  }

  /** The name that stands first when the eligible names are sorted by score. */
  function Choose(names: seq<string>, eligible: string -> bool, rank: string -> Score): Option<string> {
    if names == [] then None else
    var best := Choose(Front(names), eligible, rank);
    var name := Last(names);
    if !eligible(name) then best
    else if best.None? || Better(rank(name), name, rank(best.value), best.value) then Some(name)
    else best
  }

  /** `best` is eligible and strictly before every other eligible name. */
  ghost predicate UniqueBest(names: seq<string>, eligible: string -> bool, rank: string -> Score, best: string) {
    && best in names && eligible(best)
    && forall n :: n in names && eligible(n) && n != best ==> Better(rank(best), best, rank(n), n)
  }

  lemma {:induction false} ChooseIsBest(names: seq<string>, eligible: string -> bool, rank: string -> Score)
    ensures
      var c := Choose(names, eligible, rank);
      if c.Some? then UniqueBest(names, eligible, rank, c.value) else forall n :: n in names ==> !eligible(n)
  {
    if names != [] {
      ChooseIsBest(Front(names), eligible, rank);
      var best := Choose(Front(names), eligible, rank);
      var name := Last(names);
      assert forall n :: n in names <==> n in Front(names) || n == name;
      if best.Some? && eligible(name) {
        BetterIsTotal(rank(name), name, rank(best.value), best.value);
        forall n | n in names && eligible(n) && n != name && Better(rank(name), name, rank(best.value), best.value)
          ensures Better(rank(name), name, rank(n), n)
        {
          if n != best.value {
            BetterIsTransitive(rank(name), name, rank(best.value), best.value, rank(n), n);
          }
        }
      }
    }
  }

  /** The choice depends on which names there are, not on their order. */
  lemma ChoiceIgnoresOrder(
      a: seq<string>, b: seq<string>, eligible: string -> bool, eligible': string -> bool,
      rank: string -> Score, rank': string -> Score)
    requires forall n :: n in a <==> n in b
    requires forall n :: eligible(n) == eligible'(n) && rank(n) == rank'(n)
    ensures Choose(a, eligible, rank) == Choose(b, eligible', rank')
  {
    ChooseIsBest(a, eligible, rank);
    ChooseIsBest(b, eligible', rank');
    var x, y := Choose(a, eligible, rank), Choose(b, eligible', rank');
    if x.Some? && y.Some? && x != y {
      BetterIsTotal(rank(x.value), x.value, rank(y.value), y.value);
    }
  }

  /** Names in order of first appearance. */
  function NamesOf(rows: seq<Row>, f: Row -> string): seq<string> {
    if rows == [] then [] else
    var names := NamesOf(Front(rows), f);
    if f(Last(rows)) in names then names else names + [f(Last(rows))]
  }

  lemma {:induction false} NamesAreThose(rows: seq<Row>, f: Row -> string)
    ensures forall n :: n in NamesOf(rows, f) <==> exists r :: r in rows && f(r) == n
  {
    if rows != [] {
      NamesAreThose(Front(rows), f);
      assert forall r :: r in rows <==> r in Front(rows) || r == Last(rows);
    }
  }

  lemma NamesIgnoreOrder(a: seq<Row>, b: seq<Row>, f: Row -> string)
    requires multiset(a) == multiset(b)
    ensures forall n :: n in NamesOf(a, f) <==> n in NamesOf(b, f)
  {
    NamesAreThose(a, f);
    NamesAreThose(b, f);
    assert forall r :: r in a <==> r in multiset(a);
    assert forall r :: r in b <==> r in multiset(b);
  }

  // ------------------------------------------------------------------
  // The selector
  // ------------------------------------------------------------------

  /** Whether following the policy's side would have paid; None when it cannot be told. */
  function DirectionCorrect(r: Row): Option<bool> {
    if r.policySide.None? || r.direction.None? || r.pnlPoints.None? then None
    else if r.direction == r.policySide then Some(r.pnlPoints.value > 0.0)
    else Some(r.pnlPoints.value < 0.0)
  }

  function PolicyCount(rows: seq<Row>, policy: string): nat {
    CountIf(rows, (r: Row) => r.policy == policy)
  }

  /** Score, expectancy and direction-correct rate of a policy. */
  function PolicyScore(rows: seq<Row>, policy: string): Score {
    var expectancy := OrElse(Average(rows, (r: Row) => if r.policy == policy then r.pnlPoints else None), 0.0);
    var correct := CountIf(rows, (r: Row) => r.policy == policy && DirectionCorrect(r) == Some(true));
    var judged := CountIf(rows, (r: Row) => r.policy == policy && DirectionCorrect(r).Some?);
    var rate := Ratio(correct, judged);
    Score(expectancy * rate, expectancy, rate, 0.0)
  }

  predicate PolicyEligible(rows: seq<Row>, policy: string, minCount: nat) {
    policy != "" && PolicyCount(rows, policy) >= minCount
  }

  function SelectTop(rows: seq<Row>, minCount: nat): Option<string> {
    Choose(NamesOf(rows, (r: Row) => r.policy), n => PolicyEligible(rows, n, minCount), n => PolicyScore(rows, n))
  }

  lemma PolicyScoreIgnoresOrder(a: seq<Row>, b: seq<Row>, policy: string)
    requires multiset(a) == multiset(b)
    ensures PolicyScore(a, policy) == PolicyScore(b, policy) && PolicyCount(a, policy) == PolicyCount(b, policy)
  {
    var f := (r: Row) => if r.policy == policy then r.pnlPoints else None;
    StatisticsIgnoreOrder(a, b, r => f(r).Some?, f);
    StatisticsIgnoreOrder(a, b, (r: Row) => r.policy == policy, f);
    StatisticsIgnoreOrder(a, b, (r: Row) => r.policy == policy && DirectionCorrect(r) == Some(true), f);
    StatisticsIgnoreOrder(a, b, (r: Row) => r.policy == policy && DirectionCorrect(r).Some?, f);
  }

  /** Following the policy's side pays exactly when the points are won on that side: those of the outcome
      when the direction was that side, and their negative when it was the other. */
  lemma DirectionCorrectExactly(r: Row)
    ensures DirectionCorrect(r).Some? <==> r.policySide.Some? && r.direction.Some? && r.pnlPoints.Some?
    ensures DirectionCorrect(r).Some? ==>
      var won := if r.direction.value == r.policySide.value then r.pnlPoints.value else -r.pnlPoints.value;
      DirectionCorrect(r).value <==> won > 0.0
  {
  }

  /** The rows of a list that satisfy `p`. */
  function Where(rows: seq<Row>, p: Row -> bool): seq<Row> {
    if rows == [] then [] else Where(Front(rows), p) + if p(Last(rows)) then [Last(rows)] else []
  }

  function Points(rows: seq<Row>): real {
    if rows == [] then 0.0
    else Points(Front(rows)) + if Last(rows).pnlPoints.Some? then Last(rows).pnlPoints.value else 0.0
  }

  lemma {:induction false} CountIsWhere(rows: seq<Row>, p: Row -> bool)
    ensures CountIf(rows, p) == |Where(rows, p)|
  {
    if rows != [] {
      CountIsWhere(Front(rows), p);
    }
  }

  lemma {:induction false} TotalIsPoints(rows: seq<Row>, policy: string)
    ensures Total(rows, (r: Row) => if r.policy == policy then r.pnlPoints else None)
         == Points(Where(rows, (r: Row) => r.policy == policy))
  {
    if rows != [] {
      TotalIsPoints(Front(rows), policy);
      var front := Where(Front(rows), (r: Row) => r.policy == policy);
      assert Front(front + [Last(rows)]) == front && front + [] == front;
    }
  }

  /** `x` is the mean of `n` numbers with this total, and `missing` when there are none. */
  predicate IsMean(x: real, total: real, n: nat, missing: real) {
    if n == 0 then x == missing else x * n as real == total
  }

  lemma QuotientIsMean(total: real, n: nat, missing: real)
    requires n > 0
    ensures IsMean(total / n as real, total, n, missing)
  {
  }

  lemma AverageIsMean(rows: seq<Row>, f: Row -> Option<real>, missing: real)
    ensures IsMean(OrElse(Average(rows, f), missing), Total(rows, f), CountIf(rows, r => f(r).Some?), missing)
    ensures Average(rows, f).None? <==> CountIf(rows, r => f(r).Some?) == 0
  {
    var n := CountIf(rows, r => f(r).Some?);
    if n > 0 {
      QuotientIsMean(Total(rows, f), n, missing);
    }
  }

  lemma RatioIsMean(part: nat, whole: nat)
    ensures IsMean(Ratio(part, whole), part as real, whole, 0.0)
  {
    if whole > 0 {
      QuotientIsMean(part as real, whole, 0.0);
    }
  }

  /** A policy is eligible exactly when it has a name and at least the asked number of rows. */
  lemma EligibleExactly(rows: seq<Row>, policy: string, minCount: nat)
    ensures PolicyEligible(rows, policy, minCount)
       <==> policy != "" && |Where(rows, (r: Row) => r.policy == policy)| >= minCount
  {
    CountIsWhere(rows, (r: Row) => r.policy == policy);
  }

  /** Expectancy is the mean of the policy's known points. */
  lemma ExpectancyMeans(rows: seq<Row>, policy: string)
    ensures IsMean(PolicyScore(rows, policy).second, Points(Where(rows, (r: Row) => r.policy == policy)),
                   |Where(rows, (r: Row) => r.policy == policy && r.pnlPoints.Some?)|, 0.0)
  {
    var f := (r: Row) => if r.policy == policy then r.pnlPoints else None;
    var priced := (r: Row) => r.policy == policy && r.pnlPoints.Some?;
    SameCount(rows, r => f(r).Some?, priced);
    CountIsWhere(rows, priced);
    TotalIsPoints(rows, policy);
    AverageIsMean(rows, f, 0.0);
  }

  /** The rate is the share of the policy's judged rows that went its way. */
  lemma RateMeans(rows: seq<Row>, policy: string)
    ensures
      IsMean(PolicyScore(rows, policy).third,
             |Where(rows, (r: Row) => r.policy == policy && DirectionCorrect(r) == Some(true))| as real,
             |Where(rows, (r: Row) => r.policy == policy && DirectionCorrect(r).Some?)|, 0.0)
  {
    var right := (r: Row) => r.policy == policy && DirectionCorrect(r) == Some(true);
    var judged := (r: Row) => r.policy == policy && DirectionCorrect(r).Some?;
    CountIsWhere(rows, judged);
    CountIsWhere(rows, right);
    RatioIsMean(CountIf(rows, right), CountIf(rows, judged));
  }

  /** The score is their product, then expectancy, then the rate. */
  lemma PolicyScoreOrder(rows: seq<Row>, policy: string)
    ensures
      var s := PolicyScore(rows, policy);
      s.first == s.second * s.third && s.fourth == 0.0
  {
  }

  lemma {:induction false} SameCount(rows: seq<Row>, p: Row -> bool, q: Row -> bool)
    requires forall r :: p(r) == q(r)
    ensures CountIf(rows, p) == CountIf(rows, q)
  {
    if rows != [] {
      SameCount(Front(rows), p, q);
    }
  }

  /** The selected policy is the unique best under score, expectancy, rate and name, and the order of
      the history does not matter. */
  lemma SelectionIsUniqueBest(rows: seq<Row>, other: seq<Row>, minCount: nat)
    requires multiset(rows) == multiset(other)
    ensures
      var eligible := (n: string) => PolicyEligible(rows, n, minCount);
      var c := SelectTop(rows, minCount);
      if c.Some? then UniqueBest(NamesOf(rows, (r: Row) => r.policy), eligible, n => PolicyScore(rows, n), c.value)
      else forall r :: r in rows ==> !eligible(r.policy)
    ensures SelectTop(rows, minCount) == SelectTop(other, minCount)
  {
    var name := (r: Row) => r.policy;
    var eligible, rank := (n: string) => PolicyEligible(rows, n, minCount), (n: string) => PolicyScore(rows, n);
    var eligible', rank' := (n: string) => PolicyEligible(other, n, minCount), (n: string) => PolicyScore(other, n);
    ChooseIsBest(NamesOf(rows, name), eligible, rank);
    NamesAreThose(rows, name);
    NamesIgnoreOrder(rows, other, name);
    forall n ensures eligible(n) == eligible'(n) && rank(n) == rank'(n) {
      PolicyScoreIgnoresOrder(rows, other, n);
    }
    ChoiceIgnoresOrder(NamesOf(rows, name), NamesOf(other, name), eligible, eligible', rank, rank');
  }

  datatype Step = Step(
    index: nat, selectedPolicy: Option<string>, observed: string, selected: bool,
    pnlPoints: Option<real>, directionCorrect: Option<bool>)

  function MakeStep(row: Row, index: nat, choice: Option<string>): Step {
    var selected := choice == Some(row.policy);
    Step(index, choice, row.policy, selected,
         if selected then row.pnlPoints else None, if selected then DirectionCorrect(row) else None)
  }

  function StepAt(rows: seq<Row>, k: nat, minCount: nat): Step
    requires k < |rows|
  {
    MakeStep(rows[k], k + 1, SelectTop(rows[..k], minCount))
  }

  /** The steps over chronological rows: each decides from the rows before its own. */
  function Walk(rows: seq<Row>, minCount: nat): seq<Step> {
    seq(|rows|, k requires 0 <= k < |rows| => StepAt(rows, k, minCount))
  }

  /** Walk-forward honesty: the steps on the first rows are the first steps on all rows. */
  lemma WalkIsPrefixStable(rows: seq<Row>, n: nat, minCount: nat)
    requires n <= |rows|
    ensures Walk(rows[..n], minCount) == Walk(rows, minCount)[..n]
  {
    forall k | 0 <= k < n ensures Walk(rows[..n], minCount)[k] == Walk(rows, minCount)[k] {
      assert rows[..n][..k] == rows[..k];
    }
  }

  /** What a step chooses depends on nothing but the rows before its own. */
  lemma StepLooksBack(rows: seq<Row>, other: seq<Row>, k: nat, minCount: nat)
    requires k < |rows| && k < |other| && rows[..k] == other[..k]
    ensures Walk(rows, minCount)[k].selectedPolicy == Walk(other, minCount)[k].selectedPolicy
  {
  }

  /** The step chooses the unique best policy of the rows before its own, or nothing when none of them is
      eligible, and it counts as selected when its own row follows that policy. */
  ghost predicate HonestStep(rows: seq<Row>, k: nat, minCount: nat, step: Step)
    requires k < |rows|
  {
    var past := rows[..k];
    && (if step.selectedPolicy.Some?
        then UniqueBest(NamesOf(past, (r: Row) => r.policy), n => PolicyEligible(past, n, minCount),
                        n => PolicyScore(past, n), step.selectedPolicy.value)
        else forall r :: r in past ==> !PolicyEligible(past, r.policy, minCount))
    && step.index == k + 1 && step.observed == rows[k].policy
    && (step.selected <==> step.selectedPolicy == Some(rows[k].policy))
    && step.pnlPoints == (if step.selected then rows[k].pnlPoints else None)
    && step.directionCorrect == (if step.selected then DirectionCorrect(rows[k]) else None)
  }

  ghost predicate HonestSteps(rows: seq<Row>, steps: seq<Step>, minCount: nat) {
    |steps| == |rows| && forall k :: 0 <= k < |rows| ==> HonestStep(rows, k, minCount, steps[k])
  }

  lemma WalkIsHonest(rows: seq<Row>, minCount: nat)
    ensures HonestSteps(rows, Walk(rows, minCount), minCount)
  {
    forall k | 0 <= k < |rows| ensures HonestStep(rows, k, minCount, Walk(rows, minCount)[k]) {
      SelectionIsUniqueBest(rows[..k], rows[..k], minCount);
    }
  }

  /** So the first step selects nothing. */
  lemma FirstStepSelectsNothing(rows: seq<Row>, minCount: nat)
    requires rows != []
    ensures Walk(rows, minCount)[0].selectedPolicy == None && !Walk(rows, minCount)[0].selected
  {
    WalkIsHonest(rows, minCount);
    assert HonestStep(rows, 0, minCount, Walk(rows, minCount)[0]);
    NamesAreThose(rows[..0], (r: Row) => r.policy);
  }

  // ------------------------------------------------------------------
  // Chronological order
  // ------------------------------------------------------------------

  predicate Earlier(a: Row, b: Row) {
    a.at < b.at || (a.at == b.at && a.id < b.id)
  }

  function Chronological(rows: seq<Row>): seq<Row> {
    SortBy(rows, Earlier)
  }

  /** The rows in order of time, and of id at one time; none is lost. */
  lemma ChronologicalIsOrdered(rows: seq<Row>)
    ensures multiset(Chronological(rows)) == multiset(rows)
    ensures forall i, j :: 0 <= i < j < |Chronological(rows)| ==>
      var a, b := Chronological(rows)[i], Chronological(rows)[j];
      a.at < b.at || (a.at == b.at && a.id <= b.id)
  {
    SortIsOrdered(rows, Earlier);
  }

  /** No two rows share both time and id. */
  ghost predicate UniqueStamps(rows: seq<Row>) {
    forall r, q :: r in multiset(rows) && q in multiset(rows) && r.at == q.at && r.id == q.id ==>
      r == q && multiset(rows)[r] == 1
  }

  ghost predicate StrictOrder(rows: seq<Row>) {
    forall i, j :: 0 <= i < j < |rows| ==> Earlier(rows[i], rows[j])
  }

  lemma LastIsLast(a: seq<Row>, b: seq<Row>)
    requires StrictOrder(a) && StrictOrder(b) && multiset(a) == multiset(b) && a != []
    ensures b != [] && Last(a) == Last(b)
  {
    assert Last(a) in multiset(b);
    var i :| 0 <= i < |b| && b[i] == Last(a);
    assert Last(b) in multiset(a);
    var j :| 0 <= j < |a| && a[j] == Last(b);
  }

  lemma {:induction false} StrictOrderIsUnique(a: seq<Row>, b: seq<Row>)
    requires StrictOrder(a) && StrictOrder(b) && multiset(a) == multiset(b)
    ensures a == b
    decreases |a|
  {
    if a == [] {
      assert |multiset(b)| == 0 && b == [];
    } else {
      LastIsLast(a, b);
      RemoveSame(a, b, |b| - 1);
      assert b[..|b| - 1] + b[|b| - 1 + 1..] == Front(b);
      StrictOrderIsUnique(Front(a), Front(b));
      assert a == Front(a) + [Last(a)] && b == Front(b) + [Last(b)];
    }
  }

  lemma TwicePresent(b: seq<Row>, i: nat, j: nat)
    requires i < j < |b| && b[i] == b[j]
    ensures multiset(b)[b[i]] >= 2
  {
    assert b == b[..i] + [b[i]] + b[i + 1..j] + [b[j]] + b[j + 1..];
  }

  lemma UniqueIsStrict(rows: seq<Row>)
    requires OrderedBy(rows, Earlier) && UniqueStamps(rows)
    ensures StrictOrder(rows)
  {
    forall i, j | 0 <= i < j < |rows| ensures Earlier(rows[i], rows[j]) {
      assert rows[i] in multiset(rows) && rows[j] in multiset(rows);
      if rows[i].at == rows[j].at && rows[i].id == rows[j].id {
        TwicePresent(rows, i, j);
      }
    }
  }

  /** The order in which rows come in does not change the simulation. */
  lemma WalkIgnoresInputOrder(rows: seq<Row>, other: seq<Row>, minCount: nat)
    requires multiset(rows) == multiset(other) && UniqueStamps(rows)
    ensures Walk(Chronological(rows), minCount) == Walk(Chronological(other), minCount)
  {
    var a, b := Chronological(rows), Chronological(other);
    SortIsOrdered(rows, Earlier);
    SortIsOrdered(other, Earlier);
    UniqueIsStrict(a);
    UniqueIsStrict(b);
    StrictOrderIsUnique(a, b);
  }

  // ------------------------------------------------------------------
  // The simulation
  // ------------------------------------------------------------------

  /** The best eligible policy of a history: the head of its sorted statistics. */
  method SelectTopFromHistory(history: seq<Row>, minCount: nat) returns (top: Option<string>)
    ensures top == SelectTop(history, minCount)
  {
    var names: seq<string> := [];
    for i := 0 to |history|
      invariant names == NamesOf(history[..i], (r: Row) => r.policy)
    {
      assert Front(history[..i + 1]) == history[..i];
      if history[i].policy !in names {
        names := names + [history[i].policy];
      }
    }
    assert history[..|history|] == history;
    ghost var eligible := (n: string) => PolicyEligible(history, n, minCount);
    ghost var rank := (n: string) => PolicyScore(history, n);
    top := None;
    for i := 0 to |names|
      invariant top == Choose(names[..i], eligible, rank)
    {
      assert Front(names[..i + 1]) == names[..i];
      var name := names[i];
      if PolicyEligible(history, name, minCount) {
        if top.None? || Better(PolicyScore(history, name), name, PolicyScore(history, top.value), top.value) {
          top := Some(name);
        }
      }
    }
    assert names[..|names|] == names;
  }

  datatype Metrics = Metrics(wins: nat, losses: nat, pnlPoints: real)

  function Add(m: Metrics, step: Step): Metrics {
    if !step.selected then m else
    Metrics(m.wins + if step.directionCorrect == Some(true) then 1 else 0,
            m.losses + if step.directionCorrect == Some(false) then 1 else 0,
            m.pnlPoints + OrElse(step.pnlPoints, 0.0))
  }

  function MetricsOf(steps: seq<Step>): Metrics {
    if steps == [] then Metrics(0, 0, 0.0) else Add(MetricsOf(Front(steps)), Last(steps))
  }

  method AccumulateStepMetrics(m: Metrics, step: Step) returns (m': Metrics)
    ensures m' == Add(m, step)
  {
    m' := m;
    if !step.selected {
      return;
    }
    if step.directionCorrect == Some(true) {
      m' := m'.(wins := m.wins + 1);
    } else if step.directionCorrect == Some(false) {
      m' := m'.(losses := m.losses + 1);
    }
    if step.pnlPoints.Some? {
      m' := m'.(pnlPoints := m.pnlPoints + step.pnlPoints.value);
    }
  }

  lemma MetricsOfNext(steps: seq<Step>, step: Step)
    ensures MetricsOf(steps + [step]) == Add(MetricsOf(steps), step)
  {
    assert Front(steps + [step]) == steps;
  }

  function StepCount(steps: seq<Step>, p: Step -> bool): nat {
    if steps == [] then 0 else StepCount(Front(steps), p) + if p(Last(steps)) then 1 else 0
  }

  function StepPoints(steps: seq<Step>): real {
    if steps == [] then 0.0
    else StepPoints(Front(steps))
         + if Last(steps).selected && Last(steps).pnlPoints.Some? then Last(steps).pnlPoints.value else 0.0
  }

  /** Wins and losses count the selected steps that were right and wrong, and the points are those of the
      selected steps. */
  lemma {:induction false} MetricsMean(steps: seq<Step>)
    ensures MetricsOf(steps).wins == StepCount(steps, (s: Step) => s.selected && s.directionCorrect == Some(true))
    ensures MetricsOf(steps).losses == StepCount(steps, (s: Step) => s.selected && s.directionCorrect == Some(false))
    ensures MetricsOf(steps).pnlPoints == StepPoints(steps)
  {
    if steps != [] {
      MetricsMean(Front(steps));
    }
  }

  method WalkRows(rows: seq<Row>, minCount: nat) returns (steps: seq<Step>, metrics: Metrics)
    ensures steps == Walk(rows, minCount) && metrics == MetricsOf(steps) && HonestSteps(rows, steps, minCount)
  {
    var history: seq<Row> := [];
    steps, metrics := [], Metrics(0, 0, 0.0);
    ghost var walk := Walk(rows, minCount);
    for k := 0 to |rows|
      invariant history == rows[..k] && steps == walk[..k] && metrics == MetricsOf(steps)
    {
      var choice := SelectTopFromHistory(history, minCount);
      var step := MakeStep(rows[k], k + 1, choice);
      MetricsOfNext(steps, step);
      metrics := AccumulateStepMetrics(metrics, step);
      assert step == walk[k];
      steps := steps + [step];
      history := history + [rows[k]];
    }
    WalkIsHonest(rows, minCount);
  }

  datatype Simulation = Simulation(steps: seq<Step>, metrics: Metrics, baseline: Option<string>)

  /** The simulation walks the rows in time order; the policy that hindsight would pick serves as
      baseline and never reaches a step. */
  method SimulateSelector(rows: seq<Row>, minCount: int) returns (sim: Simulation)
    ensures
      var least := if minCount < 1 then 1 else minCount;
      && sim.steps == Walk(Chronological(rows), least) && sim.metrics == MetricsOf(sim.steps)
      && sim.baseline == SelectTop(Chronological(rows), least)
      && HonestSteps(Chronological(rows), sim.steps, least)
  {
    var least := if minCount < 1 then 1 else minCount;
    var sorted := Chronological(rows);
    var steps, metrics := WalkRows(sorted, least);
    var baseline := SelectTopFromHistory(sorted, least);
    sim := Simulation(steps, metrics, baseline);
  }

  // ------------------------------------------------------------------
  // The policy audit
  // ------------------------------------------------------------------

  datatype Scoring = ExpectancyPct | ExpectancyPoints | WinRate | AvgPnlPct | Blended

  const MISSING_METRIC := -1000000000000000000.0

  predicate Labeled(r: Row) { !r.outcome.Unknown? }

  function CohortCount(rows: seq<Row>, cohort: string): nat {
    CountIf(rows, (r: Row) => r.cohort == cohort)
  }

  function CohortWinRate(rows: seq<Row>, cohort: string): real {
    Ratio(CountIf(rows, (r: Row) => r.cohort == cohort && r.outcome.Winner?),
          CountIf(rows, (r: Row) => r.cohort == cohort && Labeled(r)))
  }

  function ExpectancyOf(rows: seq<Row>, cohort: string, points: bool): Option<real> {
    Average(rows, (r: Row) =>
      if r.cohort == cohort && Labeled(r) then (if points then r.pnlPoints else r.pnlPct) else None)
  }

  function RankingScore(rows: seq<Row>, cohort: string, mode: Scoring, minSamples: nat): real
    requires minSamples > 0
  {
    match mode
    case ExpectancyPct => OrElse(ExpectancyOf(rows, cohort, false), MISSING_METRIC)
    case ExpectancyPoints => OrElse(ExpectancyOf(rows, cohort, true), MISSING_METRIC)
    case WinRate => CohortWinRate(rows, cohort)
    case AvgPnlPct => OrElse(Average(rows, (r: Row) => if r.cohort == cohort then r.pnlPct else None), MISSING_METRIC)
    case Blended =>
      var total := CohortCount(rows, cohort);
      (0.7 * OrElse(ExpectancyOf(rows, cohort, false), 0.0) + 0.3 * CohortWinRate(rows, cohort))
        * (total as real / (total + minSamples) as real)
  }

  function CohortScore(rows: seq<Row>, cohort: string, mode: Scoring, minSamples: nat): Score
    requires minSamples > 0
  {
    Score(RankingScore(rows, cohort, mode, minSamples),
          OrElse(ExpectancyOf(rows, cohort, false), MISSING_METRIC),
          CohortWinRate(rows, cohort), CohortCount(rows, cohort) as real)
  }

  /** The cohort the history recommends. */
  function Recommend(history: seq<Row>, mode: Scoring, minSamples: nat): Option<string>
    requires minSamples > 0
  {
    Choose(NamesOf(history, (r: Row) => r.cohort), n => CohortCount(history, n) >= minSamples,
           n => CohortScore(history, n, mode, minSamples))
  }

  /** `best` has enough samples and ranks strictly before every other cohort that has. */
  ghost predicate BestCohort(history: seq<Row>, mode: Scoring, minSamples: nat, best: string)
    requires minSamples > 0
  {
    && CohortCount(history, best) >= minSamples
    && forall r :: r in history && CohortCount(history, r.cohort) >= minSamples && r.cohort != best ==>
         Better(CohortScore(history, best, mode, minSamples), best,
                CohortScore(history, r.cohort, mode, minSamples), r.cohort)
  }

  lemma RecommendIsBest(history: seq<Row>, mode: Scoring, minSamples: nat)
    requires minSamples > 0
    ensures
      var c := Recommend(history, mode, minSamples);
      if c.Some? then BestCohort(history, mode, minSamples, c.value)
      else forall r :: r in history ==> CohortCount(history, r.cohort) < minSamples
  {
    var name := (r: Row) => r.cohort;
    ChooseIsBest(NamesOf(history, name), n => CohortCount(history, n) >= minSamples,
                 n => CohortScore(history, n, mode, minSamples));
    NamesAreThose(history, name);
    assert forall r :: r in history ==> name(r) in NamesOf(history, name);
  }

  /** How often and how well a cohort did in a slice of rows. */
  datatype Forward = Forward(count: nat, expectancy: Option<real>)

  function Measure(rows: seq<Row>, cohort: string): Forward {
    Forward(CohortCount(rows, cohort), ExpectancyOf(rows, cohort, true))
  }

  datatype AuditRow = AuditRow(cutoff: nat, recommended: string, forward: Forward)

  /** Settings of an audit: how a history recommends, how a forward slice is measured, and the pace. */
  datatype Audit = Audit(
    recommend: seq<Row> -> Option<string>, measure: (seq<Row>, string) -> Forward,
    start: nat, stepSize: nat, horizon: nat)

  predicate ValidAudit(a: Audit) {
    a.start > 0 && a.stepSize > 0 && a.horizon > 0
  }

  function AuditAt(rows: seq<Row>, end: nat, a: Audit): seq<AuditRow> {
    if end >= |rows| then [] else
    var choice := a.recommend(rows[..end]);
    var top := if end + a.horizon < |rows| then end + a.horizon else |rows|;
    if choice.None? then [] else [AuditRow(end, choice.value, a.measure(rows[end..top], choice.value))]
  }

  /** How many cutoffs `start`, `start + step`, ... lie below `limit`. */
  function CutoffCount(start: nat, limit: nat, step: nat): nat
    requires step > 0
    decreases if start < limit then limit - start else 0
  {
    if start >= limit then 0 else 1 + CutoffCount(start + step, limit, step)
  }

  function Cutoff(start: nat, step: nat, k: nat): nat {
    if k == 0 then start else Cutoff(start, step, k - 1) + step
  }

  /** The audit rows of the first `k` cutoffs. */
  function AuditUpTo(rows: seq<Row>, a: Audit, k: nat): seq<AuditRow>
    requires ValidAudit(a)
  {
    if k == 0 then []
    else AuditUpTo(rows, a, k - 1) + AuditAt(rows, Cutoff(a.start, a.stepSize, k - 1), a)
  }

  /** The whole audit: every cutoff from the start on that leaves a row to look forward to. */
  function AuditOf(rows: seq<Row>, a: Audit): seq<AuditRow>
    requires ValidAudit(a)
  {
    AuditUpTo(rows, a, CutoffCount(a.start, |rows|, a.stepSize))
  }

  function Clip(x: int, top: int): (c: nat)
    requires top >= 1
    ensures 1 <= c <= top && (1 <= x <= top ==> c == x) && (x < 1 ==> c == 1) && (x > top ==> c == top)
  {
    if x < 1 then 1 else if x > top then top else x
  }

  /** The audit of a scoring mode, with its parameters forced into range. */
  function SafeAudit(mode: Scoring, minSamples: int, stepSize: int, horizon: int): (a: Audit)
    ensures ValidAudit(a)
  {
    var least := if minSamples < 1 then 1 else minSamples;
    Audit(history => Recommend(history, mode, least), Measure, least, Clip(stepSize, 5000), Clip(horizon, 5000))
  }

  /** The audit loop: the history grows by a fixed step until it covers all rows. */
  method AuditLoop(rows: seq<Row>, a: Audit) returns (result: seq<AuditRow>)
    requires ValidAudit(a)
    ensures result == AuditOf(rows, a)
  {
    result := [];
    var end := a.start;
    ghost var k := 0;
    while end < |rows|
      invariant end == Cutoff(a.start, a.stepSize, k) && result == AuditUpTo(rows, a, k)
      invariant k + CutoffCount(end, |rows|, a.stepSize) == CutoffCount(a.start, |rows|, a.stepSize)
      decreases |rows| - end
    {
      var choice := a.recommend(rows[..end]);
      if choice.Some? {
        var top := if end + a.horizon < |rows| then end + a.horizon else |rows|;
        result := result + [AuditRow(end, choice.value, a.measure(rows[end..top], choice.value))];
      }
      end := end + a.stepSize;
      k := k + 1;
    }
  }

  method PolicyAudit(rows: seq<Row>, mode: Scoring, minSamples: int, stepSize: int, horizon: int)
    returns (result: seq<AuditRow>)
    ensures result == AuditOf(rows, SafeAudit(mode, minSamples, stepSize, horizon))
  {
    result := AuditLoop(rows, SafeAudit(mode, minSamples, stepSize, horizon));
  }

  /** Audit honesty: at every cutoff the recommendation depends on nothing but the rows before it, and
      it is the unique best cohort of those rows. */
  lemma AuditLooksBack(
      rows: seq<Row>, other: seq<Row>, end: nat, mode: Scoring, minSamples: int, stepSize: int, horizon: int)
    requires end < |rows| && end < |other| && rows[..end] == other[..end]
    ensures
      var a := SafeAudit(mode, minSamples, stepSize, horizon);
      && |AuditAt(rows, end, a)| == |AuditAt(other, end, a)| <= 1
      && (|AuditAt(rows, end, a)| == 1 ==>
            var c := AuditAt(rows, end, a)[0].recommended;
            && AuditAt(other, end, a)[0].recommended == c
            && BestCohort(rows[..end], mode, a.start, c))
  {
    RecommendIsBest(rows[..end], mode, SafeAudit(mode, minSamples, stepSize, horizon).start);
  }

  lemma AuditAtIsStable(rows: seq<Row>, more: seq<Row>, end: nat, a: Audit)
    requires end < |rows| && end + a.horizon <= |rows|
    ensures AuditAt(rows + more, end, a) == AuditAt(rows, end, a)
  {
    assert (rows + more)[..end] == rows[..end];
    assert (rows + more)[end..end + a.horizon] == rows[end..end + a.horizon];
  }

  lemma {:induction false} MoreCutoffs(start: nat, limit: nat, longer: nat, step: nat)
    requires step > 0 && limit <= longer
    ensures CutoffCount(start, limit, step) <= CutoffCount(start, longer, step)
    decreases if start < limit then limit - start else 0
  {
    if start < limit {
      MoreCutoffs(start + step, limit, longer, step);
    }
  }

  lemma {:induction false} AuditUpToGrows(rows: seq<Row>, a: Audit, k: nat, n: nat, r: AuditRow)
    requires ValidAudit(a) && k <= n && r in AuditUpTo(rows, a, k)
    ensures r in AuditUpTo(rows, a, n)
    decreases n
  {
    if k < n {
      AuditUpToGrows(rows, a, k, n - 1, r);
    }
  }

  lemma {:induction false} AuditUpToIsStable(rows: seq<Row>, more: seq<Row>, a: Audit, k: nat, r: AuditRow)
    requires ValidAudit(a) && r in AuditUpTo(rows, a, k) && r.cutoff + a.horizon <= |rows|
    ensures r in AuditUpTo(rows + more, a, k)
  {
    if k > 0 {
      var end := Cutoff(a.start, a.stepSize, k - 1);
      if r in AuditAt(rows, end, a) {
        assert r.cutoff == end;
        AuditAtIsStable(rows, more, end, a);
      } else {
        AuditUpToIsStable(rows, more, a, k - 1, r);
      }
    }
  }

  /** Rows that arrive later never change an audit row whose forward slice was already complete. */
  lemma AuditIsStable(rows: seq<Row>, more: seq<Row>, a: Audit, r: AuditRow)
    requires ValidAudit(a) && r in AuditOf(rows, a) && r.cutoff + a.horizon <= |rows|
    ensures r in AuditOf(rows + more, a)
  {
    var k := CutoffCount(a.start, |rows|, a.stepSize);
    MoreCutoffs(a.start, |rows|, |rows + more|, a.stepSize);
    AuditUpToIsStable(rows, more, a, k, r);
    AuditUpToGrows(rows + more, a, k, CutoffCount(a.start, |rows + more|, a.stepSize), r);
  }

  // ------------------------------------------------------------------
  // What the ranking and the audit measure
  // ------------------------------------------------------------------

  /** The known values of a column add up to this total, and there are `n` of them. */
  function Column(rows: seq<Row>, points: bool): (real, nat) {
    if rows == [] then (0.0, 0) else
    var (total, n) := Column(Front(rows), points);
    var x := if points then Last(rows).pnlPoints else Last(rows).pnlPct;
    if x.None? then (total, n) else (total + x.value, n + 1)
  }

  lemma {:induction false} ColumnIsTotal(rows: seq<Row>, p: Row -> bool, points: bool, f: Row -> Option<real>)
    requires forall r :: f(r) == if p(r) then (if points then r.pnlPoints else r.pnlPct) else None
    ensures Column(Where(rows, p), points) == (Total(rows, f), CountIf(rows, r => f(r).Some?))
  {
    if rows != [] {
      ColumnIsTotal(Front(rows), p, points, f);
      var front := Where(Front(rows), p);
      assert Front(front + [Last(rows)]) == front && front + [] == front;
    }
  }

  lemma ColumnMean(rows: seq<Row>, p: Row -> bool, points: bool, f: Row -> Option<real>, missing: real)
    requires forall r :: f(r) == if p(r) then (if points then r.pnlPoints else r.pnlPct) else None
    ensures
      var column := Column(Where(rows, p), points);
      IsMean(OrElse(Average(rows, f), missing), column.0, column.1, missing)
      && (Average(rows, f).None? <==> column.1 == 0)
  {
    ColumnIsTotal(rows, p, points, f);
    AverageIsMean(rows, f, missing);
  }

  /** The expectancy of a cohort is the mean over its labeled rows. */
  lemma CohortExpectancy(rows: seq<Row>, cohort: string, points: bool, missing: real)
    ensures
      var column := Column(Where(rows, (r: Row) => r.cohort == cohort && !r.outcome.Unknown?), points);
      IsMean(OrElse(ExpectancyOf(rows, cohort, points), missing), column.0, column.1, missing)
      && (ExpectancyOf(rows, cohort, points).None? <==> column.1 == 0)
  {
    ColumnMean(rows, (r: Row) => r.cohort == cohort && !r.outcome.Unknown?, points,
               (r: Row) => if r.cohort == cohort && Labeled(r) then (if points then r.pnlPoints else r.pnlPct)
                           else None, missing);
  }

  /** Its win rate is the share of winners among its labeled rows, its count that of all its rows. */
  lemma CohortRates(rows: seq<Row>, cohort: string)
    ensures IsMean(CohortWinRate(rows, cohort),
                     |Where(rows, (r: Row) => r.cohort == cohort && r.outcome == Winner)| as real,
                     |Where(rows, (r: Row) => r.cohort == cohort && r.outcome != Unknown)|, 0.0)
    ensures CohortCount(rows, cohort) == |Where(rows, (r: Row) => r.cohort == cohort)|
  {
    var won := (r: Row) => r.cohort == cohort && r.outcome.Winner?;
    var labeled := (r: Row) => r.cohort == cohort && Labeled(r);
    CountIsWhere(rows, (r: Row) => r.cohort == cohort && r.outcome == Winner);
    CountIsWhere(rows, (r: Row) => r.cohort == cohort && r.outcome != Unknown);
    CountIsWhere(rows, (r: Row) => r.cohort == cohort);
    SameCount(rows, won, (r: Row) => r.cohort == cohort && r.outcome == Winner);
    SameCount(rows, labeled, (r: Row) => r.cohort == cohort && r.outcome != Unknown);
    RatioIsMean(CountIf(rows, won), CountIf(rows, labeled));
  }

  /** Seven tenths of the expectancy in percent and three of the win rate, shrunk by the count. */
  lemma BlendedScore(rows: seq<Row>, cohort: string, minSamples: nat)
    requires minSamples > 0
    ensures
      var n := CohortCount(rows, cohort);
      RankingScore(rows, cohort, Blended, minSamples) * (n + minSamples) as real
        == (0.7 * OrElse(ExpectancyOf(rows, cohort, false), 0.0) + 0.3 * CohortWinRate(rows, cohort)) * n as real
  {
    var n, m := CohortCount(rows, cohort) as real, (CohortCount(rows, cohort) + minSamples) as real;
    var x := 0.7 * OrElse(ExpectancyOf(rows, cohort, false), 0.0) + 0.3 * CohortWinRate(rows, cohort);
    assert (x * (n / m)) * m == x * ((n / m) * m);
  }

  /** Each mode ranks by its own mean; ties go to expectancy in percent, win rate, count and name. */
  lemma RankingModes(rows: seq<Row>, cohort: string, minSamples: nat)
    requires minSamples > 0
    ensures
      var labeled := Where(rows, (r: Row) => r.cohort == cohort && !r.outcome.Unknown?);
      var pct, points := Column(labeled, false), Column(labeled, true);
      var all := Column(Where(rows, (r: Row) => r.cohort == cohort), false);
      var missing := -1000000000000000000.0;
      && IsMean(RankingScore(rows, cohort, ExpectancyPct, minSamples), pct.0, pct.1, missing)
      && IsMean(RankingScore(rows, cohort, ExpectancyPoints, minSamples), points.0, points.1, missing)
      && IsMean(RankingScore(rows, cohort, AvgPnlPct, minSamples), all.0, all.1, missing)
      && RankingScore(rows, cohort, WinRate, minSamples) == CohortWinRate(rows, cohort)
  {
    var missing := -1000000000000000000.0;
    CohortExpectancy(rows, cohort, false, missing);
    CohortExpectancy(rows, cohort, true, missing);
    ColumnMean(rows, (r: Row) => r.cohort == cohort, false,
               (r: Row) => if r.cohort == cohort then r.pnlPct else None, missing);
  }

  lemma CohortTies(rows: seq<Row>, cohort: string, mode: Scoring, minSamples: nat)
    requires minSamples > 0
    ensures
      var s := CohortScore(rows, cohort, mode, minSamples);
      var pct := Column(Where(rows, (r: Row) => r.cohort == cohort && !r.outcome.Unknown?), false);
      && s.first == RankingScore(rows, cohort, mode, minSamples)
      && IsMean(s.second, pct.0, pct.1, -1000000000000000000.0)
      && s.third == CohortWinRate(rows, cohort) && s.fourth == CohortCount(rows, cohort) as real
  {
    CohortExpectancy(rows, cohort, false, -1000000000000000000.0);
  }

  lemma MeasureIs(slice: seq<Row>, cohort: string)
    ensures
      var points := Column(Where(slice, (q: Row) => q.cohort == cohort && !q.outcome.Unknown?), true);
      && Measure(slice, cohort).count == |Where(slice, (q: Row) => q.cohort == cohort)|
      && (Measure(slice, cohort).expectancy.None? <==> points.1 == 0)
      && IsMean(OrElse(Measure(slice, cohort).expectancy, 0.0), points.0, points.1, 0.0)
  {
    CohortRates(slice, cohort);
    CohortExpectancy(slice, cohort, true, 0.0);
  }

  /** The forward slice starts at the cutoff: an audit row counts the rows of its cohort among the next ones
      up to the horizon, and its expectancy is the mean points of the labeled ones. */
  lemma AuditMeasuresAhead(
      rows: seq<Row>, end: nat, mode: Scoring, minSamples: int, stepSize: int, horizon: int, r: AuditRow)
    requires end < |rows| && r in AuditAt(rows, end, SafeAudit(mode, minSamples, stepSize, horizon))
    ensures
      var top := if end + Clip(horizon, 5000) < |rows| then end + Clip(horizon, 5000) else |rows|;
      var labeled := Where(rows[end..top], (q: Row) => q.cohort == r.recommended && !q.outcome.Unknown?);
      var points := Column(labeled, true);
      && r.cutoff == end
      && r.forward.count == |Where(rows[end..top], (q: Row) => q.cohort == r.recommended)|
      && (r.forward.expectancy.None? <==> points.1 == 0)
      && IsMean(OrElse(r.forward.expectancy, 0.0), points.0, points.1, 0.0)
  {
    var h := Clip(horizon, 5000);
    var top := if end + h < |rows| then end + h else |rows|;
    assert r.cutoff == end && r.forward == Measure(rows[end..top], r.recommended);
    MeasureIs(rows[end..top], r.recommended);
  }

  lemma {:induction false} CutoffIs(start: nat, step: nat, k: nat)
    ensures Cutoff(start, step, k) == start + k * step
  {
    if k > 0 {
      CutoffIs(start, step, k - 1);
      assert k * step == (k - 1) * step + step;
    }
  }

  lemma {:induction false} CutoffsBelow(start: nat, limit: nat, step: nat, k: nat)
    requires step > 0
    ensures k < CutoffCount(start, limit, step) <==> start + k * step < limit
    decreases k
  {
    if k == 0 {
    } else if start < limit {
      CutoffsBelow(start + step, limit, step, k - 1);
      assert start + step + (k - 1) * step == start + k * step;
    } else {
      assert k * step >= 0;
    }
  }

  /** The row of the `k`-th cutoff. */
  ghost predicate RowOfCutoff(rows: seq<Row>, a: Audit, k: nat, r: AuditRow) {
    a.start + k * a.stepSize < |rows| && r in AuditAt(rows, a.start + k * a.stepSize, a)
  }

  lemma {:induction false} AuditUpToRows(rows: seq<Row>, a: Audit, n: nat, r: AuditRow)
    requires ValidAudit(a) && n <= CutoffCount(a.start, |rows|, a.stepSize)
    ensures r in AuditUpTo(rows, a, n) <==> exists k: nat :: k < n && RowOfCutoff(rows, a, k, r)
  {
    if n > 0 {
      AuditUpToRows(rows, a, n - 1, r);
      CutoffIs(a.start, a.stepSize, n - 1);
      CutoffsBelow(a.start, |rows|, a.stepSize, n - 1);
      assert r in AuditAt(rows, Cutoff(a.start, a.stepSize, n - 1), a) <==> RowOfCutoff(rows, a, n - 1, r);
    }
  }

  /** The audit holds the rows of exactly the cutoffs start, start + step, ... that leave a row ahead. */
  lemma AuditRowsAre(rows: seq<Row>, a: Audit, r: AuditRow)
    requires ValidAudit(a)
    ensures r in AuditOf(rows, a) <==> exists k: nat :: RowOfCutoff(rows, a, k, r)
  {
    AuditUpToRows(rows, a, CutoffCount(a.start, |rows|, a.stepSize), r);
    forall k: nat | RowOfCutoff(rows, a, k, r) ensures k < CutoffCount(a.start, |rows|, a.stepSize) {
      CutoffsBelow(a.start, |rows|, a.stepSize, k);
    }
  }

  /** The settings of an audit: at least one sample, and pace and horizon between 1 and 5000. */
  lemma SafeAuditSettings(mode: Scoring, minSamples: int, stepSize: int, horizon: int)
    ensures
      var a := SafeAudit(mode, minSamples, stepSize, horizon);
      && a.start == (if minSamples < 1 then 1 else minSamples)
      && a.stepSize == Clip(stepSize, 5000) && a.horizon == Clip(horizon, 5000)
  {
  }
}
