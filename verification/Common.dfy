/** Small vocabulary shared by every module: optional values, results, trade sides and sums. */
module Common {

  datatype Option<+T> = None | Some(value: T)

  datatype Result<+T, +E> = Ok(value: T) | Err(error: E)

  datatype Side = Long | Short

  /** A quantity counted up for a long and down for a short. */
  function Signed(side: Side, x: real): real {
    if side.Long? then x else -x
  }

  function MinReal(a: real, b: real): real {
    if a <= b then a else b
  }

  function MaxReal(a: real, b: real): real {
    if a >= b then a else b
  }

  function AbsReal(a: real): real {
    if a < 0.0 then -a else a
  }

  /** The nearest whole number, the even one of two equally near. */
  function Nearest(x: real): (n: int)
    ensures -0.5 <= n as real - x <= 0.5
    ensures AbsReal(n as real - x) == 0.5 ==> n % 2 == 0
  {
    var below := x.Floor;
    var part := x - below as real;
    if part < 0.5 || (part == 0.5 && below % 2 == 0) then below else below + 1
  }

  lemma NearestMonotone(a: real, b: real)
    requires a <= b
    ensures Nearest(a) <= Nearest(b)
  {
    assert a.Floor <= b.Floor;
  }

  /** `x` rounded to a multiple of 1 / `scale`. */
  function RoundTo(x: real, scale: real): real
    requires scale > 0.0
  {
    Nearest(x * scale) as real / scale
  }

  lemma RoundMonotone(a: real, b: real, scale: real)
    requires a <= b && scale > 0.0
    ensures RoundTo(a, scale) <= RoundTo(b, scale)
  {
    ScalingKeepsOrder(a, b, scale);
    NearestMonotone(a * scale, b * scale);
    DividingKeepsOrder(Nearest(a * scale) as real, Nearest(b * scale) as real, scale);
  }

  lemma ScalingKeepsOrder(a: real, b: real, scale: real)
    requires a <= b && scale > 0.0
    ensures a * scale <= b * scale
  {
    ProductNonNegative(b - a, scale);
    assert (b - a) * scale == b * scale - a * scale;
  }

  lemma DividingKeepsOrder(a: real, b: real, scale: real)
    requires a <= b && scale > 0.0
    ensures a / scale <= b / scale
  {
    assert (b / scale) * scale == b;
    QuotientBounds(a, scale, b / scale);
  }

  /** Rounding moves a number by at most half a unit. */
  lemma RoundIsNear(x: real, scale: real)
    requires scale > 0.0
    ensures -0.5 <= (RoundTo(x, scale) - x) * scale <= 0.5
  {
    assert RoundTo(x, scale) * scale == Nearest(x * scale) as real;
  }

  function Last<T>(xs: seq<T>): T
    requires xs != []
  {
    xs[|xs| - 1]
  }

  function Front<T>(xs: seq<T>): seq<T>
    requires xs != []
  {
    xs[..|xs| - 1]
  }

  lemma ConcatAssociates<T>(a: seq<T>, b: seq<T>, c: seq<T>)
    ensures a + b + c == a + (b + c)
  {
  }

  /** Sum of `f` over `xs`, taken from the front to the back. */
  ghost function SumOf<T(!new)>(xs: seq<T>, f: T -> real): real {
    if xs == [] then 0.0 else SumOf(Front(xs), f) + f(Last(xs))
  }

  lemma SumOfAppend<T(!new)>(xs: seq<T>, x: T, f: T -> real)
    ensures SumOf(xs + [x], f) == SumOf(xs, f) + f(x)
  {
    assert Front(xs + [x]) == xs;
  }

  lemma {:induction false} SumOfUpdate<T(!new)>(xs: seq<T>, i: nat, x: T, f: T -> real)
    requires i < |xs|
    ensures SumOf(xs[i := x], f) == SumOf(xs, f) - f(xs[i]) + f(x)
  {
    if i == |xs| - 1 {
      assert Front(xs[i := x]) == Front(xs);
    } else {
      assert Front(xs[i := x]) == Front(xs)[i := x];
      SumOfUpdate(Front(xs), i, x, f);
    }
  }

  lemma {:induction false} SumOfZero<T(!new)>(xs: seq<T>, f: T -> real)
    requires forall k :: 0 <= k < |xs| ==> f(xs[k]) == 0.0
    ensures SumOf(xs, f) == 0.0
  {
    if xs != [] {
      assert forall k :: 0 <= k < |Front(xs)| ==> Front(xs)[k] == xs[k];
      SumOfZero(Front(xs), f);
    }
  }

  lemma SignOfProduct(k: real, x: real)
    requires k > 0.0
    ensures (k * x >= 0.0 <==> x >= 0.0) && (k * x <= 0.0 <==> x <= 0.0)
  {
    if x > 0.0 {
      assert k * x > 0.0;
    } else if x < 0.0 {
      assert k * (-x) > 0.0;
    }
  }

  lemma ProductNonNegative(x: real, y: real)
    requires x >= 0.0 && y >= 0.0
    ensures x * y >= 0.0
  {
  }

  lemma QuotientBounds(a: real, k: real, b: real)
    requires k > 0.0
    ensures a / k <= b <==> a <= b * k
    ensures a / k >= b <==> a >= b * k
  {
    SignOfProduct(k, a / k - b);
    assert k * (a / k - b) == a - b * k;
  }

  lemma MultisetOfParts<T>(l: seq<T>, x: T, r: seq<T>)
    ensures multiset(l + [x] + r) == multiset(l + r) + multiset{x}
  {
  }

  /** Taking the same element out of two lists with the same elements. */
  lemma RemoveSame<T>(a: seq<T>, b: seq<T>, i: nat)
    requires multiset(a) == multiset(b) && a != [] && i < |b| && b[i] == Last(a)
    ensures multiset(Front(a)) == multiset(b[..i] + b[i + 1..])
  {
    assert a == Front(a) + [Last(a)] + [] && Front(a) + [] == Front(a);
    assert b == b[..i] + [b[i]] + b[i + 1..];
    MultisetOfParts(Front(a), Last(a), []);
    MultisetOfParts(b[..i], b[i], b[i + 1..]);
    Cancel(multiset(Front(a)), multiset(b[..i] + b[i + 1..]), Last(a));
  }

  lemma Cancel<T>(m: multiset<T>, n: multiset<T>, x: T)
    requires m + multiset{x} == n + multiset{x}
    ensures m == n
  {
    assert m == m + multiset{x} - multiset{x};
    assert n == n + multiset{x} - multiset{x};
  }

  // ------------------------------------------------------------------
  // Stable insertion sort
  // ------------------------------------------------------------------

  /** `x` goes after every element it is not earlier than. */
  function InsertBy<T>(xs: seq<T>, x: T, earlier: (T, T) -> bool): seq<T> {
    if xs == [] || !earlier(x, Last(xs)) then xs + [x] else InsertBy(Front(xs), x, earlier) + [Last(xs)]
  }

  function SortBy<T>(xs: seq<T>, earlier: (T, T) -> bool): seq<T> {
    if xs == [] then [] else InsertBy(SortBy(Front(xs), earlier), Last(xs), earlier)
  }

  ghost predicate OrderedBy<T>(xs: seq<T>, earlier: (T, T) -> bool) {
    forall i, j :: 0 <= i < j < |xs| ==> !earlier(xs[j], xs[i])
  }

  ghost predicate IsOrder<T(!new)>(earlier: (T, T) -> bool) {
    && (forall a, b :: earlier(a, b) ==> !earlier(b, a))
    && (forall a, b, c :: !earlier(b, a) && !earlier(c, b) ==> !earlier(c, a))
  }

  lemma {:induction false} InsertHas<T>(xs: seq<T>, x: T, earlier: (T, T) -> bool)
    ensures multiset(InsertBy(xs, x, earlier)) == multiset(xs) + multiset{x}
  {
    if xs != [] && earlier(x, Last(xs)) {
      InsertHas(Front(xs), x, earlier);
      assert xs == Front(xs) + [Last(xs)];
    }
  }

  lemma {:induction false} InsertOrdered<T(!new)>(xs: seq<T>, x: T, earlier: (T, T) -> bool)
    requires IsOrder(earlier) && OrderedBy(xs, earlier)
    ensures OrderedBy(InsertBy(xs, x, earlier), earlier)
  {
    if xs != [] {
      var last := Last(xs);
      if earlier(x, last) {
        var rest := InsertBy(Front(xs), x, earlier);
        InsertOrdered(Front(xs), x, earlier);
        InsertHas(Front(xs), x, earlier);
        forall i | 0 <= i < |rest| ensures !earlier(last, rest[i]) {
          assert rest[i] in multiset(rest);
          if rest[i] != x {
            var k :| 0 <= k < |Front(xs)| && Front(xs)[k] == rest[i];
            assert xs[k] == rest[i];
          }
        }
      } else {
        forall i | 0 <= i < |xs| ensures !earlier(x, xs[i]) {
          assert i < |xs| - 1 ==> !earlier(last, xs[i]);
        }
      }
    }
  }

  /** Sorting leaves an ordered sequence alone. */
  lemma {:induction false} SortIsIdle<T>(xs: seq<T>, earlier: (T, T) -> bool)
    requires OrderedBy(xs, earlier)
    ensures SortBy(xs, earlier) == xs
  {
    if xs != [] {
      var front, n := Front(xs), |xs|;
      assert forall i :: 0 <= i < |front| ==> front[i] == xs[i];
      SortIsIdle(front, earlier);
      assert n > 1 ==> Last(front) == xs[n - 2] && !earlier(xs[n - 1], xs[n - 2]);
      assert InsertBy(front, xs[n - 1], earlier) == front + [xs[n - 1]] == xs;
    }
  }

  /** Sorting orders the elements and loses none. */
  lemma {:induction false} SortIsOrdered<T(!new)>(xs: seq<T>, earlier: (T, T) -> bool)
    requires IsOrder(earlier)
    ensures OrderedBy(SortBy(xs, earlier), earlier) && multiset(SortBy(xs, earlier)) == multiset(xs)
  {
    if xs != [] {
      SortIsOrdered(Front(xs), earlier);
      InsertOrdered(SortBy(Front(xs), earlier), Last(xs), earlier);
      InsertHas(SortBy(Front(xs), earlier), Last(xs), earlier);
      assert xs == Front(xs) + [Last(xs)];
    }
  }

  /** What stays once it is there is there at the end exactly when it was there at the start or appeared. */
  lemma {:induction false} StaysOnceThere(there: seq<bool>, appears: seq<bool>)
    requires |there| == |appears| + 1
    requires forall j :: 0 <= j < |appears| ==> (there[j + 1] <==> there[j] || appears[j])
    ensures there[|appears|] <==> there[0] || exists j :: 0 <= j < |appears| && appears[j]
  {
    if appears != [] {
      StaysOnceThere(Front(there), Front(appears));
      assert there[|appears|] <==> there[|appears| - 1] || appears[|appears| - 1];
    }
  }
}
