/**
 Descriptive statistics over a list of integer durations, computed exactly
 with `real` arithmetic. Both profiler versions build their summaries from
 these definitions; they differ only in the divisor of the variance.
 */
module Statistics {

  /** Shape of the summary the reducer returns for one event name: no keys at
      all, the single key `value`, or the full set of aggregate keys. */
  datatype Summary =
    | NoStats
    | Single(value: real)
    | Aggregate(len: nat, min: int, max: int, mean: real, median: real, variance: real)

  function Sum(s: seq<int>): int
  {
    if |s| == 0 then 0 else s[0] + Sum(s[1..])
  }

  predicate IsMin(s: seq<int>, m: int)
  {
    m in s && forall i :: 0 <= i < |s| ==> m <= s[i]
  }

  predicate IsMax(s: seq<int>, m: int)
  {
    m in s && forall i :: 0 <= i < |s| ==> s[i] <= m
  }

  /** Python's `min`: the least element of a non-empty list. */
  function Min(s: seq<int>): (m: int)
    requires |s| > 0
    ensures IsMin(s, m)
  {
    if |s| == 1 then s[0]
    else
      var rest := Min(s[1..]);
      assert forall i :: 1 <= i < |s| ==> s[i] == s[1..][i - 1];
      if s[0] <= rest then s[0] else rest
  }

  /** Python's `max`: the greatest element of a non-empty list. */
  function Max(s: seq<int>): (m: int)
    requires |s| > 0
    ensures IsMax(s, m)
  {
    if |s| == 1 then s[0]
    else
      var rest := Max(s[1..]);
      assert forall i :: 1 <= i < |s| ==> s[i] == s[1..][i - 1];
      if rest <= s[0] then s[0] else rest
  }

  /** The sum of a list whose values lie in [lo, hi] lies between its length
      times `lo` and its length times `hi`. */
  lemma {:induction false} SumBetween(s: seq<int>, lo: int, hi: int)
    requires forall i :: 0 <= i < |s| ==> lo <= s[i] <= hi
    ensures |s| * lo <= Sum(s) <= |s| * hi
  {
    if |s| > 0 {
      SumBetween(s[1..], lo, hi);
      assert |s| * lo == lo + (|s| - 1) * lo;
      assert |s| * hi == hi + (|s| - 1) * hi;
    }
  }

  lemma QuotientBetween(total: int, n: int, lo: int, hi: int)
    requires n > 0
    requires n * lo <= total <= n * hi
    ensures lo as real <= total as real / n as real <= hi as real
    ensures total as real / n as real * n as real == total as real
  {
    var q := total as real / n as real;
    assert q * n as real == total as real;
    CastProduct(n, lo);
    CastProduct(n, hi);
    assert (q - lo as real) * n as real >= 0.0;
    assert (hi as real - q) * n as real >= 0.0;
  }

  lemma CastProduct(a: int, b: int)
    ensures (a * b) as real == a as real * b as real
  {
  }

  lemma QuotientSign(q: real, d: real)
    requires q >= 0.0 && d > 0.0
    ensures q / d >= 0.0
    ensures q / d == 0.0 <==> q == 0.0
  {
    assert q / d * d == q;
  }

  lemma PositiveProduct(a: real, b: real)
    requires a > 0.0 && b > 0.0
    ensures a * b > 0.0
  {
  }

  /** `r` is the average of `s`: `r` times the length of `s` is its sum. */
  predicate IsMean(s: seq<int>, r: real)
  {
    r * |s| as real == Sum(s) as real
  }

  /** Arithmetic mean of a non-empty list (`statistics.mean`, `numpy.mean`). */
  function Mean(s: seq<int>): (r: real)
    requires |s| > 0
    ensures IsMean(s, r)
    ensures Min(s) as real <= r <= Max(s) as real
  {
    SumBetweenExtremes(s);
    QuotientBetween(Sum(s), |s|, Min(s), Max(s));
    QuotientIsMean(s);
    Sum(s) as real / |s| as real
  }

  lemma QuotientIsMean(s: seq<int>)
    requires |s| > 0
    ensures IsMean(s, Sum(s) as real / |s| as real)
  {
    var n := |s| as real;
    var q := Sum(s) as real / n;
    assert q * n == Sum(s) as real;
  }

  lemma SumBetweenExtremes(s: seq<int>)
    requires |s| > 0
    ensures |s| * Min(s) <= Sum(s) <= |s| * Max(s)
  {
    SumBetween(s, Min(s), Max(s));
  }

  /** Sum over the list of `(n * x - total)^2`. With `n` the length and
      `total` the sum of the list this is `n^2` times the sum of squared
      deviations from the mean, kept in integers so that no rounding or
      real-valued product is involved. */
  function ScaledSquares(s: seq<int>, n: int, total: int): nat
  {
    if |s| == 0 then 0
    else
      var d := n * s[0] - total;
      SquareSign(d);
      d * d + ScaledSquares(s[1..], n, total)
  }

  lemma SquareSign(d: int)
    ensures d * d >= 0
    ensures d * d == 0 <==> d == 0
  {
  }

  /** The scaled squares vanish exactly when every `n * x` equals `total`. */
  lemma {:induction false} ScaledSquaresZero(s: seq<int>, n: int, total: int)
    ensures ScaledSquares(s, n, total) == 0 <==> forall i :: 0 <= i < |s| ==> n * s[i] == total
  {
    if |s| > 0 {
      ScaledSquaresZero(s[1..], n, total);
      SquareSign(n * s[0] - total);
      assert forall i :: 1 <= i < |s| ==> s[i] == s[1..][i - 1];
    }
  }

  /** All values of the list are equal. */
  predicate Constant(s: seq<int>)
  {
    forall i :: 0 <= i < |s| ==> s[i] == s[0]
  }

  lemma CancelFactor(n: int, a: int, b: int)
    requires n > 0 && n * a == n * b
    ensures a == b
  {
  }

  /** Every `n * x` equals the total exactly when the list is constant. */
  lemma AtMeanIffConstant(s: seq<int>)
    requires |s| > 0
    ensures (forall i :: 0 <= i < |s| ==> |s| * s[i] == Sum(s)) <==> Constant(s)
  {
    var n := |s|;
    if Constant(s) {
      SumBetween(s, s[0], s[0]);
    }
    if forall i :: 0 <= i < n ==> n * s[i] == Sum(s) {
      forall i | 0 <= i < n
        ensures s[i] == s[0]
      {
        CancelFactor(n, s[i], s[0]);
      }
    }
  }

  /** Variance with `ddof` delta degrees of freedom: the sum of squared
      deviations from the mean divided by `n - ddof`. `ddof` 1 is the sample
      variance of `statistics.variance`; `ddof` 0 is the population variance
      of `numpy.var`. The sum of squared deviations is `ScaledSquares / n^2`. */
  function Variance(s: seq<int>, ddof: nat): (v: real)
    requires |s| > ddof
    ensures v >= 0.0
    ensures v == 0.0 <==> Constant(s)
  {
    var n := |s|;
    var squares := ScaledSquares(s, n, Sum(s));
    VarianceZero(s, squares);
    Spread(squares, n, n - ddof)
  }

  /** `squares / (n^2 * freedom)`: the scaled squares turned back into a sum
      of squared deviations and divided by the degrees of freedom. */
  function Spread(squares: nat, n: int, freedom: int): (v: real)
    requires n > 0 && freedom > 0
    ensures v >= 0.0
    ensures v == 0.0 <==> squares == 0
  {
    var scale := (n * n) as real;
    assert scale > 0.0 by {
      assert n * n > 0;
    }
    PositiveProduct(scale, freedom as real);
    QuotientSign(squares as real, scale * freedom as real);
    squares as real / (scale * freedom as real)
  }

  /** Sum of squared deviations of the values from `mu`, the numerator of
      the textbook variance when `mu` is the mean. */
  function SqDev(s: seq<int>, mu: real): real
  {
    if |s| == 0 then 0.0 else (s[0] as real - mu) * (s[0] as real - mu) + SqDev(s[1..], mu)
  }

  /** The variance is the textbook one: the squared deviations from the mean
      summed and divided by `n - ddof`. */
  lemma VarianceIsTextbook(s: seq<int>, ddof: nat)
    requires |s| > ddof
    ensures Variance(s, ddof) == SqDev(s, Mean(s)) / (|s| - ddof) as real
  {
    var n := |s|;
    assert Mean(s) == Sum(s) as real / n as real;
    ScaledSquaresAsDeviations(s, n, Sum(s));
    VarianceSpread(s, ddof);
    SpreadOfScaled(ScaledSquares(s, n, Sum(s)), n, n - ddof, SqDev(s, Mean(s)));
  }

  /** Squares that are `n^2` times `x`, spread over `freedom`, give `x / freedom`. */
  lemma SpreadOfScaled(squares: nat, n: int, freedom: int, x: real)
    requires n > 0 && freedom > 0
    requires Scaled(squares, (n * n) as real, x)
    ensures Spread(squares, n, freedom) == x / freedom as real
  {
    var c := (n * n) as real;
    var f := freedom as real;
    assert c > 0.0 by {
      assert n * n > 0;
    }
    var w := x / f;
    assert w * f == x;
    assert (c * w) * f == c * x;
    assert w * (c * f) == squares as real;
  }

  /** `ScaledSquares` is `n^2` times the squared deviations from `total / n`. */
  lemma {:induction false} ScaledSquaresAsDeviations(s: seq<int>, n: int, total: int)
    requires n > 0
    ensures ScaledAsDeviations(s, n, total, total as real / n as real)
  {
    if |s| > 0 {
      ScaledSquaresAsDeviations(s[1..], n, total);
      DeviationCons(s, n, total, total as real / n as real);
    } else {
      DeviationsEmpty(s, n, total, total as real / n as real);
    }
  }

  lemma DeviationsEmpty(s: seq<int>, n: int, total: int, mu: real)
    requires |s| == 0
    ensures ScaledAsDeviations(s, n, total, mu)
  {
  }

  /** `n^2` times the squared deviations from `mu` add up to `ScaledSquares`. */
  predicate ScaledAsDeviations(s: seq<int>, n: int, total: int, mu: real)
  {
    Scaled(ScaledSquares(s, n, total), (n * n) as real, SqDev(s, mu))
  }

  /** `a` is `c` times `b`. */
  predicate Scaled(a: int, c: real, b: real)
  {
    a as real == c * b
  }

  /** The inductive step of `ScaledSquaresAsDeviations`: one more term. */
  lemma DeviationCons(s: seq<int>, n: int, total: int, mu: real)
    requires |s| > 0 && n > 0 && mu == total as real / n as real
    requires ScaledAsDeviations(s[1..], n, total, mu)
    ensures ScaledAsDeviations(s, n, total, mu)
  {
    TermAsDeviation(s[0], n, total, mu);
    ScaledSquaresCons(s, n, total);
    SqDevCons(s, mu);
    DeviationStep(ScaledSquares(s, n, total), IntSquare(n * s[0] - total), ScaledSquares(s[1..], n, total),
      SqDev(s, mu), RealSquare(s[0] as real - mu), SqDev(s[1..], mu), (n * n) as real);
  }


  function IntSquare(a: int): int { a * a }

  function RealSquare(a: real): real { a * a }

  lemma ScaledSquaresCons(s: seq<int>, n: int, total: int)
    requires |s| > 0
    ensures ScaledSquares(s, n, total) == IntSquare(n * s[0] - total) + ScaledSquares(s[1..], n, total)
  {
  }

  lemma SqDevCons(s: seq<int>, mu: real)
    requires |s| > 0
    ensures SqDev(s, mu) == RealSquare(s[0] as real - mu) + SqDev(s[1..], mu)
  {
  }

  lemma DeviationStep(whole: int, sq: int, rest: int, devs: real, t: real, r: real, c: real)
    requires whole == sq + rest && devs == t + r
    requires Scaled(sq, c, t) && Scaled(rest, c, r)
    ensures Scaled(whole, c, devs)
  {
    assert c * (t + r) == c * t + c * r;
  }

  /** One term: `(n * x - total)^2 = n^2 * (x - total / n)^2`. */
  lemma TermAsDeviation(x: int, n: int, total: int, mu: real)
    requires n > 0 && mu == total as real / n as real
    ensures Scaled(IntSquare(n * x - total), (n * n) as real, RealSquare(x as real - mu))
  {
    var nr := n as real;
    var dev := x as real - mu;
    assert mu * nr == total as real;
    var a := (n * x - total) as real;
    assert a == nr * dev;
    CastProduct(n * x - total, n * x - total);
    CastProduct(n, n);
    SquareOfProduct(a, nr, dev);
  }

  lemma SquareOfProduct(a: real, b: real, d: real)
    requires a == b * d
    ensures a * a == (b * b) * (d * d)
  {
  }

  lemma VarianceZero(s: seq<int>, squares: nat)
    requires |s| > 0 && squares == ScaledSquares(s, |s|, Sum(s))
    ensures squares == 0 <==> Constant(s)
  {
    ScaledSquaresZero(s, |s|, Sum(s));
    AtMeanIffConstant(s);
  }

  predicate Sorted(s: seq<int>)
  {
    forall i, j :: 0 <= i < j < |s| ==> s[i] <= s[j]
  }

  /** Inserts `x` into a sorted list, keeping it sorted. */
  function Insert(x: int, s: seq<int>): (r: seq<int>)
    requires Sorted(s)
    ensures Sorted(r)
    ensures multiset(r) == multiset(s) + multiset{x}
  {
    if |s| == 0 then [x]
    else if x <= s[0] then
      ConsSorted(x, s);
      [x] + s
    else
      var rest := Insert(x, s[1..]);
      HeadBelowRest(s, x, rest);
      ConsSorted(s[0], rest);
      assert s == [s[0]] + s[1..];
      [s[0]] + rest
  }

  /** A value at most every element of a sorted list may go in front of it. */
  lemma ConsSorted(a: int, t: seq<int>)
    requires Sorted(t)
    requires forall k :: 0 <= k < |t| ==> a <= t[k]
    ensures Sorted([a] + t)
  {
    var r := [a] + t;
    forall i, j | 0 <= i < j < |r|
      ensures r[i] <= r[j]
    {
      assert r[j] == t[j - 1];
      if i > 0 {
        assert r[i] == t[i - 1];
      }
    }
  }

  /** The head of a sorted list is at most both the rest of the list and any
      larger inserted value, so at most every element of their merge. */
  lemma HeadBelowRest(s: seq<int>, x: int, rest: seq<int>)
    requires Sorted(s) && |s| > 0 && s[0] < x
    requires multiset(rest) == multiset(s[1..]) + multiset{x}
    ensures forall k :: 0 <= k < |rest| ==> s[0] <= rest[k]
  {
    forall k | 0 <= k < |rest|
      ensures s[0] <= rest[k]
    {
      assert rest[k] in multiset(rest);
      if rest[k] != x {
        assert rest[k] in multiset(s[1..]);
        var j :| 0 <= j < |s[1..]| && s[1..][j] == rest[k];
        assert s[j + 1] == rest[k];
      }
    }
  }

  /** Insertion sort; `statistics.median` and `numpy.median` both sort first. */
  function Sort(s: seq<int>): (r: seq<int>)
    ensures Sorted(r)
    ensures multiset(r) == multiset(s)
  {
    if |s| == 0 then []
    else
      assert s == [s[0]] + s[1..];
      Insert(s[0], Sort(s[1..]))
  }

  /** Number of values strictly below `v`. */
  function CountBelow(s: seq<int>, v: real): nat
  {
    if |s| == 0 then 0 else (if (s[0] as real) < v then 1 else 0) + CountBelow(s[1..], v)
  }

  /** Number of values strictly above `v`. */
  function CountAbove(s: seq<int>, v: real): nat
  {
    if |s| == 0 then 0 else (if (s[0] as real) > v then 1 else 0) + CountAbove(s[1..], v)
  }

  lemma {:induction false} InsertCounts(x: int, s: seq<int>, v: real)
    requires Sorted(s)
    ensures CountBelow(Insert(x, s), v) == CountBelow(s, v) + (if (x as real) < v then 1 else 0)
    ensures CountAbove(Insert(x, s), v) == CountAbove(s, v) + (if (x as real) > v then 1 else 0)
  {
    if |s| == 0 {
      CountsCons(x, [], v);
    } else if x <= s[0] {
      CountsCons(x, s, v);
    } else {
      InsertCounts(x, s[1..], v);
      CountsCons(s[0], Insert(x, s[1..]), v);
      CountsCons(s[0], s[1..], v);
      assert s == [s[0]] + s[1..];
    }
  }

  /** Counting over a list with one more value in front. */
  lemma CountsCons(a: int, t: seq<int>, v: real)
    ensures CountBelow([a] + t, v) == (if (a as real) < v then 1 else 0) + CountBelow(t, v)
    ensures CountAbove([a] + t, v) == (if (a as real) > v then 1 else 0) + CountAbove(t, v)
  {
    assert ([a] + t)[1..] == t;
  }

  /** Sorting keeps the number of values below and above any threshold. */
  lemma {:induction false} SortCounts(s: seq<int>, v: real)
    ensures CountBelow(Sort(s), v) == CountBelow(s, v)
    ensures CountAbove(Sort(s), v) == CountAbove(s, v)
  {
    if |s| > 0 {
      SortCounts(s[1..], v);
      InsertCounts(s[0], Sort(s[1..]), v);
    }
  }

  /** If every value from position `k` on is at least `v`, at most `k` values
      lie below `v`. */
  lemma {:induction false} CountBelowAtMost(t: seq<int>, v: real, k: nat)
    requires k <= |t|
    requires forall j :: k <= j < |t| ==> t[j] as real >= v
    ensures CountBelow(t, v) <= k
  {
    if |t| > 0 {
      assert forall j :: 0 <= j < |t| - 1 ==> t[1..][j] == t[j + 1];
      CountBelowAtMost(t[1..], v, if k == 0 then 0 else k - 1);
    }
  }

  /** If every value before position `k` is at most `v`, at most `|t| - k`
      values lie above `v`. */
  lemma {:induction false} CountAboveAtMost(t: seq<int>, v: real, k: nat)
    requires k <= |t|
    requires forall j :: 0 <= j < k ==> t[j] as real <= v
    ensures CountAbove(t, v) <= |t| - k
  {
    if |t| > 0 {
      assert forall j :: 0 <= j < |t| - 1 ==> t[1..][j] == t[j + 1];
      if k == 0 {
        CountAboveAtMost(t[1..], v, 0);
      } else {
        CountAboveAtMost(t[1..], v, k - 1);
      }
    }
  }

  /** The middle value of a sorted list, or the average of the two middle
      values when the length is even. */
  function Middle(t: seq<int>): real
    requires |t| > 0
  {
    var h := |t| / 2;
    if |t| % 2 == 1 then t[h] as real else (t[h - 1] + t[h]) as real / 2.0
  }

  lemma MiddleOfEven(t: seq<int>, a: int, b: int)
    requires |t| > 0 && |t| % 2 == 0 && a == t[|t| / 2 - 1] && b == t[|t| / 2]
    ensures Middle(t) == (a + b) as real / 2.0
  {
  }

  /** In a sorted list the middle has the lower half of the positions at or
      below it and the upper half at or above it. */
  lemma MiddleSplitsSorted(t: seq<int>)
    requires |t| > 0 && Sorted(t)
    ensures var m, h := Middle(t), |t| / 2;
      && (forall j :: h <= j < |t| ==> t[j] as real >= m)
      && (forall j :: 0 <= j < |t| - h ==> t[j] as real <= m)
      && t[0] as real <= m <= t[|t| - 1] as real
  {
  }

  /** `v` is one of the values, with at most `below` values under it and at
      most `above` values over it. */
  predicate SplitsAt(s: seq<int>, v: int, below: int, above: int)
  {
    v in s && CountBelow(s, v as real) <= below && CountAbove(s, v as real) <= above
  }

  /** For an odd count: a value with at most half of the others on either
      side of it. */
  predicate OddMiddle(s: seq<int>, v: int)
  {
    SplitsAt(s, v, |s| / 2, |s| / 2)
  }

  /** For an even count: a value with fewer than half of the values below
      it and at most half above it. */
  predicate LowerMiddle(s: seq<int>, a: int)
  {
    SplitsAt(s, a, |s| / 2 - 1, |s| / 2)
  }

  /** For an even count: a value with at most half of the values below it
      and fewer than half above it. */
  predicate UpperMiddle(s: seq<int>, b: int)
  {
    SplitsAt(s, b, |s| / 2, |s| / 2 - 1)
  }

  /** What a median is, without sorting: for an odd count the middle value,
      for an even count the average of the lower and the upper middle
      values. */
  ghost predicate IsMedian(s: seq<int>, m: real)
  {
    && |s| > 0
    && if |s| % 2 == 1 then
         exists v: int :: OddMiddle(s, v) && m == v as real
       else
         exists a: int, b: int :: LowerMiddle(s, a) && UpperMiddle(s, b) && m == (a + b) as real / 2.0
  }

  /** The median of a non-empty list (`statistics.median`, `numpy.median`):
      the middle value of the sorted list, or the average of the two middle
      values when the length is even. */
  function Median(s: seq<int>): (m: real)
    requires |s| > 0
    ensures IsMedian(s, m)
    ensures Min(s) as real <= m <= Max(s) as real
    ensures CountBelow(s, m) <= |s| / 2
    ensures CountAbove(s, m) <= |s| / 2
  {
    var t := Sort(s);
    assert |t| == |multiset(t)| == |s|;
    MedianFacts(s, t);
    MiddleIsMedian(s, t);
    Middle(t)
  }

  lemma MedianFacts(s: seq<int>, t: seq<int>)
    requires |s| > 0 && t == Sort(s) && |t| == |s|
    ensures Min(s) as real <= Middle(t) <= Max(s) as real
    ensures CountBelow(s, Middle(t)) <= |s| / 2
    ensures CountAbove(s, Middle(t)) <= |s| / 2
  {
    var m, h := Middle(t), |t| / 2;
    MiddleSplitsSorted(t);
    assert t[0] in multiset(s);
    assert t[|t| - 1] in multiset(s);
    SortCounts(s, m);
    CountBelowAtMost(t, m, h);
    CountAboveAtMost(t, m, |t| - h);
  }

  /** The value at position `i` of the sorted list splits the values at `i`
      below and `|t| - i - 1` above. */
  lemma SortedSplitsAt(s: seq<int>, t: seq<int>, i: int, below: int, above: int)
    requires t == Sort(s) && |t| == |s| && 0 <= i < |t|
    requires below == i && above == |t| - i - 1
    ensures SplitsAt(s, t[i], below, above)
  {
    assert t[i] in multiset(s) by {
      assert t[i] in multiset(t);
    }
    SortCounts(s, t[i] as real);
    SortedAround(t, i);
    CountBelowAtMost(t, t[i] as real, i);
    CountAboveAtMost(t, t[i] as real, i + 1);
  }

  /** In a sorted list the values up to position `i` are at most `t[i]` and
      those from `i` on at least `t[i]`. */
  lemma SortedAround(t: seq<int>, i: int)
    requires Sorted(t) && 0 <= i < |t|
    ensures forall j :: i <= j < |t| ==> t[j] as real >= t[i] as real
    ensures forall j :: 0 <= j < i + 1 ==> t[j] as real <= t[i] as real
  {
  }

  /** The middle of the sorted list meets `IsMedian`. */
  lemma MiddleIsMedian(s: seq<int>, t: seq<int>)
    requires |s| > 0 && t == Sort(s) && |t| == |s|
    ensures IsMedian(s, Middle(t))
  {
    var h := |t| / 2;
    if |t| % 2 == 1 {
      assert |t| - h - 1 == h;
      SortedSplitsAt(s, t, h, |s| / 2, |s| / 2);
      OddMedian(s, t[h], Middle(t));
    } else {
      assert |t| - h == h;
      SortedSplitsAt(s, t, h - 1, |s| / 2 - 1, |s| / 2);
      SortedSplitsAt(s, t, h, |s| / 2, |s| / 2 - 1);
      assert Middle(t) == (t[h - 1] + t[h]) as real / 2.0;
      assert SplitsAt(s, t[h - 1], |s| / 2 - 1, |s| / 2);
      assert SplitsAt(s, t[h], |s| / 2, |s| / 2 - 1);
      EvenMedian(s, t[h - 1], t[h], Middle(t));
    }
  }

  lemma OddMedian(s: seq<int>, v: int, m: real)
    requires |s| % 2 == 1 && SplitsAt(s, v, |s| / 2, |s| / 2) && m == v as real
    ensures IsMedian(s, m)
  {
    assert OddMiddle(s, v);
  }

  lemma EvenMedian(s: seq<int>, a: int, b: int, m: real)
    requires |s| > 0 && |s| % 2 == 0 && m == (a + b) as real / 2.0
    requires SplitsAt(s, a, |s| / 2 - 1, |s| / 2) && SplitsAt(s, b, |s| / 2, |s| / 2 - 1)
    ensures IsMedian(s, m)
  {
    assert LowerMiddle(s, a) && UpperMiddle(s, b);
  }

  /** If every value from position `k` on is above `v`, at least `|t| - k`
      values lie above `v`. */
  lemma {:induction false} CountAboveAtLeast(t: seq<int>, v: real, k: nat)
    requires k <= |t|
    requires forall j :: k <= j < |t| ==> t[j] as real > v
    ensures CountAbove(t, v) >= |t| - k
  {
    if |t| > 0 {
      assert forall j :: 0 <= j < |t| - 1 ==> t[1..][j] == t[j + 1];
      CountAboveAtLeast(t[1..], v, if k == 0 then 0 else k - 1);
    }
  }

  /** If every value before position `k` is below `v`, at least `k` values
      lie below `v`. */
  lemma {:induction false} CountBelowAtLeast(t: seq<int>, v: real, k: nat)
    requires k <= |t|
    requires forall j :: 0 <= j < k ==> t[j] as real < v
    ensures CountBelow(t, v) >= k
  {
    if |t| > 0 && k > 0 {
      assert forall j :: 0 <= j < |t| - 1 ==> t[1..][j] == t[j + 1];
      CountBelowAtLeast(t[1..], v, k - 1);
    }
  }

  /** A value with at most `i` values below it and at most `|t| - i - 1`
      above it is the one at position `i` of the sorted list. */
  lemma SplitsOnlyAt(s: seq<int>, t: seq<int>, i: int, v: int)
    requires Sorted(t) && SameCounts(s, t) && |t| == |s| && 0 <= i < |t|
    requires CountBelow(s, v as real) <= i && CountAbove(s, v as real) <= |t| - i - 1
    ensures v == t[i]
  {
    assert CountBelow(t, v as real) == CountBelow(s, v as real);
    assert CountAbove(t, v as real) == CountAbove(s, v as real);
    SortedOnlyAt(t, i, v);
  }

  /** `s` and `t` have as many values below and above every threshold. */
  ghost predicate SameCounts(s: seq<int>, t: seq<int>)
  {
    forall v: real :: CountBelow(s, v) == CountBelow(t, v) && CountAbove(s, v) == CountAbove(t, v)
  }

  lemma SortSameCounts(s: seq<int>)
    ensures SameCounts(s, Sort(s))
  {
    forall v: real
      ensures CountBelow(s, v) == CountBelow(Sort(s), v) && CountAbove(s, v) == CountAbove(Sort(s), v)
    {
      SortCounts(s, v);
    }
  }

  lemma SortedOnlyAt(t: seq<int>, i: int, v: int)
    requires Sorted(t) && 0 <= i < |t|
    requires CountBelow(t, v as real) <= i && CountAbove(t, v as real) <= |t| - i - 1
    ensures v == t[i]
  {
    if v < t[i] {
      assert forall j :: i <= j < |t| ==> t[j] as real > v as real by {
        SortedAround(t, i);
      }
      CountAboveAtLeast(t, v as real, i);
      assert false;
    } else if v > t[i] {
      assert forall j :: 0 <= j < i + 1 ==> t[j] as real < v as real by {
        SortedAround(t, i);
      }
      CountBelowAtLeast(t, v as real, i + 1);
      assert false;
    }
  }

  /** `IsMedian` pins the median down: `Median(s)` is the only value
      meeting it. */
  lemma MedianUnique(s: seq<int>, m: real)
    requires |s| > 0
    ensures IsMedian(s, m) <==> m == Median(s)
  {
    var t := Sort(s);
    assert |t| == |multiset(t)| == |s|;
    assert Median(s) == Middle(t) by {
      MedianIsMiddle(s);
    }
    if IsMedian(s, m) {
      SortSameCounts(s);
      if |t| % 2 == 1 {
        OddMedianUnique(s, t, m);
      } else {
        EvenMedianUnique(s, t, m);
      }
    }
  }

  lemma OddMedianUnique(s: seq<int>, t: seq<int>, m: real)
    requires Sorted(t) && SameCounts(s, t) && |t| == |s| && |s| % 2 == 1
    ensures IsMedian(s, m) ==> m == Middle(t)
  {
    var h := |t| / 2;
    assert |t| - h - 1 == h;
    forall v: int | OddMiddle(s, v)
      ensures v == t[h]
    {
      SplitsOnlyAt(s, t, h, v);
    }
  }

  lemma EvenMedianUnique(s: seq<int>, t: seq<int>, m: real)
    requires Sorted(t) && SameCounts(s, t) && |t| == |s| > 0 && |s| % 2 == 0
    ensures IsMedian(s, m) ==> m == Middle(t)
  {
    var h := |t| / 2;
    assert |t| - h == h;
    assert IsMedian(s, m) ==> exists a: int, b: int :: LowerMiddle(s, a) && UpperMiddle(s, b) && m == (a + b) as real / 2.0;
    forall a: int, b: int | LowerMiddle(s, a) && UpperMiddle(s, b)
      ensures (a + b) as real / 2.0 == Middle(t)
    {
      SplitsOnlyAt(s, t, h - 1, a);
      SplitsOnlyAt(s, t, h, b);
      MiddleOfEven(t, a, b);
    }
  }

  /** The sample variance (`ddof` 1) and the population variance (`ddof` 0)
      divide the same sum of squared deviations by `n - 1` and by `n`, so the
      sample variance is never the smaller of the two. */
  lemma SampleVersusPopulation(s: seq<int>)
    requires |s| >= 2
    ensures Variance(s, 1) * (|s| - 1) as real == Variance(s, 0) * |s| as real
    ensures Variance(s, 0) <= Variance(s, 1)
  {
    var n := |s|;
    var squares := ScaledSquares(s, n, Sum(s));
    assert Variance(s, 1) == Spread(squares, n, n - 1) by {
      VarianceSpread(s, 1);
    }
    assert Variance(s, 0) == Spread(squares, n, n) by {
      VarianceSpread(s, 0);
    }
    FreedomDiffersByOne(Variance(s, 1), Variance(s, 0), squares, n);
  }

  /** The variance spreads the scaled squares over `n - ddof` degrees of
      freedom. */
  lemma VarianceSpread(s: seq<int>, ddof: nat)
    requires |s| > ddof
    ensures Variance(s, ddof) == Spread(ScaledSquares(s, |s|, Sum(s)), |s|, |s| - ddof)
  {
  }

  /** Spreading the same squares over `n - 1` and over `n` degrees of freedom
      gives values whose products with their own divisors agree, the second
      value being the smaller. */
  lemma FreedomDiffersByOne(sample: real, population: real, squares: nat, n: int)
    requires n >= 2
    requires sample == Spread(squares, n, n - 1) && population == Spread(squares, n, n)
    ensures sample * (n - 1) as real == population * n as real
    ensures population <= sample
  {
    var q, c := squares as real, (n * n) as real;
    assert c > 0.0 by {
      assert n * n > 0;
    }
    DivisorsDifferByOne(q, c, (n - 1) as real, n as real);
  }

  lemma DivisorsDifferByOne(q: real, c: real, m: real, k: real)
    requires q >= 0.0 && c > 0.0 && m > 0.0 && k == m + 1.0
    ensures q / (c * m) * m == q / (c * k) * k
    ensures q / (c * k) <= q / (c * m)
  {
    ScaleOut(q, c, m);
    ScaleOut(q, c, k);
    Regroup(q, c, m);
    Regroup(q, c, k);
    assert q / c >= 0.0;
    LargerDivisor(q / c, m, k);
  }

  lemma ScaleOut(q: real, c: real, m: real)
    requires c > 0.0 && m > 0.0
    ensures q / (c * m) * m == q / c
  {
    var x := q / (c * m);
    assert x * (c * m) == q;
    assert (x * m) * c == q;
  }

  lemma Regroup(q: real, c: real, m: real)
    requires c > 0.0 && m > 0.0
    ensures q / (c * m) == (q / c) / m
  {
    var x := q / (c * m);
    assert x * (c * m) == q;
    assert (x * m) * c == q;
    assert x * m == q / c;
  }

  lemma LargerDivisor(x: real, a: real, b: real)
    requires x >= 0.0 && 0.0 < a <= b
    ensures x / b <= x / a
  {
    var p, r := x / a, x / b;
    assert p * a == x && r * b == x;
    assert r * a <= r * b;
  }

  /** The durations 10, 20, 30: sum 60, extremes 10 and 30, mean and median
      20, and squared deviations 100 + 0 + 100 (scaled by 3^2: 1800). */
  lemma TenTwentyThirty()
    ensures Sum([10, 20, 30]) == 60
    ensures Min([10, 20, 30]) == 10 && Max([10, 20, 30]) == 30
    ensures Mean([10, 20, 30]) == 20.0
    ensures Median([10, 20, 30]) == 20.0
    ensures ScaledSquares([10, 20, 30], 3, 60) == 1800
  {
    SumTenTwentyThirty();
    MeanTenTwentyThirty();
    MedianTenTwentyThirty();
    SquaresTenTwentyThirty();
  }

  /** Their sample variance is 1800 / (3^2 * 2) = 100 and their population
      variance 1800 / (3^2 * 3) = 200 / 3. */
  lemma VarianceTenTwentyThirty()
    ensures Variance([10, 20, 30], 1) == 100.0
    ensures Variance([10, 20, 30], 0) == 200.0 / 3.0
  {
    var s := [10, 20, 30];
    SumTenTwentyThirty();
    SquaresTenTwentyThirty();
    VarianceSpread(s, 1);
    VarianceSpread(s, 0);
    assert Spread(1800, 3, 2) == 100.0;
    assert Spread(1800, 3, 3) == 200.0 / 3.0;
  }

  lemma MeanTenTwentyThirty()
    ensures Mean([10, 20, 30]) == 20.0
  {
    SumTenTwentyThirty();
    assert Mean([10, 20, 30]) * 3.0 == 60.0;
  }

  lemma MedianTenTwentyThirty()
    ensures Median([10, 20, 30]) == 20.0
  {
    var t := [10, 20, 30];
    SortTenTwentyThirty();
    MedianIsMiddle(t);
    assert Middle(t) == 20.0 by {
      assert |t| / 2 == 1 && |t| % 2 == 1 && t[1] == 20;
    }
  }

  /** The median is the middle of the sorted list. */
  lemma MedianIsMiddle(s: seq<int>)
    requires |s| > 0
    ensures Median(s) == Middle(Sort(s))
  {
  }

  lemma SumTenTwentyThirty()
    ensures Sum([10, 20, 30]) == 60
  {
    var s := [10, 20, 30];
    assert s[1..] == [20, 30] && s[1..][1..] == [30];
  }

  lemma SquaresTenTwentyThirty()
    ensures ScaledSquares([10, 20, 30], 3, 60) == 1800
  {
    var s := [10, 20, 30];
    assert s[1..] == [20, 30] && s[1..][1..] == [30];
    assert ScaledSquares(s, 3, 60) == 900 + ScaledSquares([20, 30], 3, 60);
    assert ScaledSquares([20, 30], 3, 60) == 0 + ScaledSquares([30], 3, 60);
  }

  lemma SortTenTwentyThirty()
    ensures Sort([10, 20, 30]) == [10, 20, 30]
  {
    var s := [10, 20, 30];
    assert s[1..] == [20, 30];
    SortTwentyThirty();
    InsertFront(10, [20, 30]);
  }

  lemma SortTwentyThirty()
    ensures Sort([20, 30]) == [20, 30]
  {
    var s := [20, 30];
    assert s[1..] == [30];
    assert Sort([30]) == [30] by {
      assert [30][1..] == [];
    }
    InsertFront(20, [30]);
  }

  /** A value at most the head of a sorted list is inserted in front. */
  lemma InsertFront(x: int, s: seq<int>)
    requires Sorted(s) && |s| > 0 && x <= s[0]
    ensures Insert(x, s) == [x] + s
  {
  }
}
