/** The running-statistics accumulator `Data` (a clone of Axtell's Data.java):
    count, sum, sum of squares, minimum and maximum of a stream of observations,
    with mean and sample variance derived in O(1). Floats are modelled as reals. */
module RunningStats {

  /** `sys.float_info.max`, the largest finite double, (2^53 - 1) * 2^971. */
  const FloatMax: real := 179769313486231570814527423731704356798070567525844996598917476803157260780028538760589558632766878171540458953514382464234321326889464182768467546703537516986049910576551282076245490090389328944075868508455133942304583236903222948165808559332123348274797826204144723168738177180919299881250404026184124858368.0

  /** `sys.float_info.min`: the smallest POSITIVE normalised double, 2^-1022
      (not the most negative double). */
  const FloatMin: real := 1.0 / 44942328371557897693232629769725618340449424473557664318357520289433168951375240783177119330601884005280028469967848339414697442203604155623211857659868531094441973356216371319075554900311523529863270738021251442209537670585615720368478277635206809290837627671146574559986811484619929076208839082406056034304.0

  datatype Data = Data(n: nat, min: real, max: real, sum: real, sum2: real)

  /** A fresh accumulator: no data, the min/max sentinels, zero sums. */
  function Init(): (d: Data)
    ensures d.n == 0 && d.sum == 0.0 && d.sum2 == 0.0
    ensures d.min == FloatMax && d.max == FloatMin && d.max > 0.0
  {
    Data(0, FloatMax, FloatMin, 0.0, 0.0)
  }

  /** Add one observation. */
  function AddDatum(d: Data, v: real): (r: Data)
    ensures r.n == d.n + 1 && r.sum == d.sum + v && r.sum2 == d.sum2 + Square(v)
    ensures r.min <= d.min && r.min <= v && (r.min == d.min || r.min == v)
    ensures r.max >= d.max && r.max >= v && (r.max == d.max || r.max == v)
  {
    Data(d.n + 1,
         if v < d.min then v else d.min,
         if v > d.max then v else d.max,
         d.sum + v,
         d.sum2 + Square(v))
  }

  /** The mean, `0.0` before any datum. */
  function Average(d: Data): (r: real)
    ensures d.n > 0 ==> r * (d.n as real) == d.sum
    ensures d.n == 0 ==> r == 0.0
  {
    if d.n > 0 then d.sum / (d.n as real) else 0.0
  }

  /** The sample variance by the one-pass formula, `0.0` for fewer than two data. */
  function Variance(d: Data): (r: real)
    ensures d.n <= 1 ==> r == 0.0
  {
    if d.n > 1 then
      var avg := Average(d);
      (d.sum2 - (d.n as real) * (avg * avg)) / ((d.n - 1) as real)
    else 0.0
  }

  // ---- Two-pass reference definitions over the whole data sequence ----

  function Identity(x: real): real { x }
  function Square(x: real): real { x * x }

  /** The sum of f(x) over the data. */
  function SumOf(xs: seq<real>, f: real -> real): real {
    if xs == [] then 0.0 else SumOf(xs[..|xs| - 1], f) + f(xs[|xs| - 1])
  }

  function Sum(xs: seq<real>): real { SumOf(xs, Identity) }
  function SumOfSquares(xs: seq<real>): real { SumOf(xs, Square) }

  function Mean(xs: seq<real>): real
    requires |xs| > 0
  {
    Sum(xs) / (|xs| as real)
  }

  /** The sum of squared deviations from m. */
  function SquaredDeviations(xs: seq<real>, m: real): real {
    if xs == [] then 0.0
    else SquaredDeviations(xs[..|xs| - 1], m) + (xs[|xs| - 1] - m) * (xs[|xs| - 1] - m)
  }

  /** The accumulator after feeding `xs` in order to a fresh `Data`.
      Its fields are the two-pass quantities: count, sum, sum of squares, and
      min/max clamped by the starting sentinels. */
  function FromData(xs: seq<real>): (r: Data)
    ensures r.n == |xs| && r.sum == Sum(xs) && r.sum2 == SumOfSquares(xs)
  {
    if xs == [] then Init() else AddDatum(FromData(xs[..|xs| - 1]), xs[|xs| - 1])
  }

  /** `min` is the smaller of `FloatMax` and the least datum; `max` the larger of
      `FloatMin` and the greatest datum. */
  lemma {:induction false} MinMaxOfData(xs: seq<real>)
    ensures var r := FromData(xs);
      && r.min <= FloatMax && (forall i :: 0 <= i < |xs| ==> r.min <= xs[i])
      && (r.min == FloatMax || r.min in xs)
      && r.max >= FloatMin && (forall i :: 0 <= i < |xs| ==> r.max >= xs[i])
      && (r.max == FloatMin || r.max in xs)
  {
    if xs != [] {
      var xs' := xs[..|xs| - 1];
      MinMaxOfData(xs');
      assert forall i :: 0 <= i < |xs'| ==> xs[i] == xs'[i];
      assert forall x :: x in xs' ==> x in xs;
    }
  }

  // ---- Properties ----

  /** After at least one datum no larger than `FloatMax`, `min` is the smallest datum. */
  lemma MinIsSmallestDatum(xs: seq<real>)
    requires |xs| > 0 && forall i :: 0 <= i < |xs| ==> xs[i] <= FloatMax
    ensures FromData(xs).min in xs
    ensures forall i :: 0 <= i < |xs| ==> FromData(xs).min <= xs[i]
  {
    MinMaxOfData(xs);
    assert xs[0] <= FloatMax;
  }

  /** `max` starts at a tiny positive number, so it is never below it; when every
      datum is non-positive it stays there and is not one of the data. */
  lemma MaxStaysAtSentinel(xs: seq<real>)
    requires forall i :: 0 <= i < |xs| ==> xs[i] <= 0.0
    ensures FromData(xs).max == FloatMin
    ensures FromData(xs).max !in xs
  {
    MinMaxOfData(xs);
    assert FloatMin > 0.0;
    assert forall x :: x in xs ==> x <= 0.0;
  }

  lemma {:induction false} SumOfAppend(a: seq<real>, b: seq<real>, f: real -> real)
    ensures SumOf(a + b, f) == SumOf(a, f) + SumOf(b, f)
    decreases |b|
  {
    if b == [] {
      assert a + b == a;
    } else {
      assert (a + b)[..|a + b| - 1] == a + b[..|b| - 1];
      SumOfAppend(a, b[..|b| - 1], f);
    }
  }

  /** The sum does not depend on the order of the data. */
  lemma {:induction false} SumOfPermutation(xs: seq<real>, ys: seq<real>, f: real -> real)
    requires multiset(xs) == multiset(ys)
    ensures SumOf(xs, f) == SumOf(ys, f)
    decreases |ys|
  {
    if ys != [] {
      var y := ys[|ys| - 1];
      var ys' := ys[..|ys| - 1];
      assert ys == ys' + [y];
      assert y in multiset(xs);
      var i :| 0 <= i < |xs| && xs[i] == y;
      var xs' := xs[..i] + xs[i + 1..];
      assert xs == xs[..i] + [y] + xs[i + 1..];
      assert multiset(xs') == multiset(xs) - multiset{y};
      assert multiset(ys') == multiset(ys) - multiset{y};
      SumOfPermutation(xs', ys', f);
      SumOfAppend(xs[..i] + [y], xs[i + 1..], f);
      SumOfAppend(xs[..i], [y], f);
      SumOfAppend(xs[..i], xs[i + 1..], f);
      assert SumOf([y], f) == f(y) by {
        assert [y][..0] == [];
      }
    }
  }

  /** Feeding the same data in any order yields the same accumulator:
      count, sums, min and max are all order-independent. */
  lemma OrderIndependent(xs: seq<real>, ys: seq<real>)
    requires multiset(xs) == multiset(ys)
    ensures FromData(xs) == FromData(ys)
  {
    assert |xs| == |multiset(xs)| == |ys|;
    SumOfPermutation(xs, ys, Identity);
    SumOfPermutation(xs, ys, Square);
    var a, b := FromData(xs), FromData(ys);
    MinMaxOfData(xs);
    MinMaxOfData(ys);
    assert forall x :: x in xs <==> x in ys by {
      forall x ensures x in xs <==> x in ys {
        assert x in xs <==> x in multiset(xs);
        assert x in ys <==> x in multiset(ys);
      }
    }
    assert a.min == b.min by {
      if a.min in xs {
        var i :| 0 <= i < |ys| && ys[i] == a.min;
      }
      if b.min in ys {
        var i :| 0 <= i < |xs| && xs[i] == b.min;
      }
    }
    assert a.max == b.max by {
      if a.max in xs {
        var i :| 0 <= i < |ys| && ys[i] == a.max;
      }
      if b.max in ys {
        var i :| 0 <= i < |xs| && xs[i] == b.max;
      }
    }
  }

  lemma SquareOfDifference(x: real, m: real)
    ensures (x - m) * (x - m) == Square(x) - 2.0 * m * x + m * m
  {}

  lemma SquareNonNegative(y: real)
    ensures y * y >= 0.0
  {
    if y < 0.0 {
      assert y * y == (-y) * (-y);
    }
  }

  lemma {:induction false} SquaredDeviationsExpand(xs: seq<real>, m: real)
    ensures SquaredDeviations(xs, m) == SumOfSquares(xs) - 2.0 * m * Sum(xs) + (|xs| as real) * (m * m)
  {
    if xs != [] {
      var xs', x := xs[..|xs| - 1], xs[|xs| - 1];
      var k := |xs'| as real;
      var mm := m * m;
      SquaredDeviationsExpand(xs', m);
      SquareOfDifference(x, m);
      assert SumOfSquares(xs) == SumOfSquares(xs') + Square(x);
      assert Sum(xs) == Sum(xs') + x;
      assert 2.0 * m * Sum(xs) == 2.0 * m * Sum(xs') + 2.0 * m * x;
      assert (|xs| as real) * mm == k * mm + mm;
    }
  }

  lemma {:induction false} SquaredDeviationsNonNegative(xs: seq<real>, m: real)
    ensures SquaredDeviations(xs, m) >= 0.0
  {
    if xs != [] {
      SquaredDeviationsNonNegative(xs[..|xs| - 1], m);
      SquareNonNegative(xs[|xs| - 1] - m);
    }
  }

  /** The one-pass variance equals the two-pass sample variance
      sum((x - mean)^2) / (N - 1), and so is never negative. */
  lemma VarianceIsTwoPassVariance(xs: seq<real>)
    requires |xs| > 1
    ensures Variance(FromData(xs)) == SquaredDeviations(xs, Mean(xs)) / ((|xs| - 1) as real)
    ensures Variance(FromData(xs)) >= 0.0
  {
    assert Mean(xs) * (|xs| as real) == Sum(xs);
    VarianceAroundAverage(xs, Mean(xs));
    SquaredDeviationsNonNegative(xs, Mean(xs));
    NonNegativeQuotient(SquaredDeviations(xs, Mean(xs)), (|xs| - 1) as real);
  }

  lemma VarianceAroundAverage(xs: seq<real>, m: real)
    requires |xs| > 1 && m * (|xs| as real) == Sum(xs)
    ensures Variance(FromData(xs)) == SquaredDeviations(xs, m) / ((|xs| - 1) as real)
  {
    var d := FromData(xs);
    var n := |xs| as real;
    assert d.n as real == n && d.sum == Sum(xs) && d.sum2 == SumOfSquares(xs);
    SquaredDeviationsExpand(xs, m);
    VarianceOfSums(d, n, m, SquaredDeviations(xs, m));
  }

  /** The one-pass numerator sum2 - N avg^2 equals the expanded two-pass sum
      sum2 - 2 avg sum + N avg^2, because avg N == sum. */
  lemma VarianceOfSums(d: Data, n: real, a: real, dev: real)
    requires d.n > 1 && n == d.n as real && a * n == d.sum
    requires dev == d.sum2 - 2.0 * a * d.sum + n * (a * a)
    ensures Variance(d) == dev / (n - 1.0)
  {
    assert a == Average(d);
    assert 2.0 * a * d.sum == 2.0 * (n * (a * a)) by {
      assert a * d.sum == a * (a * n);
    }
    var num := d.sum2 - n * (a * a);
    assert dev == num;
    assert Variance(d) == num / (n - 1.0);
  }

  lemma NonNegativeQuotient(a: real, b: real)
    requires a >= 0.0 && b > 0.0
    ensures a / b >= 0.0
  {}

  /** When every datum lies in [lo, hi], so does the average. */
  lemma AverageWithin(xs: seq<real>, lo: real, hi: real)
    requires xs != []
    requires forall i :: 0 <= i < |xs| ==> lo <= xs[i] <= hi
    ensures lo <= Average(FromData(xs)) <= hi
  {
    SumBounds(xs, lo, hi);
    AverageOfBoundedSum(xs, |xs| as real, lo, hi);
  }

  lemma AverageOfBoundedSum(xs: seq<real>, n: real, lo: real, hi: real)
    requires xs != [] && n == |xs| as real && n * lo <= Sum(xs) <= n * hi
    ensures lo <= Average(FromData(xs)) <= hi
  {
    var d := FromData(xs);
    assert d.n as real == n && d.sum == Sum(xs);
    QuotientWithin(d.sum, n, lo, hi);
  }

  lemma QuotientWithin(s: real, n: real, lo: real, hi: real)
    requires n > 0.0 && n * lo <= s <= n * hi
    ensures lo <= s / n <= hi
  {
  }

  lemma {:induction false} SumBounds(xs: seq<real>, lo: real, hi: real)
    requires forall i :: 0 <= i < |xs| ==> lo <= xs[i] <= hi
    ensures (|xs| as real) * lo <= Sum(xs) <= (|xs| as real) * hi
  {
    if xs != [] {
      SumBounds(xs[..|xs| - 1], lo, hi);
    }
  }

  /** The worked example: 2, 4, 4, 4, 5, 5, 7, 9 has mean 5, sample variance
      32/7, minimum 2 and maximum 9. */
  lemma WorkedExample()
    ensures var d := FromData([2.0, 4.0, 4.0, 4.0, 5.0, 5.0, 7.0, 9.0]);
      d.n == 8 && Average(d) == 5.0 && Variance(d) == 32.0 / 7.0 && d.min == 2.0 && d.max == 9.0
  {
    var xs := [2.0, 4.0, 4.0, 4.0, 5.0, 5.0, 7.0, 9.0];
    assert [2.0][..0] == [];
    assert FromData([2.0]) == Data(1, 2.0, 2.0, 2.0, 4.0);
    assert [2.0, 4.0][..1] == [2.0];
    assert FromData([2.0, 4.0]) == Data(2, 2.0, 4.0, 6.0, 20.0);
    assert [2.0, 4.0, 4.0][..2] == [2.0, 4.0];
    assert FromData([2.0, 4.0, 4.0]) == Data(3, 2.0, 4.0, 10.0, 36.0);
    assert [2.0, 4.0, 4.0, 4.0][..3] == [2.0, 4.0, 4.0];
    assert FromData([2.0, 4.0, 4.0, 4.0]) == Data(4, 2.0, 4.0, 14.0, 52.0);
    assert [2.0, 4.0, 4.0, 4.0, 5.0][..4] == [2.0, 4.0, 4.0, 4.0];
    assert FromData([2.0, 4.0, 4.0, 4.0, 5.0]) == Data(5, 2.0, 5.0, 19.0, 77.0);
    assert [2.0, 4.0, 4.0, 4.0, 5.0, 5.0][..5] == [2.0, 4.0, 4.0, 4.0, 5.0];
    assert FromData([2.0, 4.0, 4.0, 4.0, 5.0, 5.0]) == Data(6, 2.0, 5.0, 24.0, 102.0);
    assert [2.0, 4.0, 4.0, 4.0, 5.0, 5.0, 7.0][..6] == [2.0, 4.0, 4.0, 4.0, 5.0, 5.0];
    assert FromData([2.0, 4.0, 4.0, 4.0, 5.0, 5.0, 7.0]) == Data(7, 2.0, 7.0, 31.0, 151.0);
    assert xs[..7] == [2.0, 4.0, 4.0, 4.0, 5.0, 5.0, 7.0];
    assert FromData(xs) == Data(8, 2.0, 9.0, 40.0, 232.0);
  }
}
