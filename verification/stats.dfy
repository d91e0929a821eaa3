/** Tie arithmetic for a network of `n` nodes, `c` of them core: the possible
    undirected ties in the whole network, inside the core, and touching the
    periphery, and the two densities built from them. Python's true division
    is a real quotient; `int()` truncates toward zero. */
module Stats {
  import opened Errors

  /** Python's `int()` applied to a float: truncation toward zero. */
  function Truncate(x: real): (r: int)
    ensures x >= 0.0 ==> (r as real) <= x < (r as real) + 1.0
    ensures x < 0.0 ==> (r as real) - 1.0 < x <= (r as real)
  {
    if x >= 0.0 then x.Floor else -((-x).Floor)
  }

  /** `int((k*(k-1))/2)`: the number of unordered pairs among k nodes. */
  function PairCount(k: int): (r: int)
    ensures 2 * r == k * (k - 1)
    ensures r >= 0
  {
    ConsecutiveProductEven(k);
    Truncate(((k * (k - 1)) as real) / 2.0)
  }

  /** k(k-1) is even and never negative, so halving it then truncating is exact. */
  lemma ConsecutiveProductEven(k: int)
    ensures k * (k - 1) >= 0
    ensures Truncate(((k * (k - 1)) as real) / 2.0) * 2 == k * (k - 1)
  {
    var m := HalfConsecutiveProduct(k);
    ConsecutiveProductNonNegative(k);
    HalfOfEven(k * (k - 1), m);
  }

  lemma HalfConsecutiveProduct(k: int) returns (m: int)
    ensures k * (k - 1) == 2 * m
  {
    var h := k / 2;
    if k == 2 * h {
      m := h * (k - 1);
    } else {
      assert k - 1 == 2 * h;
      m := k * h;
    }
  }

  lemma ConsecutiveProductNonNegative(k: int)
    ensures k * (k - 1) >= 0
  {
    if k <= 0 {
      assert k * (k - 1) == (-k) * (1 - k);
    }
  }

  lemma HalfOfEven(x: int, m: int)
    requires x == 2 * m && x >= 0
    ensures Truncate((x as real) / 2.0) * 2 == x
  {
    assert (x as real) / 2.0 == m as real;
  }

  datatype Ties = Ties(total: int, core: int, periph: int)

  /** `possibleTies(n, c)`: total, core and peripheral possible ties. */
  function PossibleTies(n: int, c: int): (t: Ties)
    ensures 2 * t.total == n * (n - 1) && 2 * t.core == c * (c - 1)
    ensures t.total == t.core + t.periph
  {
    var total := PairCount(n);
    var core := PairCount(c);
    Ties(total, core, Truncate((total - core) as real))
  }

  /** The docstring's reading of the peripheral count: ties between the p
      periphery nodes and the c core nodes, plus ties among the periphery. */
  lemma PeripheralTiesSplit(c: int, p: int)
    requires c >= 0 && p >= 0
    ensures PossibleTies(c + p, c).periph == p * c + PairCount(p)
    ensures PossibleTies(c + p, c).periph >= 0
  {
    var n := c + p;
    assert n * (n - 1) == c * (c - 1) + 2 * (p * c) + p * (p - 1);
    assert p * c >= 0;
  }

  /** There is nothing to connect exactly when the periphery is empty, or is a
      single node with no core beside it. */
  lemma NoPeripheralTies(c: int, p: int)
    requires c >= 0 && p >= 0
    ensures PossibleTies(c + p, c).periph == 0 <==> p == 0 || (p == 1 && c == 0)
  {
    PeripheralTiesSplit(c, p);
    if p >= 2 {
      assert 2 * PairCount(p) == p * (p - 1) >= 2;
    } else if p == 1 && c > 0 {
      assert p * c > 0;
    }
  }

  /** `calcPerpipheralDensity`: peripheral ties over possible peripheral ties;
      Python raises `ZeroDivisionError` when there are none possible. */
  function CalcPeripheralDensity(pties: int, c: int, p: int): (r: Result<real>)
    ensures var possible := PossibleTies(c + p, c).periph;
      && (r.Err? <==> possible == 0)
      && (r.Err? ==> r.error == ZeroDivision)
      && (r.Ok? ==> r.value * (possible as real) == pties as real)
  {
    var possible := PossibleTies(c + p, c).periph;
    if possible == 0 then Err(ZeroDivision) else Ok((pties as real) / (possible as real))
  }

  /** `calcNxDensity`: all ties (the complete core plus the peripheral ties)
      over all possible ties; a zero denominator raises. */
  function CalcNxDensity(pties: int, c: int, p: int): (r: Result<real>)
    ensures var t := PossibleTies(c + p, c);
      && (r.Err? <==> t.total == 0)
      && (r.Err? ==> r.error == ZeroDivision)
      && (r.Ok? ==> r.value * (t.total as real) == (pties + t.core) as real)
  {
    var t := PossibleTies(c + p, c);
    if t.total == 0 then Err(ZeroDivision) else Ok(((pties + t.core) as real) / (t.total as real))
  }

  /** A numexpr quotient: a float, or inf/nan where the denominator is zero
      (numexpr does not raise). */
  datatype Float = Finite(value: real) | NonFinite

  /** The closed form of `optimizedCalcPeriphDensity`, with float operands. */
  function OptimizedPeriphDensity(pt: real, cn: real, pn: real): (r: Float)
    ensures var tn := cn + pn;
      var den := (tn * (tn - 1.0)) / 2.0 - (cn * (cn - 1.0)) / 2.0;
      && (r.NonFinite? <==> den == 0.0)
      && (r.Finite? ==> r.value * den == pt)
  {
    var tn := cn + pn;
    var den := (tn * (tn - 1.0)) / 2.0 - (cn * (cn - 1.0)) / 2.0;
    if den == 0.0 then NonFinite else Finite(pt / den)
  }

  /** The closed form of `optimizedCalcNxDensity`, with float operands. */
  function OptimizedNxDensity(pt: real, cn: real, pn: real): (r: Float)
    ensures var tn := cn + pn;
      var den := (tn * (tn - 1.0)) / 2.0;
      && (r.NonFinite? <==> den == 0.0)
      && (r.Finite? ==> r.value * den == pt + (cn * (cn - 1.0)) / 2.0)
  {
    var tn := cn + pn;
    var den := (tn * (tn - 1.0)) / 2.0;
    if den == 0.0 then NonFinite else Finite((pt + (cn * (cn - 1.0)) / 2.0) / den)
  }

  /** Halving k(k-1) over the reals gives the integer pair count. */
  lemma HalfPairsAsReal(k: int, kr: real)
    requires kr == k as real
    ensures (kr * (kr - 1.0)) / 2.0 == PairCount(k) as real
  {
    assert kr * (kr - 1.0) == (k * (k - 1)) as real;
  }

  /** Standard and optimized peripheral densities agree on integer inputs:
      the same value where the standard one succeeds, and a non-finite float
      exactly where it raises. */
  lemma OptimizedPeriphDensityAgrees(pties: int, c: int, p: int)
    ensures CalcPeripheralDensity(pties, c, p).Ok? <==> OptimizedPeriphDensity(pties as real, c as real, p as real).Finite?
    ensures CalcPeripheralDensity(pties, c, p).Ok? ==>
      CalcPeripheralDensity(pties, c, p).value == OptimizedPeriphDensity(pties as real, c as real, p as real).value
  {
    HalfPairsAsReal(c + p, (c as real) + (p as real));
    HalfPairsAsReal(c, c as real);
  }

  /** Standard and optimized network densities agree on integer inputs. */
  lemma OptimizedNxDensityAgrees(pties: int, c: int, p: int)
    ensures CalcNxDensity(pties, c, p).Ok? <==> OptimizedNxDensity(pties as real, c as real, p as real).Finite?
    ensures CalcNxDensity(pties, c, p).Ok? ==>
      CalcNxDensity(pties, c, p).value == OptimizedNxDensity(pties as real, c as real, p as real).value
  {
    HalfPairsAsReal(c + p, (c as real) + (p as real));
    HalfPairsAsReal(c, c as real);
  }

  /** The density is a proportion exactly when the tie count is feasible. */
  lemma PeripheralDensityIsProportion(pties: int, c: int, p: int)
    requires CalcPeripheralDensity(pties, c, p).Ok?
    requires c >= 0 && p >= 0
    ensures var d := CalcPeripheralDensity(pties, c, p).value;
      0.0 <= d <= 1.0 <==> 0 <= pties <= PossibleTies(c + p, c).periph
  {
    PeripheralTiesSplit(c, p);
    var possible := PossibleTies(c + p, c).periph;
    ProportionBounds(pties as real, possible as real, CalcPeripheralDensity(pties, c, p).value);
  }

  lemma ProportionBounds(a: real, b: real, q: real)
    requires b > 0.0 && q * b == a
    ensures 0.0 <= q <= 1.0 <==> 0.0 <= a <= b
  {
    if q < 0.0 {
      assert q * b < 0.0;
    }
    if q > 1.0 {
      assert q * b > 1.0 * b;
    }
    if a < 0.0 {
      assert q < 0.0;
    }
    if a > b {
      assert q > 1.0;
    }
  }

  /** The test rows of the density test: standard densities for each
      (pties, core, periphery) triple; (10, 1, 1) gives a "density" of 10. */
  lemma DensityTestRows()
    ensures CalcPeripheralDensity(10, 1, 1) == Ok(10.0)
    ensures CalcPeripheralDensity(1, 1, 1) == Ok(1.0)
    ensures CalcNxDensity(10, 1, 1) == Ok(10.0)
    ensures CalcNxDensity(10, 10, 20) == Ok(55.0 / 435.0)
    ensures CalcPeripheralDensity(10, 10, 20) == Ok(10.0 / 390.0)
  {
    assert PossibleTies(2, 1) == Ties(1, 0, 1);
    assert PossibleTies(30, 10) == Ties(435, 45, 390);
  }

  /** The test's hand-written `dens` formula, as true division. */
  function ReferenceDensity(pt: int, cn: int, pn: int): real
    requires (cn + pn) * (cn + pn - 1) != 0
  {
    var tn := cn + pn;
    (((cn * (cn - 1)) as real) / 2.0 + pt as real) / (((tn * (tn - 1)) as real) / 2.0)
  }

  /** Network density equals the test's reference formula whenever it is defined. */
  lemma NxDensityMatchesReference(pties: int, c: int, p: int)
    requires (c + p) * (c + p - 1) != 0
    ensures CalcNxDensity(pties, c, p) == Ok(ReferenceDensity(pties, c, p))
  {
    var t := PossibleTies(c + p, c);
    assert ((c * (c - 1)) as real) / 2.0 == t.core as real;
    assert (((c + p) * (c + p - 1)) as real) / 2.0 == t.total as real;
  }
}
