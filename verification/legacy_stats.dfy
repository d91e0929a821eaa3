/** The earlier top-level tie arithmetic: the same formulas, but the counts
    stay floats from true division instead of being truncated by `int()`. */
module LegacyStats {
  import opened Errors
  import Stats

  datatype FloatTies = FloatTies(total: real, core: real, periph: real)

  /** Legacy `possibleTies(n, c)`, every count a float quotient. */
  function PossibleTies(n: int, c: int): (t: FloatTies)
    ensures t.total * 2.0 == (n * (n - 1)) as real
    ensures t.core * 2.0 == (c * (c - 1)) as real
    ensures t.total == t.core + t.periph
  {
    var total := ((n * (n - 1)) as real) / 2.0;
    var core := ((c * (c - 1)) as real) / 2.0;
    FloatTies(total, core, total - core)
  }

  /** The float counts are exact: they equal the package's integer counts. */
  lemma PossibleTiesAgree(n: int, c: int)
    ensures var t, u := PossibleTies(n, c), Stats.PossibleTies(n, c);
      t.total == u.total as real && t.core == u.core as real && t.periph == u.periph as real
  {
    var u := Stats.PossibleTies(n, c);
    assert ((n * (n - 1)) as real) / 2.0 == u.total as real;
    assert ((c * (c - 1)) as real) / 2.0 == u.core as real;
  }

  /** Legacy `calcPerpipheralDensity`: raises when no peripheral tie is possible. */
  function CalcPeripheralDensity(pties: int, c: int, p: int): (r: Result<real>)
    ensures var possible := PossibleTies(c + p, c).periph;
      && (r.Err? <==> possible == 0.0)
      && (r.Err? ==> r.error == ZeroDivision)
      && (r.Ok? ==> r.value * possible == pties as real)
  {
    var possible := PossibleTies(c + p, c).periph;
    if possible == 0.0 then Err(ZeroDivision) else Ok((pties as real) / possible)
  }

  /** The legacy and package peripheral densities are the same function. */
  lemma PeripheralDensityAgrees(pties: int, c: int, p: int)
    ensures CalcPeripheralDensity(pties, c, p) == Stats.CalcPeripheralDensity(pties, c, p)
  {
    PossibleTiesAgree(c + p, c);
  }

  /** The legacy `optimizedCalcPeriphDensity` has the package's closed form;
      over integer inputs it matches the legacy standard density. */
  lemma OptimizedPeriphDensityAgrees(pties: int, c: int, p: int)
    ensures CalcPeripheralDensity(pties, c, p).Ok? <==> Stats.OptimizedPeriphDensity(pties as real, c as real, p as real).Finite?
    ensures CalcPeripheralDensity(pties, c, p).Ok? ==>
      CalcPeripheralDensity(pties, c, p).value == Stats.OptimizedPeriphDensity(pties as real, c as real, p as real).value
  {
    PeripheralDensityAgrees(pties, c, p);
    Stats.OptimizedPeriphDensityAgrees(pties, c, p);
  }
}
