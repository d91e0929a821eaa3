/** Python 2.7's `random.shuffle` and `random.sample`, with the random draws
    passed in. `draw(i)` is the raw value behind the i-th call of `random()`;
    where Python computes `int(random() * m)` the model takes `draw(i) % m`,
    which reaches every index Python can pick; `Slot` computes that remainder. */
module Sampling {
  import opened Errors
  import opened Seqs

  /** The index `int(random() * n)` picked by the raw draw d: d mod n, by
      repeated subtraction. */
  function Slot(d: nat, n: nat): (r: nat)
    requires n > 0
    ensures r < n
    decreases d
  {
    if d < n then d else Slot(d - n, n)
  }

  /** Slot is the remainder of d by n. */
  lemma {:induction false} SlotIsRemainder(d: nat, n: nat)
    requires n > 0
    ensures Slot(d, n) == d % n
    decreases d
  {
    if d >= n {
      SlotIsRemainder(d - n, n);
      ShiftRemainder(d, n);
    }
  }

  lemma ShiftRemainder(d: int, n: int)
    requires n > 0
    ensures (d - n) % n == d % n
  {
    var a, b := d / n, (d - n) / n;
    assert (a - b - 1) * n == (d - n) % n - d % n;
    ZeroMultiple(a - b - 1, n, (d - n) % n - d % n);
  }

  lemma ZeroMultiple(x: int, n: int, y: int)
    requires n > 0 && x * n == y && -n < y < n
    ensures y == 0
  {
    if x >= 1 {
      assert x * n == n + (x - 1) * n;
    } else if x <= -1 {
      assert x * n == -n + (x + 1) * n;
    }
  }

  /** Exchange the elements at positions i and j. */
  function Swap<T>(xs: seq<T>, i: nat, j: nat): (r: seq<T>)
    requires i < |xs| && j < |xs|
    ensures |r| == |xs| && r[i] == xs[j] && r[j] == xs[i]
    ensures forall k :: 0 <= k < |xs| && k != i && k != j ==> r[k] == xs[k]
    ensures multiset(r) == multiset(xs)
  {
    SwapPreservesMultiset(xs, i, j);
    xs[i := xs[j]][j := xs[i]]
  }

  lemma SwapPreservesMultiset<T>(xs: seq<T>, i: nat, j: nat)
    requires i < |xs| && j < |xs|
    ensures multiset(xs[i := xs[j]][j := xs[i]]) == multiset(xs)
  {
    var ys := xs[i := xs[j]];
    assert multiset(ys) == multiset(xs) - multiset{xs[i]} + multiset{xs[j]};
    assert multiset(ys[j := xs[i]]) == multiset(ys) - multiset{ys[j]} + multiset{xs[i]};
  }

  /** `random.shuffle(xs)`: for i from |xs|-1 down to 1, swap position i with
      position `int(random() * (i+1))`. */
  function Shuffle<T>(xs: seq<T>, draw: nat -> nat): (r: seq<T>)
    ensures |r| == |xs| && multiset(r) == multiset(xs)
  {
    if |xs| <= 1 then xs else ShuffleDown(xs, |xs| - 1, draw)
  }

  /** The Fisher-Yates passes for positions i, i-1, ..., 1. */
  function ShuffleDown<T>(xs: seq<T>, i: nat, draw: nat -> nat): (r: seq<T>)
    requires i < |xs|
    ensures |r| == |xs| && multiset(r) == multiset(xs)
    decreases i
  {
    if i == 0 then xs else ShuffleDown(Swap(xs, i, Slot(draw(i), i + 1)), i - 1, draw)
  }

  /** A shuffled sequence has exactly the members of the original. */
  lemma ShuffleSameMembers<T>(xs: seq<T>, draw: nat -> nat, x: T)
    ensures x in Shuffle(xs, draw) <==> x in xs
  {
    assert x in multiset(Shuffle(xs, draw)) <==> x in multiset(xs);
  }

  /** Shuffling a sequence without repetitions leaves none. */
  lemma ShuffleDistinct<T>(xs: seq<T>, draw: nat -> nat)
    requires Distinct(xs)
    ensures Distinct(Shuffle(xs, draw))
  {
    var r := Shuffle(xs, draw);
    forall i, j | 0 <= i < j < |r| ensures r[i] != r[j] {
      DistinctMultiplicity(xs, r[i]);
      RepeatedElement(r, i, j);
    }
  }

  /** `random.sample(population, k)`: k elements drawn without replacement, in
      draw order. A k outside 0..|population| raises `ValueError`. Python 2.7
      has two branches: for a population of at most `setsize` (21, plus
      4**ceil(log(3k, 4)) when k > 5) it takes from a shrinking pool, and for a
      larger one it draws `int(random() * n)` and redraws a position already
      chosen. The model runs the pool branch for every population; both
      branches yield k elements at different positions in draw order, and
      SampleReachesAll shows the pool branch reaches every such result, so
      the two have the same results but map the draws to them differently. */
  function Sample<T>(population: seq<T>, k: int, draw: nat -> nat): (r: Result<seq<T>>)
    ensures r.Err? <==> !(0 <= k <= |population|)
    ensures r.Err? ==> r.error == SampleSize
    ensures r.Ok? ==> |r.value| == k && multiset(r.value) <= multiset(population)
  {
    if 0 <= k <= |population| then
      Ok(SamplePool(population, k, 0, draw))
    else Err(SampleSize)
  }

  /** The pool algorithm: take `pool[j]`, move the last element of the pool into
      slot j, and shrink the pool by one. `i` numbers the draws. */
  function SamplePool<T>(pool: seq<T>, k: nat, i: nat, draw: nat -> nat): (r: seq<T>)
    requires k <= |pool|
    ensures |r| == k
    ensures multiset(r) <= multiset(pool)
    decreases k
  {
    if k == 0 then []
    else
      var j := Slot(draw(i), |pool|);
      var rest := TakeOut(pool, j);
      var tail := SamplePool(rest, k - 1, i + 1, draw);
      TakeFromPool(pool, j);
      UnionSubset(multiset{pool[j]}, multiset(tail), multiset(rest));
      [pool[j]] + tail
  }

  /** The pool once slot j is taken: its last element moves into slot j. */
  function TakeOut<T>(pool: seq<T>, j: nat): (rest: seq<T>)
    requires j < |pool|
    ensures |rest| == |pool| - 1
  {
    pool[j := pool[|pool| - 1]][..|pool| - 1]
  }

  lemma UnionSubset<T>(a: multiset<T>, b: multiset<T>, c: multiset<T>)
    requires b <= c
    ensures a + b <= a + c
  {
    forall o ensures (a + b)[o] <= (a + c)[o] {
      assert b[o] <= c[o];
    }
  }

  /** Taking slot j out of the pool leaves the other elements. */
  lemma TakeFromPool<T>(pool: seq<T>, j: nat)
    requires j < |pool|
    ensures multiset(pool) == multiset{pool[j]} + multiset(TakeOut(pool, j))
  {
    var last := |pool| - 1;
    var front := pool[..last];
    assert pool == front + [pool[last]];
    assert multiset(pool) == multiset(front) + multiset{pool[last]};
    if j == last {
      assert TakeOut(pool, j) == front;
    } else {
      assert TakeOut(pool, j) == front[j := pool[last]];
      assert multiset(front[j := pool[last]]) == multiset(front) - multiset{front[j]} + multiset{pool[last]};
    }
  }

  /** Every multiplicity is at most one. */
  lemma DistinctMultiplicity<T>(s: seq<T>, x: T)
    requires Distinct(s)
    ensures multiset(s)[x] <= 1
  {
    if s != [] {
      DistinctMultiplicity(s[1..], x);
      assert s == [s[0]] + s[1..];
      if s[0] == x {
        assert x !in s[1..];
      }
    }
  }

  /** A sample drawn from a population without repetitions has none either. */
  lemma SampleDistinct<T>(population: seq<T>, k: int, draw: nat -> nat)
    requires Distinct(population) && Sample(population, k, draw).Ok?
    ensures Distinct(Sample(population, k, draw).value)
    ensures forall i :: 0 <= i < k ==> Sample(population, k, draw).value[i] in population
  {
    var r := Sample(population, k, draw).value;
    forall i, j | 0 <= i < j < |r| ensures r[i] != r[j] {
      DistinctMultiplicity(population, r[i]);
      RepeatedElement(r, i, j);
    }
    forall i | 0 <= i < k ensures r[i] in population {
      assert r[i] in multiset(r);
    }
  }

  lemma RepeatedElement<T>(r: seq<T>, i: nat, j: nat)
    requires i < j < |r|
    ensures r[i] == r[j] ==> multiset(r)[r[i]] >= 2
  {
    assert r == r[..j] + [r[j]] + r[j + 1..];
    assert r[..j] == r[..i] + [r[i]] + r[i + 1..j];
  }

  /** Sampling the whole population takes every element. */
  lemma FullSampleTakesAll<T>(population: seq<T>, draw: nat -> nat)
    ensures multiset(Sample(population, |population|, draw).value) == multiset(population)
  {
    var r := Sample(population, |population|, draw).value;
    var d := multiset(population) - multiset(r);
    assert |multiset(population)| == |multiset(r)| + |d|;
  }

  /** Draws that always pick the last slot of the pool take the pool's last k
      elements, last first. */
  lemma {:induction false} SampleFromEnd<T>(pool: seq<T>, k: nat, i: nat, draw: nat -> nat)
    requires k <= |pool|
    requires forall t :: i <= t < i + k ==> draw(t) == |pool| + i - t - 1
    ensures forall t :: 0 <= t < k ==> SamplePool(pool, k, i, draw)[t] == pool[|pool| - 1 - t]
  {
    if k > 0 {
      var rest := pool[..|pool| - 1];
      TakeLastSlot(pool, k, i, draw);
      forall t | i + 1 <= t < i + k ensures draw(t) == |rest| + (i + 1) - t - 1 {
        assert draw(t) == |pool| + i - t - 1;
      }
      SampleFromEnd(rest, k - 1, i + 1, draw);
      PicksFromEnd(pool, SamplePool(pool, k, i, draw), SamplePool(rest, k - 1, i + 1, draw));
    }
  }

  /** Taking the last element before the last elements of the rest of the pool. */
  lemma PicksFromEnd<T>(pool: seq<T>, r: seq<T>, tail: seq<T>)
    requires 0 < |r| <= |pool| && r == [pool[|pool| - 1]] + tail
    requires forall t :: 0 <= t < |tail| ==> tail[t] == pool[..|pool| - 1][|pool| - 2 - t]
    ensures forall t :: 0 <= t < |r| ==> r[t] == pool[|pool| - 1 - t]
  {
    forall t | 0 <= t < |r| ensures r[t] == pool[|pool| - 1 - t] {
      if t > 0 {
        assert r[t] == tail[t - 1];
      }
    }
  }

  lemma TakeLastSlot<T>(pool: seq<T>, k: nat, i: nat, draw: nat -> nat)
    requires 0 < k <= |pool| && draw(i) == |pool| - 1
    ensures SamplePool(pool, k, i, draw) == [pool[|pool| - 1]] + SamplePool(pool[..|pool| - 1], k - 1, i + 1, draw)
  {
    var last := |pool| - 1;
    assert TakeOut(pool, last) == pool[..last];
  }

  /** Every arrangement of elements the population can supply is a possible
      sample: the results Sample admits are exactly the sequences of length k
      whose multiset lies within the population. These are also the results
      of Python's set-based branch, which draws positions until it has k
      different ones. */
  lemma SampleReachesAll<T>(population: seq<T>, t: seq<T>)
    requires multiset(t) <= multiset(population)
    ensures exists draw: nat -> nat :: Sample(population, |t|, draw) == Ok(t)
  {
    var draw := PoolReaching(population, t, 0);
    assert Sample(population, |t|, draw) == Ok(t);
  }

  /** Draws, from the i-th on, under which the pool algorithm yields t. */
  lemma {:induction false} PoolReaching<T>(pool: seq<T>, t: seq<T>, i: nat) returns (draw: nat -> nat)
    requires multiset(t) <= multiset(pool)
    ensures |t| <= |pool| && SamplePool(pool, |t|, i, draw) == t
    decreases |t|
  {
    if t == [] {
      draw := (x: nat) => 0;
    } else {
      var j := FirstSlot(pool, t);
      var rest := TakeOut(pool, j);
      var later := PoolReaching(rest, t[1..], i + 1);
      draw := Prepend(i, j, later);
      PoolExtends(pool, t, i, j, later);
    }
  }

  /** The draws `later` with the i-th draw replaced by j. */
  function Prepend(i: nat, j: nat, later: nat -> nat): nat -> nat {
    (x: nat) => if x == i then j else later(x)
  }

  /** One more draw, picking the slot of t's first element, in front of draws
      that yield the rest of t from the rest of the pool, yields t. */
  lemma PoolExtends<T>(pool: seq<T>, t: seq<T>, i: nat, j: nat, later: nat -> nat)
    requires t != [] && |t| <= |pool| && j < |pool| && pool[j] == t[0]
    requires SamplePool(TakeOut(pool, j), |t| - 1, i + 1, later) == t[1..]
    ensures SamplePool(pool, |t|, i, Prepend(i, j, later)) == t
  {
    var draw := Prepend(i, j, later);
    PoolReadsLater(TakeOut(pool, j), |t| - 1, i + 1, later, draw);
    TakeSlot(pool, |t|, i, draw, j);
    assert t == [t[0]] + t[1..];
  }

  /** A slot of the pool holding t's first element; the rest of t is then
      within the pool once that slot is taken out. */
  lemma FirstSlot<T>(pool: seq<T>, t: seq<T>) returns (j: nat)
    requires t != [] && multiset(t) <= multiset(pool)
    ensures j < |pool| && pool[j] == t[0]
    ensures multiset(t[1..]) <= multiset(TakeOut(pool, j))
  {
    assert t[0] in multiset(pool) by { assert t[0] in multiset(t); }
    j :| 0 <= j < |pool| && pool[j] == t[0];
    TakeFromPool(pool, j);
    assert t == [t[0]] + t[1..];
    assert multiset(t) == multiset{pool[j]} + multiset(t[1..]);
    CancelSubset(multiset{pool[j]}, multiset(t[1..]), multiset(TakeOut(pool, j)));
  }

  /** A draw that picks slot j takes pool[j] and continues on the rest. */
  lemma TakeSlot<T>(pool: seq<T>, k: nat, i: nat, draw: nat -> nat, j: nat)
    requires 0 < k <= |pool| && j < |pool| && draw(i) == j
    ensures SamplePool(pool, k, i, draw) == [pool[j]] + SamplePool(TakeOut(pool, j), k - 1, i + 1, draw)
  {
    assert Slot(draw(i), |pool|) == j;
  }

  /** The pool algorithm from draw i on reads no draw before the i-th. */
  lemma {:induction false} PoolReadsLater<T>(pool: seq<T>, k: nat, i: nat, d1: nat -> nat, d2: nat -> nat)
    requires k <= |pool| && forall x: nat :: x >= i ==> d1(x) == d2(x)
    ensures SamplePool(pool, k, i, d1) == SamplePool(pool, k, i, d2)
    decreases k
  {
    if k > 0 {
      PoolReadsLater(TakeOut(pool, Slot(d1(i), |pool|)), k - 1, i + 1, d1, d2);
    }
  }

  lemma CancelSubset<T>(a: multiset<T>, b: multiset<T>, c: multiset<T>)
    requires a + b <= a + c
    ensures b <= c
  {
    forall o ensures b[o] <= c[o] {
      assert (a + b)[o] <= (a + c)[o];
    }
  }
}
