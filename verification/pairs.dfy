/** The edge enumerations the generator draws from: the row-major product of
    two node lists, `dissimilarProduct` (the product without self-pairs) and
    `itertools.combinations(xs, 2)`. */
module Pairs {
  import opened Seqs
  import Stats

  type Pair = (nat, nat)

  /** (x, y) for each y of ys, in order. */
  function Row(x: nat, ys: seq<nat>): (r: seq<Pair>)
    ensures |r| == |ys|
    ensures forall j :: 0 <= j < |ys| ==> r[j] == (x, ys[j])
  {
    if ys == [] then [] else [(x, ys[0])] + Row(x, ys[1..])
  }

  /** All pairs (xs[i], ys[j]) in row-major order. */
  function Product(xs: seq<nat>, ys: seq<nat>): (r: seq<Pair>)
    ensures |r| == |xs| * |ys|
  {
    if xs == [] then []
    else
      MulSucc(|xs| - 1, |ys|);
      Row(xs[0], ys) + Product(xs[1..], ys)
  }

  /** The product holds exactly the pairs drawn from xs and ys. */
  lemma {:induction false} ProductMembers(xs: seq<nat>, ys: seq<nat>)
    ensures forall e :: e in Product(xs, ys) <==> e.0 in xs && e.1 in ys
  {
    if xs != [] {
      ProductMembers(xs[1..], ys);
      RowMembers(xs[0], ys);
      assert Product(xs, ys) == Row(xs[0], ys) + Product(xs[1..], ys);
      assert forall x :: x in xs <==> x == xs[0] || x in xs[1..];
    }
  }

  lemma RowMembers(x: nat, ys: seq<nat>)
    ensures forall e :: e in Row(x, ys) <==> e.0 == x && e.1 in ys
  {
    forall e: Pair | e.0 == x && e.1 in ys ensures e in Row(x, ys) {
      var j :| 0 <= j < |ys| && ys[j] == e.1;
      assert Row(x, ys)[j] == e;
    }
  }

  lemma MulSucc(a: int, b: int)
    ensures (a + 1) * b == b + a * b
  {}

  /** Row-major order: pair (i, j) of the product sits at index i * |ys| + j. */
  lemma {:induction false} ProductIndex(xs: seq<nat>, ys: seq<nat>, i: nat, j: nat, idx: nat)
    requires i < |xs| && j < |ys| && idx == i * |ys| + j
    ensures idx < |Product(xs, ys)| && Product(xs, ys)[idx] == (xs[i], ys[j])
  {
    var row := Row(xs[0], ys);
    var rest := Product(xs[1..], ys);
    assert Product(xs, ys) == row + rest;
    if i == 0 {
      assert (row + rest)[j] == row[j];
    } else {
      var m := idx - |ys|;
      assert m == (i - 1) * |ys| + j by {
        MulSucc(i - 1, |ys|);
      }
      ProductIndex(xs[1..], ys, i - 1, j, m);
      ConcatIndex(row, rest, m);
    }
  }

  /** Lists without repetitions give a product without repetitions. */
  lemma {:induction false} ProductDistinct(xs: seq<nat>, ys: seq<nat>)
    requires Distinct(xs) && Distinct(ys)
    ensures Distinct(Product(xs, ys))
  {
    if xs != [] {
      var row := Row(xs[0], ys);
      var rest := Product(xs[1..], ys);
      assert Distinct(xs[1..]);
      ProductDistinct(xs[1..], ys);
      ProductMembers(xs[1..], ys);
      assert xs[0] !in xs[1..];
      forall i, j | 0 <= i < j < |row| ensures row[i] != row[j] {
        assert ys[i] != ys[j];
      }
      DistinctConcat(row, rest);
      assert Product(xs, ys) == row + rest;
    }
  }

  lemma ConcatIndex<T>(a: seq<T>, b: seq<T>, m: nat)
    requires m < |b|
    ensures (a + b)[|a| + m] == b[m]
  {}

  predicate NotLoop(e: Pair) { e.0 != e.1 }

  /** `dissimilarProduct(A, B)`: the product without pairs of equal nodes. */
  function DissimilarProduct(xs: seq<nat>, ys: seq<nat>): (r: seq<Pair>)
    ensures forall e :: e in r <==> e.0 in xs && e.1 in ys && e.0 != e.1
  {
    ProductMembers(xs, ys);
    Filter(Product(xs, ys), NotLoop)
  }

  /** Between lists with no node in common nothing is dropped. */
  lemma DisjointProductLength(xs: seq<nat>, ys: seq<nat>)
    requires forall x :: x in xs ==> x !in ys
    ensures DissimilarProduct(xs, ys) == Product(xs, ys)
    ensures |DissimilarProduct(xs, ys)| == |xs| * |ys|
  {
    var pr := Product(xs, ys);
    forall i | 0 <= i < |pr| ensures NotLoop(pr[i]) {
      ProductMembers(xs, ys);
      assert pr[i] in pr;
    }
    FilterAll(pr, NotLoop);
  }

  /** A row of a list without repetitions loses exactly the self-pair. */
  lemma {:induction false} RowWithoutLoops(x: nat, ys: seq<nat>)
    requires Distinct(ys)
    ensures |Filter(Row(x, ys), NotLoop)| == if x in ys then |ys| - 1 else |ys|
  {
    if ys != [] {
      var ys' := ys[1..];
      assert Distinct(ys');
      RowWithoutLoops(x, ys');
      assert Row(x, ys) == [(x, ys[0])] + Row(x, ys');
      assert Filter(Row(x, ys), NotLoop) ==
        (if x != ys[0] then [(x, ys[0])] else []) + Filter(Row(x, ys'), NotLoop) by {
        FilterAppend([(x, ys[0])], Row(x, ys'), NotLoop);
      }
      assert x in ys <==> x == ys[0] || x in ys';
      if x == ys[0] {
        assert x !in ys';
      }
    }
  }

  /** Every row of xs against a list ys without repetitions that contains all
      of xs loses one pair. */
  lemma {:induction false} SelfProductRows(xs: seq<nat>, ys: seq<nat>)
    requires Distinct(ys) && forall x :: x in xs ==> x in ys
    ensures |DissimilarProduct(xs, ys)| == |xs| * (|ys| - 1)
  {
    if xs != [] {
      SelfProductRows(xs[1..], ys);
      FilterAppend(Row(xs[0], ys), Product(xs[1..], ys), NotLoop);
      RowWithoutLoops(xs[0], ys);
      MulSucc(|xs| - 1, |ys| - 1);
    }
  }

  /** The ordered self-pairs of n distinct nodes: n(n-1) of them. */
  lemma SelfProductLength(xs: seq<nat>)
    requires Distinct(xs)
    ensures |DissimilarProduct(xs, xs)| == |xs| * (|xs| - 1)
  {
    SelfProductRows(xs, xs);
  }

  /** `itertools.combinations(xs, 2)`: the pairs (xs[i], xs[j]) with i < j, in
      lexicographic order of positions. */
  function Combinations2(xs: seq<nat>): (r: seq<Pair>)
    ensures 2 * |r| == |xs| * (|xs| - 1)
  {
    if xs == [] then []
    else
      var r := Row(xs[0], xs[1..]) + Combinations2(xs[1..]);
      assert |xs| * (|xs| - 1) == 2 * (|xs| - 1) + (|xs| - 1) * (|xs| - 2);
      r
  }

  /** So there are `possibleTies`-many of them. */
  lemma CombinationsCount(xs: seq<nat>)
    ensures |Combinations2(xs)| == Stats.PairCount(|xs|)
  {
  }

  /** Over the node range lo..hi-1 the pairs are exactly those with lo <= a < b < hi. */
  lemma {:induction false} CombinationsOfRange(lo: nat, hi: nat)
    ensures forall e :: e in Combinations2(Range(lo, hi)) <==> lo <= e.0 < e.1 < hi
    decreases hi - lo
  {
    if lo < hi {
      var xs := Range(lo, hi);
      var rest := Range(lo + 1, hi);
      assert xs[1..] == rest;
      CombinationsOfRange(lo + 1, hi);
      RowMembers(lo, rest);
      assert Combinations2(xs) == Row(lo, rest) + Combinations2(rest);
    } else {
      assert Range(lo, hi) == [];
    }
  }

  /** Combinations of a list without repetitions repeat no unordered pair. */
  lemma {:induction false} CombinationsNoReversal(xs: seq<nat>)
    requires Distinct(xs)
    ensures Distinct(Combinations2(xs))
    ensures forall e :: e in Combinations2(xs) ==> e.0 != e.1 && (e.1, e.0) !in Combinations2(xs)
  {
    if xs != [] {
      var x := xs[0];
      var rest := xs[1..];
      assert Distinct(rest);
      CombinationsNoReversal(rest);
      CombinationsMembers(rest);
      var row := Row(x, rest);
      var c := Combinations2(rest);
      assert Combinations2(xs) == row + c;
      assert x !in rest;
      assert forall e :: e in row ==> e.0 == x && e.1 in rest;
      assert forall e :: e in c ==> e.0 in rest && e.1 in rest;
      forall i, j | 0 <= i < j < |row| ensures row[i] != row[j] {
        assert rest[i] != rest[j];
      }
      DistinctConcat(row, c);
    }
  }

  /** Both ends of a combination come from the list. */
  lemma {:induction false} CombinationsMembers(xs: seq<nat>)
    ensures forall e :: e in Combinations2(xs) ==> e.0 in xs && e.1 in xs
  {
    if xs != [] {
      CombinationsMembers(xs[1..]);
      assert Combinations2(xs) == Row(xs[0], xs[1..]) + Combinations2(xs[1..]);
    }
  }

  lemma DistinctConcat<T>(a: seq<T>, b: seq<T>)
    requires Distinct(a) && Distinct(b) && forall x :: x in a ==> x !in b
    ensures Distinct(a + b)
  {
    forall i, j | 0 <= i < j < |a + b| ensures (a + b)[i] != (a + b)[j] {
      if i < |a| && j >= |a| {
        assert (a + b)[i] in a && (a + b)[j] == b[j - |a|];
      }
      if i >= |a| {
        assert (a + b)[i] == b[i - |a|] && (a + b)[j] == b[j - |a|];
      }
    }
  }
}
