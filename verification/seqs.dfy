/** Sequence helpers used throughout the model: integer ranges, filtering,
    counting and distinctness. */
module Seqs {

  /** The integers lo, lo+1, ..., hi-1, like Python's `range(lo, hi)`. */
  function Range(lo: nat, hi: nat): (r: seq<nat>)
    decreases hi - lo
    ensures |r| == if lo <= hi then hi - lo else 0
    ensures forall i :: 0 <= i < |r| ==> r[i] == lo + i
    ensures forall x :: x in r <==> lo <= x < hi
  {
    if lo >= hi then [] else [lo] + Range(lo + 1, hi)
  }

  /** No element occurs twice. */
  predicate Distinct<T(==)>(s: seq<T>) {
    forall i, j :: 0 <= i < j < |s| ==> s[i] != s[j]
  }

  /** The elements of `s` that satisfy `p`, in their original order. */
  function Filter<T(==)>(s: seq<T>, p: T -> bool): (r: seq<T>)
    ensures |r| <= |s|
    ensures forall i :: 0 <= i < |r| ==> r[i] in s && p(r[i])
    ensures forall i :: 0 <= i < |s| && p(s[i]) ==> s[i] in r
  {
    if s == [] then []
    else if p(s[0]) then [s[0]] + Filter(s[1..], p)
    else Filter(s[1..], p)
  }

  /** The number of elements of `s` that satisfy `p`. */
  function Count<T(==)>(s: seq<T>, p: T -> bool): nat {
    |Filter(s, p)|
  }

  lemma {:induction false} FilterAppend<T>(a: seq<T>, b: seq<T>, p: T -> bool)
    ensures Filter(a + b, p) == Filter(a, p) + Filter(b, p)
  {
    if a == [] {
      assert a + b == b;
    } else {
      assert (a + b)[1..] == a[1..] + b;
      FilterAppend(a[1..], b, p);
    }
  }

  /** A filtered sequence lists exactly its own members in the order of `s`:
      this is how "in node-iteration order" is stated for results. */
  lemma FilterKeepsOrder<T>(s: seq<T>, p: T -> bool)
    ensures Filter(s, p) == Filter(s, x => x in Filter(s, p))
  {
    FilterCongruent(s, p, x => x in Filter(s, p));
  }

  lemma {:induction false} FilterDistinct<T>(s: seq<T>, p: T -> bool)
    requires Distinct(s)
    ensures Distinct(Filter(s, p))
  {
    if s != [] {
      DistinctTail(s);
      FilterDistinct(s[1..], p);
      if p(s[0]) {
        assert s[0] !in Filter(s[1..], p);
        DistinctCons(s[0], Filter(s[1..], p));
      }
    }
  }

  lemma DistinctTail<T>(s: seq<T>)
    requires s != [] && Distinct(s)
    ensures Distinct(s[1..]) && s[0] !in s[1..]
  {
  }

  lemma DistinctCons<T>(x: T, s: seq<T>)
    requires Distinct(s) && x !in s
    ensures Distinct([x] + s)
  {
    var r := [x] + s;
    forall i, j | 0 <= i < j < |r| ensures r[i] != r[j] {
      assert r[j] == s[j - 1];
      if i > 0 {
        assert r[i] == s[i - 1];
      }
    }
  }

  /** Filtering with predicates that agree on `s` gives the same sequence. */
  lemma {:induction false} FilterCongruent<T>(s: seq<T>, p: T -> bool, q: T -> bool)
    requires forall x :: x in s ==> p(x) == q(x)
    ensures Filter(s, p) == Filter(s, q)
  {
    if s != [] {
      FilterCongruent(s[1..], p, q);
    }
  }

  /** A predicate that implies another selects no more elements. */
  lemma {:induction false} FilterMonotone<T>(s: seq<T>, p: T -> bool, q: T -> bool)
    requires forall x :: x in s && p(x) ==> q(x)
    ensures |Filter(s, p)| <= |Filter(s, q)|
  {
    if s != [] {
      FilterMonotone(s[1..], p, q);
    }
  }

  /** ... and strictly fewer when `q` also holds of an element `p` rejects. */
  lemma {:induction false} FilterStrictlyMonotone<T>(s: seq<T>, p: T -> bool, q: T -> bool, w: T)
    requires forall x :: x in s && p(x) ==> q(x)
    requires w in s && q(w) && !p(w)
    ensures |Filter(s, p)| < |Filter(s, q)|
  {
    if s[0] == w {
      FilterMonotone(s[1..], p, q);
    } else {
      FilterStrictlyMonotone(s[1..], p, q, w);
    }
  }

  /** For a sequence without repetitions the count is the size of the selected set. */
  lemma {:induction false} FilterCardinality<T>(s: seq<T>, p: T -> bool)
    requires Distinct(s)
    ensures |Filter(s, p)| == |set x | x in s && p(x)|
  {
    if s == [] {
      assert (set x | x in s && p(x)) == {};
    } else {
      FilterCardinality(s[1..], p);
      var rest := set x | x in s[1..] && p(x);
      assert s[0] !in s[1..];
      if p(s[0]) {
        assert (set x | x in s && p(x)) == {s[0]} + rest;
      } else {
        assert (set x | x in s && p(x)) == rest;
      }
    }
  }

  /** A sequence without repetitions is as long as the set of its members. */
  lemma {:induction false} DistinctSize<T>(xs: seq<T>, s: set<T>)
    requires Distinct(xs)
    requires forall x :: x in xs <==> x in s
    ensures |xs| == |s|
  {
    if xs != [] {
      DistinctTail(xs);
      DistinctSize(xs[1..], s - {xs[0]});
    } else {
      assert s == {};
    }
  }

  /** Filtering with a predicate every element satisfies changes nothing. */
  lemma {:induction false} FilterAll<T>(s: seq<T>, p: T -> bool)
    requires forall i :: 0 <= i < |s| ==> p(s[i])
    ensures Filter(s, p) == s
  {
    if s != [] {
      FilterAll(s[1..], p);
    }
  }

  /** Filtering with a predicate no element satisfies leaves nothing. */
  lemma {:induction false} FilterNone<T>(s: seq<T>, p: T -> bool)
    requires forall i :: 0 <= i < |s| ==> !p(s[i])
    ensures Filter(s, p) == []
  {
    if s != [] {
      FilterNone(s[1..], p);
    }
  }

  /** A range repeats no integer. */
  lemma RangeDistinct(lo: nat, hi: nat)
    ensures Distinct(Range(lo, hi))
  {
  }

  /** A range splits at any point inside it. */
  lemma RangeSplit(lo: nat, mid: nat, hi: nat)
    requires lo <= mid <= hi
    ensures Range(lo, hi) == Range(lo, mid) + Range(mid, hi)
  {
    var r, a, b := Range(lo, hi), Range(lo, mid), Range(mid, hi);
    forall i | 0 <= i < |r| ensures r[i] == (a + b)[i] {
      if i >= |a| {
        assert (a + b)[i] == b[i - |a|];
      }
    }
  }

  /** Filtering lo..hi-1 by a predicate that holds exactly below mid leaves
      lo..mid-1; by its negation, mid..hi-1. */
  lemma FilterRangeSplit(lo: nat, mid: nat, hi: nat, p: nat -> bool)
    requires lo <= mid <= hi
    requires forall i :: 0 <= i < mid - lo ==> p(Range(lo, mid)[i])
    requires forall i :: 0 <= i < hi - mid ==> !p(Range(mid, hi)[i])
    ensures Filter(Range(lo, hi), p) == Range(lo, mid)
  {
    RangeSplit(lo, mid, hi);
    FilterAppend(Range(lo, mid), Range(mid, hi), p);
    FilterAll(Range(lo, mid), p);
    FilterNone(Range(mid, hi), p);
  }

  /** ... and the same with the predicate holding exactly from mid on. */
  lemma FilterRangeSplitAbove(lo: nat, mid: nat, hi: nat, p: nat -> bool)
    requires lo <= mid <= hi
    requires forall i :: 0 <= i < mid - lo ==> !p(Range(lo, mid)[i])
    requires forall i :: 0 <= i < hi - mid ==> p(Range(mid, hi)[i])
    ensures Filter(Range(lo, hi), p) == Range(mid, hi)
  {
    RangeSplit(lo, mid, hi);
    FilterAppend(Range(lo, mid), Range(mid, hi), p);
    FilterNone(Range(lo, mid), p);
    FilterAll(Range(mid, hi), p);
  }
}
