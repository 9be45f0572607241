/** Sums over lists and over the values of maps. */
module Sums {

  /** One when something holds, none otherwise: what a count of it adds up. */
  ghost function Bit(b: bool): nat
  {
    if b then 1 else 0
  }

  ghost function Sum<T>(xs: seq<T>, f: T -> nat): nat
  {
    if xs == [] then 0 else f(xs[0]) + Sum(xs[1..], f)
  }

  lemma {:induction false} SumUpdate<T>(xs: seq<T>, i: nat, x: T, f: T -> nat)
    requires i < |xs|
    ensures Sum(xs[i := x], f) + f(xs[i]) == Sum(xs, f) + f(x)
  {
    if i == 0 {
      assert xs[i := x][1..] == xs[1..];
    } else {
      SumUpdate(xs[1..], i - 1, x, f);
      assert xs[i := x][1..] == xs[1..][i - 1 := x];
    }
  }

  lemma {:induction false} SumConcat<T>(xs: seq<T>, ys: seq<T>, f: T -> nat)
    ensures Sum(xs + ys, f) == Sum(xs, f) + Sum(ys, f)
  {
    if xs == [] {
      assert xs + ys == ys;
    } else {
      SumConcat(xs[1..], ys, f);
      assert (xs + ys)[1..] == xs[1..] + ys;
    }
  }

  lemma SumOne<T>(x: T, f: T -> nat)
    ensures Sum([x], f) == f(x)
  {
  }

  lemma SumAppend<T>(xs: seq<T>, x: T, f: T -> nat)
    ensures Sum(xs + [x], f) == Sum(xs, f) + f(x)
  {
    SumConcat(xs, [x], f);
    SumOne(x, f);
  }

  lemma {:induction false} SumAtLeast<T>(xs: seq<T>, i: nat, f: T -> nat)
    requires i < |xs|
    ensures f(xs[i]) <= Sum(xs, f)
  {
    if i > 0 { SumAtLeast(xs[1..], i - 1, f); }
  }

  /** A positive sum has a positive element. */
  lemma {:induction false} SumSupport<T>(xs: seq<T>, f: T -> nat) returns (i: nat)
    requires Sum(xs, f) > 0
    ensures i < |xs| && f(xs[i]) > 0
  {
    if f(xs[0]) > 0 {
      i := 0;
    } else {
      i := SumSupport(xs[1..], f);
      i := i + 1;
    }
  }

  lemma {:induction false} SumAtLeastTwo<T>(xs: seq<T>, i: nat, j: nat, f: T -> nat)
    requires i < j < |xs|
    ensures f(xs[i]) + f(xs[j]) <= Sum(xs, f)
  {
    if i > 0 { SumAtLeastTwo(xs[1..], i - 1, j - 1, f); } else { SumAtLeast(xs[1..], j - 1, f); }
  }

  /** The sum of `f` over the values of a map, in whatever order. */
  ghost function MapSum<K, V>(m: map<K, V>, f: V -> nat): nat
    decreases |m|
  {
    if m == map[] then 0
    else
      var k :| k in m;
      f(m[k]) + MapSum(m - {k}, f)
  }

  /** The order does not matter: any key can be taken out first. */
  lemma {:induction false} MapSumRemove<K, V>(m: map<K, V>, f: V -> nat, k: K)
    requires k in m
    ensures MapSum(m, f) == f(m[k]) + MapSum(m - {k}, f)
    decreases |m|
  {
    var k' :| k' in m && MapSum(m, f) == f(m[k']) + MapSum(m - {k'}, f);
    if k' != k {
      MapSumRemove(m - {k'}, f, k);
      MapSumRemove(m - {k}, f, k');
      assert m - {k'} - {k} == m - {k} - {k'};
    }
  }

  lemma MapSumSet<K, V>(m: map<K, V>, f: V -> nat, k: K, v: V)
    ensures MapSum(m[k := v], f) + (if k in m then f(m[k]) else 0) == MapSum(m, f) + f(v)
  {
    MapSumRemove(m[k := v], f, k);
    assert m[k := v] - {k} == m - {k};
    if k in m { MapSumRemove(m, f, k); } else { assert m - {k} == m; }
  }
}
