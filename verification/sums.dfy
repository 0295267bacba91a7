/**
  Sums used by the run-wide statistics: a weighted sum along a sequence of
  paths, and a sum over all values of a map that does not depend on the
  order in which the keys are visited (Python dictionaries give no order).
 */
module Sums {

  /** Sum of `w(p)` over the paths `ps`, repeats counted. */
  function Weight(ps: seq<string>, w: string -> nat): nat
  {
    if ps == [] then 0 else Weight(ps[..|ps| - 1], w) + w(ps[|ps| - 1])
  }

  /** Weight of each occurrence is one. */
  function One(p: string): nat
  {
    1
  }

  /** Weight is additive over concatenation. */
  lemma {:induction false} WeightAppend(ps: seq<string>, qs: seq<string>, w: string -> nat)
    ensures Weight(ps + qs, w) == Weight(ps, w) + Weight(qs, w)
    decreases |qs|
  {
    if qs == [] {
      assert ps + qs == ps;
    } else {
      var qs' := qs[..|qs| - 1];
      assert (ps + qs)[..|ps + qs| - 1] == ps + qs';
      WeightAppend(ps, qs', w);
    }
  }

  /** Counting every occurrence once gives the length. */
  lemma {:induction false} WeightOne(ps: seq<string>)
    ensures Weight(ps, One) == |ps|
    decreases |ps|
  {
    if ps != [] {
      WeightOne(ps[..|ps| - 1]);
    }
  }

  /** A sequence's weight splits into its first element and the rest. */
  lemma {:induction false} WeightFirst(ps: seq<string>, w: string -> nat)
    requires ps != []
    ensures Weight(ps, w) == w(ps[0]) + Weight(ps[1..], w)
  {
    assert ps == [ps[0]] + ps[1..];
    WeightAppend([ps[0]], ps[1..], w);
    assert [ps[0]][..0] == [];
  }

  /**
    The sum of `f` over every value of `m`. A key is picked arbitrarily at
    each step; `MapSumPick` shows the result does not depend on the picks.
   */
  ghost function MapSum<K, V>(m: map<K, V>, f: V -> nat): nat
    decreases |m|
  {
    if m == map[] then 0
    else
      assert m.Keys != {};
      var k :| k in m;
      assert (m - {k}).Keys == m.Keys - {k};
      f(m[k]) + MapSum(m - {k}, f)
  }

  /** Any key may be taken out first. */
  lemma {:induction false} MapSumPick<K, V>(m: map<K, V>, f: V -> nat, k: K)
    requires k in m
    ensures MapSum(m, f) == f(m[k]) + MapSum(m - {k}, f)
    decreases |m|
  {
    var j :| j in m && MapSum(m, f) == f(m[j]) + MapSum(m - {j}, f);
    if j != k {
      assert (m - {j}).Keys == m.Keys - {j};
      assert (m - {k}).Keys == m.Keys - {k};
      MapSumPick(m - {j}, f, k);
      MapSumPick(m - {k}, f, j);
      assert m - {j} - {k} == m - {k} - {j};
    }
  }

  /** Replacing or adding the value of one key changes the sum by that value only. */
  lemma {:induction false} MapSumUpdate<K, V>(m: map<K, V>, f: V -> nat, k: K, v: V)
    ensures MapSum(m[k := v], f) == f(v) + MapSum(m - {k}, f)
    ensures k in m ==> MapSum(m[k := v], f) + f(m[k]) == f(v) + MapSum(m, f)
  {
    MapSumPick(m[k := v], f, k);
    assert m[k := v] - {k} == m - {k};
    if k in m {
      MapSumPick(m, f, k);
    }
  }

  /** The sum is monotone in `f`. */
  lemma {:induction false} MapSumMonotone<K, V>(m: map<K, V>, f: V -> nat, g: V -> nat)
    requires forall k :: k in m ==> f(m[k]) <= g(m[k])
    ensures MapSum(m, f) <= MapSum(m, g)
    decreases |m|
  {
    if m != map[] {
      var k :| k in m;
      assert (m - {k}).Keys == m.Keys - {k};
      MapSumPick(m, f, k);
      MapSumPick(m, g, k);
      MapSumMonotone(m - {k}, f, g);
    }
  }
}
