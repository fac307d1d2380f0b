/** Sparse probability distributions over state ids, and the sums and
    rescalings that the explorers and the collapsing view build them with.
    Weights are exact reals: the floating-point tolerance of the Java code is
    replaced by exact equality. */
module Distributions {
  import opened NatSets

  /** A sparse mapping from successor id to weight. */
  type Distribution = map<nat, real>

  lemma DivAdd(a: real, b: real, c: real)
    requires c != 0.0
    ensures a / c + b / c == (a + b) / c
  {
  }

  lemma DivSelf(c: real)
    requires c != 0.0
    ensures c / c == 1.0
  {
  }

  /** The smallest key of a non-empty distribution. */
  function MinKey(d: Distribution): (k: nat)
    requires d != map[]
    ensures k in d && forall j :: j in d ==> k <= j
  {
    Least(d.Keys)
  }

  /** The total weight of a distribution. */
  function Sum(d: Distribution): real
    decreases |d|
  {
    if d == map[] then 0.0
    else
      var k := MinKey(d);
      assert |d - {k}| < |d| by { assert (d - {k}).Keys < d.Keys; }
      d[k] + Sum(d - {k})
  }

  /** The sum does not depend on which key is taken out first. */
  lemma {:induction false} SumRemove(d: Distribution, k: nat)
    requires k in d
    ensures Sum(d) == d[k] + Sum(d - {k})
    decreases |d|
  {
    var j := MinKey(d);
    if j != k {
      var dj, dk := d - {j}, d - {k};
      assert |dj| < |d| by { assert dj.Keys < d.Keys; }
      assert |dk| < |d| by { assert dk.Keys < d.Keys; }
      SumRemove(dj, k);
      SumRemove(dk, j);
      assert dj - {k} == dk - {j};
    }
  }

  lemma SumAdd(d: Distribution, k: nat, v: real)
    requires k !in d
    ensures Sum(d[k := v]) == Sum(d) + v
  {
    SumRemove(d[k := v], k);
    assert d[k := v] - {k} == d;
  }

  /** Adding `p` to the weight of `t` (as a distribution builder does). */
  function AddTo(d: Distribution, t: nat, p: real): (r: Distribution)
    ensures r.Keys == d.Keys + {t}
  {
    if t in d then d[t := d[t] + p] else d[t := p]
  }

  lemma SumAddTo(d: Distribution, t: nat, p: real)
    ensures Sum(AddTo(d, t, p)) == Sum(d) + p
  {
    if t in d {
      SumRemove(d, t);
      SumRemove(AddTo(d, t, p), t);
      assert AddTo(d, t, p) - {t} == d - {t};
    } else {
      SumAdd(d, t, p);
    }
  }

  ghost predicate Positive(d: Distribution) {
    forall k :: k in d ==> d[k] > 0.0
  }

  ghost predicate NonNegative(d: Distribution) {
    forall k :: k in d ==> d[k] >= 0.0
  }

  lemma {:induction false} SumNonNegative(d: Distribution)
    requires NonNegative(d)
    ensures Sum(d) >= 0.0
    decreases |d|
  {
    if d != map[] {
      var k :| k in d;
      SumRemove(d, k);
      assert |d - {k}| < |d| by { assert (d - {k}).Keys < d.Keys; }
      SumNonNegative(d - {k});
    }
  }

  lemma SumPositive(d: Distribution)
    requires Positive(d) && d != map[]
    ensures Sum(d) > 0.0
  {
    var k :| k in d;
    SumRemove(d, k);
    SumNonNegative(d - {k});
  }

  /** Every weight divided by `c`. */
  function Scale(d: Distribution, c: real): (r: Distribution)
    requires c != 0.0
    ensures r.Keys == d.Keys
  {
    map k | k in d :: d[k] / c
  }

  lemma ScaleRemove(d: Distribution, c: real, k: nat)
    requires c != 0.0
    ensures Scale(d, c) - {k} == Scale(d - {k}, c)
  {
  }

  lemma {:induction false} SumScale(d: Distribution, c: real)
    requires c != 0.0
    ensures Sum(Scale(d, c)) == Sum(d) / c
    decreases |d|
  {
    if d != map[] {
      var k := MinKey(d);
      var e, rest := Scale(d, c), d - {k};
      assert |rest| < |d| by { assert rest.Keys < d.Keys; }
      SumScale(rest, c);
      ScaleRemove(d, c, k);
      SumRemove(e, k);
      SumRemove(d, k);
      var a, s := d[k], Sum(rest);
      assert Sum(e) == a / c + s / c;
      DivAdd(a, s, c);
    }
  }

  /** The builder's `scaled()`: rescale to total weight one. A distribution
      whose weights sum to zero (in particular the empty one) is left as is. */
  function Scaled(d: Distribution): (r: Distribution)
    ensures r.Keys == d.Keys
  {
    if Sum(d) == 0.0 then d else Scale(d, Sum(d))
  }

  /** A distribution is empty or its weights sum to one. */
  ghost predicate Stochastic(d: Distribution) {
    d == map[] || Sum(d) == 1.0
  }

  lemma ScaledStochastic(d: Distribution)
    requires Positive(d)
    ensures Stochastic(Scaled(d)) && Positive(Scaled(d))
  {
    if d != map[] {
      SumPositive(d);
      var c := Sum(d);
      SumScale(d, c);
      DivSelf(c);
    }
  }

  /** Scaling a distribution that already sums to one changes nothing. */
  lemma ScaledOfStochastic(d: Distribution)
    requires Sum(d) == 1.0
    ensures Scaled(d) == d
  {
  }
}
