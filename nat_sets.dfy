/** Finite sets of naturals: least elements, initial segments and sizes. */
module NatSets {

  /** A set of naturals with an element at most `n` has a least element. */
  lemma {:induction false} MinExists(s: set<nat>, n: nat)
    requires exists k :: k in s && k <= n
    ensures exists k :: k in s && forall j :: j in s ==> k <= j
    decreases n
  {
    if exists k :: k in s && k < n {
      MinExists(s, n - 1);
    } else {
      assert n in s && forall j :: j in s ==> n <= j;
    }
  }

  /** The least element of a non-empty set of naturals. */
  function Least(s: set<nat>): (k: nat)
    requires s != {}
    ensures k in s && forall j :: j in s ==> k <= j
  {
    var some :| some in s;
    MinExists(s, some);
    var k :| k in s && forall j :: j in s ==> k <= j;
    k
  }

  /** The naturals 0 .. n-1 (a filled bounded bit set). */
  function Below(n: nat): (r: set<nat>)
    ensures forall a :: a in r <==> 0 <= a < n
  {
    if n == 0 then {} else Below(n - 1) + {n - 1}
  }

  lemma {:induction false} CardBelow(n: nat)
    ensures |Below(n)| == n
  {
    if n > 0 {
      CardBelow(n - 1);
      var prev := Below(n - 1);
      assert n - 1 !in prev;
      assert |prev + {n - 1}| == |prev| + 1;
    }
  }

  lemma CardDifference<T>(a: set<T>, b: set<T>)
    requires b <= a
    ensures |a - b| == |a| - |b|
  {
    assert a == (a - b) + b;
  }
}
