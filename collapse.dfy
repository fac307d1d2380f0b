/** The quotient view of a model: groups of states are collapsed into one
    representative each, by a union-find overlay, and the choices of the
    remaining states are rewritten lazily so that they only point to
    representatives. */
module Collapse {
  import opened Distributions
  import opened Models
  import opened NatSets

  // ----- The union-find overlay -----

  /** The union-find's parent array, kept flat: every parent is a root. */
  ghost predicate Flat(uf: seq<nat>) {
    forall i :: 0 <= i < |uf| ==> uf[i] < |uf| && uf[uf[i]] == uf[i]
  }

  /** `representative`: a state beyond the union-find is its own
      representative; otherwise its root. */
  function RepOf(uf: seq<nat>, t: nat): (r: nat)
    ensures t >= |uf| ==> r == t
    ensures Flat(uf) && r < |uf| ==> uf[r] == r
  {
    if t < |uf| then uf[t] else t
  }

  /** The union-find grown to `size` elements; the new ones are singletons. */
  function Grown(uf: seq<nat>, size: nat): (r: seq<nat>)
    requires |uf| <= size
    ensures |r| == size
    ensures Flat(uf) ==> Flat(r)
    ensures forall t :: RepOf(r, t) == RepOf(uf, t)
  {
    seq(size, i requires 0 <= i < size => if i < |uf| then uf[i] else i)
  }

  /** The union of the classes rooted at `loser` and `winner`, which becomes
      the root of both. */
  function Merged(uf: seq<nat>, loser: nat, winner: nat): (r: seq<nat>)
    requires Flat(uf) && loser < |uf| && winner < |uf|
    requires uf[loser] == loser && uf[winner] == winner
    ensures |r| == |uf| && Flat(r)
    ensures forall t :: RepOf(r, t) == if RepOf(uf, t) == loser then winner else RepOf(uf, t)
  {
    seq(|uf|, i requires 0 <= i < |uf| => if uf[i] == loser then winner else uf[i])
  }

  // ----- Remapping distributions through representatives -----

  /** `distribution.map(...)` as `computeSuccessors` uses it: every target
      is replaced by its representative, and targets whose representative is
      `own` (the state's own representative) are dropped. Weights of targets
      with the same representative add up (Collapse.RemapWeights). */
  function Remap(d: Distribution, uf: seq<nat>, own: nat): (r: Distribution)
    ensures forall x :: x in r <==> x != own && exists t :: t in d && RepOf(uf, t) == x
    ensures Positive(d) ==> Positive(r)
    decreases |d|
  {
    if d == map[] then map[]
    else
      var k := MinKey(d);
      assert |d - {k}| < |d| by { assert (d - {k}).Keys < d.Keys; }
      var rest := Remap(d - {k}, uf, own);
      var t := RepOf(uf, k);
      RemapStep(d, k, rest, uf, own);
      if t == own then rest else AddTo(rest, t, d[k])
  }

  /** The targets of `Remap` after one more entry `k` of `d`. */
  lemma RemapStep(d: Distribution, k: nat, rest: Distribution, uf: seq<nat>, own: nat)
    requires k in d
    requires forall x :: x in rest <==> x != own && exists t :: t in d - {k} && RepOf(uf, t) == x
    requires Positive(d - {k}) ==> Positive(rest)
    ensures var r := if RepOf(uf, k) == own then rest else AddTo(rest, RepOf(uf, k), d[k]);
      && (forall x :: x in r <==> x != own && exists t :: t in d && RepOf(uf, t) == x)
      && (Positive(d) ==> Positive(r))
  {
    var r := if RepOf(uf, k) == own then rest else AddTo(rest, RepOf(uf, k), d[k]);
    forall x ensures x in r <==> x != own && exists t :: t in d && RepOf(uf, t) == x {
      if x != own && x != RepOf(uf, k) {
        if t :| t in d && RepOf(uf, t) == x {
          assert t in d - {k};
        }
      }
    }
    if Positive(d) {
      assert Positive(d - {k});
      var t := RepOf(uf, k);
      forall y | y in r ensures r[y] > 0.0 {
        if t != own && y == t {
          assert d[k] > 0.0;
          if y in rest {
            assert r[y] == rest[y] + d[k];
          } else {
            assert r[y] == d[k];
          }
        } else {
          assert r[y] == rest[y];
        }
      }
    }
  }

  /** The entries of `d` whose target has representative `x`. */
  ghost function Preimage(d: Distribution, uf: seq<nat>, x: nat): Distribution {
    map t | t in d && RepOf(uf, t) == x :: d[t]
  }

  /** Taking entry `k` out of `d` takes it out of the preimage it belongs to
      and leaves the others as they are. */
  lemma PreimageRemove(d: Distribution, uf: seq<nat>, k: nat, x: nat)
    requires k in d
    ensures RepOf(uf, k) == x ==> k in Preimage(d, uf, x) && Preimage(d, uf, x) - {k} == Preimage(d - {k}, uf, x)
    ensures RepOf(uf, k) != x ==> Preimage(d, uf, x) == Preimage(d - {k}, uf, x)
  {
  }

  /** The weight `Remap` gives a representative is the total weight of the
      targets it represents (the merging function of `distribution.map`). */
  lemma {:induction false} RemapWeights(d: Distribution, uf: seq<nat>, own: nat, x: nat)
    requires x in Remap(d, uf, own)
    ensures Remap(d, uf, own)[x] == Sum(Preimage(d, uf, x))
    decreases |d|
  {
    var k := MinKey(d);
    var dk := d - {k};
    assert |dk| < |d| by { assert dk.Keys < d.Keys; }
    var rest := Remap(dk, uf, own);
    var t := RepOf(uf, k);
    assert Remap(d, uf, own) == if t == own then rest else AddTo(rest, t, d[k]);
    PreimageRemove(d, uf, k, x);
    if t == x {
      SumRemove(Preimage(d, uf, x), k);
      if x in rest {
        RemapWeights(dk, uf, own, x);
      } else {
        NoPreimage(dk, uf, own, x);
      }
    } else {
      RemapWeights(dk, uf, own, x);
    }
  }

  /** A representative other than `own` that `Remap` leaves out represents
      no target. */
  lemma NoPreimage(d: Distribution, uf: seq<nat>, own: nat, x: nat)
    requires x != own && x !in Remap(d, uf, own)
    ensures Preimage(d, uf, x) == map[]
  {
    assert !exists t :: t in d && RepOf(uf, t) == x;
  }

  /** `Remap` keeps all the weight except what went to `own`. */
  lemma {:induction false} RemapSum(d: Distribution, uf: seq<nat>, own: nat)
    ensures Sum(Remap(d, uf, own)) == Sum(d) - Sum(Preimage(d, uf, own))
    decreases |d|
  {
    if d == map[] {
      assert Preimage(d, uf, own) == map[];
    } else {
      var k := MinKey(d);
      var dk := d - {k};
      assert |dk| < |d| by { assert dk.Keys < d.Keys; }
      var rest := Remap(dk, uf, own);
      var t := RepOf(uf, k);
      assert Remap(d, uf, own) == if t == own then rest else AddTo(rest, t, d[k]);
      RemapSum(dk, uf, own);
      SumRemove(d, k);
      PreimageRemove(d, uf, k, own);
      if t == own {
        SumRemove(Preimage(d, uf, own), k);
      } else {
        SumAddTo(rest, t, d[k]);
      }
    }
  }

  /** `containsOneOf(removedStates)`. */
  predicate Touched(d: Distribution, removed: set<nat>) {
    d.Keys * removed != {}
  }

  /** What `computeSuccessors` leaves in place of one distribution: an
      untouched one stays, a touched one is remapped and rescaled, or deleted
      when nothing is left of it. */
  function Rewritten(d: Distribution, uf: seq<nat>, removed: set<nat>, own: nat): seq<Distribution>
  {
    if !Touched(d, removed) then [d]
    else if Remap(d, uf, own) == map[] then []
    else [Scaled(Remap(d, uf, own))]
  }

  /** A touched distribution that keeps some weight outside `own` becomes
      one distribution over the representatives: each gets the weight of the
      targets it represents, divided by the weight kept. */
  lemma RewrittenWeights(d: Distribution, uf: seq<nat>, removed: set<nat>, own: nat)
    requires Touched(d, removed)
    requires Sum(d) != Sum(Preimage(d, uf, own))
    ensures |Rewritten(d, uf, removed, own)| == 1
    ensures var e := Rewritten(d, uf, removed, own)[0];
      && (forall x :: x in e <==> x != own && exists t :: t in d && RepOf(uf, t) == x)
      && (forall x :: x in e ==> e[x] == Sum(Preimage(d, uf, x)) / (Sum(d) - Sum(Preimage(d, uf, own))))
  {
    var m := Remap(d, uf, own);
    var c := Sum(d) - Sum(Preimage(d, uf, own));
    RemapSum(d, uf, own);
    assert Sum(m) == c != 0.0;
    assert m != map[];
    assert Rewritten(d, uf, removed, own) == [Scale(m, c)];
    forall x | x in Scale(m, c)
      ensures Scale(m, c)[x] == Sum(Preimage(d, uf, x)) / c
    {
      RemapWeights(d, uf, own, x);
    }
  }

  /** Whether rewriting `d` makes a difference (`anyDifferent`). */
  predicate Changes(d: Distribution, uf: seq<nat>, removed: set<nat>, own: nat) {
    Touched(d, removed) && (Remap(d, uf, own) == map[] || Scaled(Remap(d, uf, own)) != d)
  }

  /** The rewritten list of choices, in the original order. */
  function Rewrite(ds: seq<Distribution>, uf: seq<nat>, removed: set<nat>, own: nat): seq<Distribution>
    decreases |ds|
  {
    if ds == [] then []
    else Rewrite(ds[..|ds| - 1], uf, removed, own) + Rewritten(ds[|ds| - 1], uf, removed, own)
  }

  /** When no distribution changes, the rewrite is the identity; this is why
      `computeSuccessors` may answer "nothing changed" instead of a list. */
  lemma {:induction false} RewriteUnchanged(ds: seq<Distribution>, uf: seq<nat>, removed: set<nat>, own: nat)
    requires forall j :: 0 <= j < |ds| ==> !Changes(ds[j], uf, removed, own)
    ensures Rewrite(ds, uf, removed, own) == ds
    decreases |ds|
  {
    if ds != [] {
      var init := ds[..|ds| - 1];
      RewriteUnchanged(init, uf, removed, own);
      var last := ds[|ds| - 1];
      assert !Changes(last, uf, removed, own);
      assert Rewritten(last, uf, removed, own) == [last];
      assert init + [last] == ds;
    }
  }

  /** Every target of every distribution is its own representative. */
  ghost predicate TargetsRoots(ds: seq<Distribution>, uf: seq<nat>) {
    forall e, t :: e in ds && t in e ==> RepOf(uf, t) == t
  }

  /** No distribution has a target in `g`. */
  ghost predicate Avoids(ds: seq<Distribution>, g: set<nat>) {
    forall e, t :: e in ds && t in e ==> t !in g
  }

  /** If every target outside `removed` is a root, the rewritten choices
      point to roots only. */
  lemma {:induction false} RewriteRoots(ds: seq<Distribution>, uf: seq<nat>, removed: set<nat>, own: nat)
    requires Flat(uf)
    requires forall t :: RepOf(uf, t) != t ==> t in removed
    ensures TargetsRoots(Rewrite(ds, uf, removed, own), uf)
    decreases |ds|
  {
    if ds != [] {
      var init := ds[..|ds| - 1];
      var last := ds[|ds| - 1];
      RewriteRoots(init, uf, removed, own);
      assert Rewrite(ds, uf, removed, own) == Rewrite(init, uf, removed, own) + Rewritten(last, uf, removed, own);
      if !Touched(last, removed) {
        forall t | t in last
          ensures t !in removed
        {
          assert t !in last.Keys * removed;
        }
      } else if Remap(last, uf, own) != map[] {
        forall t | t in Scaled(Remap(last, uf, own))
          ensures RepOf(uf, t) == t
        {
          var u :| u in last && RepOf(uf, u) == t;
        }
      }
    }
  }

  /** A group whose members are all marked removed and all have the
      representative `own` leaves no target inside the group. */
  lemma {:induction false} RewriteAvoids(ds: seq<Distribution>, uf: seq<nat>, removed: set<nat>,
                                         own: nat, g: set<nat>)
    requires Flat(uf) && g <= removed
    requires forall s :: s in g ==> RepOf(uf, s) == own
    ensures Avoids(Rewrite(ds, uf, removed, own), g)
    decreases |ds|
  {
    if ds != [] {
      var init := ds[..|ds| - 1];
      var last := ds[|ds| - 1];
      RewriteAvoids(init, uf, removed, own, g);
      assert Rewrite(ds, uf, removed, own) == Rewrite(init, uf, removed, own) + Rewritten(last, uf, removed, own);
      if !Touched(last, removed) {
        forall t | t in last
          ensures t !in g
        {
          assert t !in last.Keys * removed;
        }
      } else if Remap(last, uf, own) != map[] {
        forall t | t in Scaled(Remap(last, uf, own))
          ensures t !in g
        {
          var u :| u in last && RepOf(uf, u) == t;
          assert t != own && RepOf(uf, t) == t;
        }
      }
    }
  }

  /** Rewriting keeps positive distributions that sum to one such: the
      remapped ones are rescaled. */
  lemma {:induction false} RewriteStochastic(ds: seq<Distribution>, uf: seq<nat>, removed: set<nat>, own: nat)
    requires forall e :: e in ds ==> Positive(e) && Stochastic(e)
    ensures forall e :: e in Rewrite(ds, uf, removed, own) ==> Positive(e) && Stochastic(e)
    decreases |ds|
  {
    if ds != [] {
      var init := ds[..|ds| - 1];
      var last := ds[|ds| - 1];
      assert forall e :: e in init ==> e in ds;
      RewriteStochastic(init, uf, removed, own);
      if Touched(last, removed) && Remap(last, uf, own) != map[] {
        ScaledStochastic(Remap(last, uf, own));
      }
    }
  }

  // ----- Duplicate removal -----

  ghost predicate NoDuplicates<T>(s: seq<T>) {
    forall i, j :: 0 <= i < j < |s| ==> s[i] != s[j]
  }

  /** `removeIf(!unique.add(d))`: the first occurrence of each distribution
      is kept, in order. */
  function Dedup(ds: seq<Distribution>): (r: seq<Distribution>)
    ensures NoDuplicates(r)
    ensures forall e :: e in r <==> e in ds
    ensures |r| <= |ds|
    decreases |ds|
  {
    if ds == [] then []
    else
      var init := Dedup(ds[..|ds| - 1]);
      var last := ds[|ds| - 1];
      assert forall e :: e in ds <==> e in ds[..|ds| - 1] || e == last;
      if last in init then init else init + [last]
  }

  /** One step of the list iterator in `computeSuccessors`. */
  method RewriteOne(d: Distribution, uf: seq<nat>, removed: set<nat>, own: nat)
    returns (kept: seq<Distribution>, different: bool)
    ensures kept == Rewritten(d, uf, removed, own)
    ensures different == Changes(d, uf, removed, own)
  {
    if d.Keys * removed != {} {
      var mapped := Remap(d, uf, own);
      if mapped == map[] {
        kept, different := [], true;
      } else {
        var scaled := Scaled(mapped);
        kept, different := [scaled], scaled != d;
      }
    } else {
      kept, different := [d], false;
    }
  }

  /** `new ArrayList<>(set)`: the elements of a set in some order. */
  method SetToSeq(s: set<Distribution>) returns (r: seq<Distribution>)
    ensures NoDuplicates(r)
    ensures forall e :: e in r <==> e in s
  {
    r := [];
    var rest := s;
    while rest != {}
      invariant NoDuplicates(r)
      invariant forall e :: e in r <==> e in s - rest
      invariant rest <= s
      decreases rest
    {
      var e :| e in rest;
      assert e !in r;
      r := r + [e];
      rest := rest - {e};
    }
  }

  /** The choices a state currently has in the view's bookkeeping: its
      overwrite entry, or else the underlying model's. */
  function Choices(overwrite: map<nat, seq<Distribution>>, acts: seq<seq<Action>>, s: nat): seq<Distribution>
    requires s in overwrite || s < |acts|
  {
    if s in overwrite then overwrite[s] else DistributionsOf(acts[s])
  }

  /** The distributions a collapsed group keeps: the rewritten choices of all
      its members, as a set. */
  ghost function Gathered(overwrite: map<nat, seq<Distribution>>, acts: seq<seq<Action>>, g: set<nat>,
                          uf: seq<nat>, removed: set<nat>, own: nat): set<Distribution>
    requires forall s :: s in g ==> s < |acts|
  {
    set s, e | s in g && e in Rewrite(Choices(overwrite, acts, s), uf, removed, own) :: e
  }

  lemma GatheredRoots(overwrite: map<nat, seq<Distribution>>, acts: seq<seq<Action>>, g: set<nat>,
                      uf: seq<nat>, removed: set<nat>, own: nat)
    requires forall s :: s in g ==> s < |acts|
    requires Flat(uf)
    requires forall t :: RepOf(uf, t) != t ==> t in removed
    ensures forall e, t :: e in Gathered(overwrite, acts, g, uf, removed, own) && t in e ==> RepOf(uf, t) == t
  {
    forall e, t | e in Gathered(overwrite, acts, g, uf, removed, own) && t in e
      ensures RepOf(uf, t) == t
    {
      var s :| s in g && e in Rewrite(Choices(overwrite, acts, s), uf, removed, own);
      RewriteRoots(Choices(overwrite, acts, s), uf, removed, own);
    }
  }

  lemma GatheredAvoids(overwrite: map<nat, seq<Distribution>>, acts: seq<seq<Action>>, g: set<nat>,
                       uf: seq<nat>, removed: set<nat>, own: nat)
    requires forall s :: s in g ==> s < |acts|
    requires Flat(uf) && g <= removed
    requires forall s :: s in g ==> RepOf(uf, s) == own
    ensures forall e, t :: e in Gathered(overwrite, acts, g, uf, removed, own) && t in e ==> t !in g
  {
    forall e, t | e in Gathered(overwrite, acts, g, uf, removed, own) && t in e
      ensures t !in g
    {
      var s :| s in g && e in Rewrite(Choices(overwrite, acts, s), uf, removed, own);
      RewriteAvoids(Choices(overwrite, acts, s), uf, removed, own, g);
    }
  }

  /** The states of the first `k` groups. */
  ghost function MembersUpTo(gs: seq<set<nat>>, k: nat): set<nat>
    requires k <= |gs|
  {
    if k == 0 then {} else MembersUpTo(gs, k - 1) + gs[k - 1]
  }

  /** All states of all groups. */
  ghost function Members(gs: seq<set<nat>>): set<nat> {
    MembersUpTo(gs, |gs|)
  }

  /** The states of those of the first `k` groups that have more than one
      member: the states that the first loop of `collapse` marks removed. */
  ghost function CollapsedUpTo(gs: seq<set<nat>>, k: nat): set<nat>
    requires k <= |gs|
  {
    if k == 0 then {} else CollapsedUpTo(gs, k - 1) + (if |gs[k - 1]| > 1 then gs[k - 1] else {})
  }

  ghost function Collapsed(gs: seq<set<nat>>): set<nat> {
    CollapsedUpTo(gs, |gs|)
  }

  /** The first `k` representatives, as a set. */
  ghost function RepsUpTo(reps: seq<nat>, k: nat): set<nat>
    requires k <= |reps|
  {
    if k == 0 then {} else RepsUpTo(reps, k - 1) + {reps[k - 1]}
  }

  lemma {:induction false} MembersIndex(gs: seq<set<nat>>, k: nat)
    requires k <= |gs|
    ensures forall s :: s in MembersUpTo(gs, k) <==> exists i :: 0 <= i < k && s in gs[i]
  {
    if k > 0 {
      MembersIndex(gs, k - 1);
    }
  }

  lemma {:induction false} CollapsedIndex(gs: seq<set<nat>>, k: nat)
    requires k <= |gs|
    ensures forall s :: s in CollapsedUpTo(gs, k) <==> exists i :: 0 <= i < k && |gs[i]| > 1 && s in gs[i]
  {
    if k > 0 {
      CollapsedIndex(gs, k - 1);
    }
  }

  lemma {:induction false} RepsIndex(reps: seq<nat>, k: nat)
    requires k <= |reps|
    ensures forall s :: s in RepsUpTo(reps, k) <==> exists i :: 0 <= i < k && reps[i] == s
  {
    if k > 0 {
      RepsIndex(reps, k - 1);
    }
  }

  /** No state is in two groups. */
  ghost predicate Disjoint(gs: seq<set<nat>>) {
    forall i, j, s :: 0 <= i < j < |gs| && s in gs[i] ==> s !in gs[j]
  }

  /** The choices gathered from one more state. */
  lemma GatheredAdd(overwrite: map<nat, seq<Distribution>>, acts: seq<seq<Action>>, g: set<nat>,
                    s: nat, uf: seq<nat>, removed: set<nat>, own: nat)
    requires forall x :: x in g ==> x < |acts|
    requires s < |acts|
    ensures Gathered(overwrite, acts, g + {s}, uf, removed, own)
         == Gathered(overwrite, acts, g, uf, removed, own)
            + Elems(Rewrite(Choices(overwrite, acts, s), uf, removed, own))
  {
  }

  /** The elements of a list, as a set (`addAll`). */
  function Elems<T>(list: seq<T>): set<T> {
    set e | e in list
  }

  /** What is gathered depends only on the members' choices. */
  lemma GatheredFrame(o1: map<nat, seq<Distribution>>, o2: map<nat, seq<Distribution>>,
                      acts: seq<seq<Action>>, g: set<nat>, uf: seq<nat>, removed: set<nat>, own: nat)
    requires forall x :: x in g ==> x < |acts|
    requires forall x :: x in g ==> Choices(o1, acts, x) == Choices(o2, acts, x)
    ensures Gathered(o1, acts, g, uf, removed, own) == Gathered(o2, acts, g, uf, removed, own)
  {
  }

  /** `list` is the gathered choices of group `g` without duplicates, as
      `new ArrayList<>(collapsedDistributions)` stores them. */
  ghost predicate HoldsGathered(list: seq<Distribution>, overwrite: map<nat, seq<Distribution>>,
                                acts: seq<seq<Action>>, g: set<nat>, uf: seq<nat>, removed: set<nat>, own: nat)
    requires forall x :: x in g ==> x < |acts|
  {
    && NoDuplicates(list)
    && forall e :: e in list <==> e in Gathered(overwrite, acts, g, uf, removed, own)
  }

  /** Some of the first `i` distributions of `ds` changes. */
  ghost predicate SomeChange(ds: seq<Distribution>, i: nat, uf: seq<nat>, removed: set<nat>, own: nat) {
    exists j :: 0 <= j < i && j < |ds| && Changes(ds[j], uf, removed, own)
  }

  /** The rewrite of one more distribution of `ds`. */
  lemma RewriteStep(ds: seq<Distribution>, i: nat, uf: seq<nat>, removed: set<nat>, own: nat)
    requires i < |ds|
    ensures Rewrite(ds[..i + 1], uf, removed, own) == Rewrite(ds[..i], uf, removed, own) + Rewritten(ds[i], uf, removed, own)
  {
    assert ds[..i + 1][..i] == ds[..i];
  }

  /** Whether one of the first `i + 1` distributions changes. */
  lemma SomeChangeStep(ds: seq<Distribution>, i: nat, uf: seq<nat>, removed: set<nat>, own: nat, last: bool)
    requires i < |ds| && last == Changes(ds[i], uf, removed, own)
    ensures SomeChange(ds, i + 1, uf, removed, own) == (SomeChange(ds, i, uf, removed, own) || last)
  {
    if SomeChange(ds, i + 1, uf, removed, own) && !last {
      var j :| 0 <= j < i + 1 && j < |ds| && Changes(ds[j], uf, removed, own);
      assert j != i;
    }
    if SomeChange(ds, i, uf, removed, own) {
      var j :| 0 <= j < i && j < |ds| && Changes(ds[j], uf, removed, own);
      assert j < i + 1;
    }
    if last {
      assert 0 <= i < i + 1 && i < |ds| && Changes(ds[i], uf, removed, own);
    }
  }

  /** The loop of `computeSuccessors`: every distribution rewritten in
      place, and whether any of them changed. */
  method RewriteAll(ds: seq<Distribution>, uf: seq<nat>, removed: set<nat>, own: nat)
    returns (out: seq<Distribution>, anyDifferent: bool)
    ensures anyDifferent <==> exists j :: 0 <= j < |ds| && Changes(ds[j], uf, removed, own)
    ensures anyDifferent ==> out == Rewrite(ds, uf, removed, own)
    ensures !anyDifferent ==> Rewrite(ds, uf, removed, own) == ds
  {
    out, anyDifferent := [], false;
    var i := 0;
    while i < |ds|
      invariant 0 <= i <= |ds|
      invariant out == Rewrite(ds[..i], uf, removed, own)
      invariant anyDifferent == SomeChange(ds, i, uf, removed, own)
    {
      var kept, different := RewriteOne(ds[i], uf, removed, own);
      RewriteStep(ds, i, uf, removed, own);
      SomeChangeStep(ds, i, uf, removed, own, different);
      out, anyDifferent := out + kept, anyDifferent || different;
      i := i + 1;
    }
    assert ds[..i] == ds;
    if !anyDifferent {
      RewriteUnchanged(ds, uf, removed, own);
    }
  }

  /** The view's invariant, on the values of its fields: the union-find is
      flat, the removed states are exactly the states that are not their own
      representative (the assertion of `isRemoved`) and are states of the
      model, only representatives keep an overwrite entry and no entry holds
      a duplicate, and a state whose cached choices are valid has choices
      that point to representatives only. */
  ghost predicate ViewInvariant(uf: seq<nat>, removed: set<nat>, overwrite: map<nat, seq<Distribution>>,
                                cache: set<nat>, acts: seq<seq<Action>>) {
    && Flat(uf)
    && (forall t :: t in removed <==> RepOf(uf, t) != t)
    && (forall t :: t in removed ==> t < |acts|)
    && (forall s :: s in overwrite ==> RepOf(uf, s) == s && NoDuplicates(overwrite[s]))
    && (forall s :: s in cache ==> s < |acts| && TargetsRoots(Choices(overwrite, acts, s), uf))
  }

  /** The overwrite map after the choices of `state` were refreshed: the
      rewrite, deduplicated, when it changes any distribution. */
  ghost function Refreshed(overwrite: map<nat, seq<Distribution>>, acts: seq<seq<Action>>,
                           uf: seq<nat>, removed: set<nat>, state: nat): map<nat, seq<Distribution>>
    requires state in overwrite || state < |acts|
  {
    var ds := Choices(overwrite, acts, state);
    if exists j :: 0 <= j < |ds| && Changes(ds[j], uf, removed, state)
    then overwrite[state := Dedup(Rewrite(ds, uf, removed, state))]
    else overwrite
  }

  /** Marking the choices of a representative as valid after refreshing
      them keeps the invariant. */
  lemma CacheKeepsInvariant(uf: seq<nat>, removed: set<nat>, overwrite: map<nat, seq<Distribution>>,
                            cache: set<nat>, acts: seq<seq<Action>>, state: nat)
    requires ViewInvariant(uf, removed, overwrite, cache, acts)
    requires state < |acts| && RepOf(uf, state) == state
    ensures ViewInvariant(uf, removed, Refreshed(overwrite, acts, uf, removed, state), cache + {state}, acts)
  {
    var ds := Choices(overwrite, acts, state);
    var overwrite' := Refreshed(overwrite, acts, uf, removed, state);
    RewriteRoots(ds, uf, removed, state);
    if !exists j :: 0 <= j < |ds| && Changes(ds[j], uf, removed, state) {
      RewriteUnchanged(ds, uf, removed, state);
    }
    forall s | s in cache + {state}
      ensures TargetsRoots(Choices(overwrite', acts, s), uf)
    {
      if s != state {
        assert Choices(overwrite', acts, s) == Choices(overwrite, acts, s);
      }
    }
  }

  /** After the first `k` rounds of the first loop of `collapse`: the
      `i`-th representative is in the `i`-th group, every state whose root
      was in a merged group now has that group's representative, and every
      other state keeps its representative. */
  ghost predicate RepsAfter(groups: seq<set<nat>>, k: nat, reps: seq<nat>, uf0: seq<nat>, uf: seq<nat>)
    requires k <= |groups|
  {
    && |reps| == k
    && (forall i :: 0 <= i < k ==> reps[i] in groups[i])
    && (forall i, t :: 0 <= i < k && RepOf(uf0, t) in groups[i] ==> RepOf(uf, t) == reps[i])
    && (forall t :: RepOf(uf0, t) !in MembersUpTo(groups, k) ==> RepOf(uf, t) == RepOf(uf0, t))
  }

  /** The list returned by `collapse`: the representatives, twice. */
  lemma Twice(reps: seq<nat>)
    ensures |reps + reps| == 2 * |reps|
    ensures forall i :: 0 <= i < |reps| ==> (reps + reps)[i] == reps[i] && (reps + reps)[|reps| + i] == reps[i]
  {
  }

  /** The next group's members are still roots. */
  lemma NextGroupRoots(groups: seq<set<nat>>, k: nat, reps: seq<nat>, uf0: seq<nat>, uf: seq<nat>)
    requires k < |groups| && Disjoint(groups) && RepsAfter(groups, k, reps, uf0, uf)
    requires forall s :: s in groups[k] ==> RepOf(uf0, s) == s
    ensures forall s :: s in groups[k] ==> RepOf(uf, s) == s
  {
    MembersIndex(groups, k);
    forall s | s in groups[k]
      ensures RepOf(uf, s) == s
    {
      assert RepOf(uf0, s) == s;
    }
  }

  /** One round of the first loop of `collapse` keeps its invariant. */
  lemma CollapseGroupsStep(groups: seq<set<nat>>, reps: seq<nat>, k: nat, rep: nat,
                           uf0: seq<nat>, uf1: seq<nat>, uf2: seq<nat>)
    requires Disjoint(groups) && k < |groups| && rep in groups[k]
    requires RepsAfter(groups, k, reps, uf0, uf1)
    requires forall t :: RepOf(uf2, t) == if RepOf(uf1, t) in groups[k] then rep else RepOf(uf1, t)
    ensures RepsAfter(groups, k + 1, reps + [rep], uf0, uf2)
  {
    MembersIndex(groups, k);
    forall i, t | 0 <= i < k + 1 && RepOf(uf0, t) in groups[i]
      ensures RepOf(uf2, t) == (reps + [rep])[i]
    {
      if i < k {
        assert RepOf(uf1, t) == reps[i];
      } else {
        assert RepOf(uf0, t) !in MembersUpTo(groups, k);
      }
    }
  }

  /** After the first `k` rounds of the second loop of `collapse`: the
      members of those groups lost their overwrite entries, their
      representatives hold what was gathered, and every other entry is as
      it was. */
  ghost predicate GatheredAll(groups: seq<set<nat>>, reps: seq<nat>, k: nat,
                              overwrite0: map<nat, seq<Distribution>>, overwrite: map<nat, seq<Distribution>>,
                              acts: seq<seq<Action>>, uf: seq<nat>, removed: set<nat>)
    requires k <= |groups| == |reps|
    requires forall i, s :: 0 <= i < |groups| && s in groups[i] ==> s < |acts|
  {
    && (forall s :: s in overwrite <==> (s in overwrite0 && s !in MembersUpTo(groups, k)) || s in RepsUpTo(reps, k))
    && (forall s :: s in overwrite0 && s !in MembersUpTo(groups, k) ==> s in overwrite && overwrite[s] == overwrite0[s])
    && (forall i :: 0 <= i < k ==>
          reps[i] in overwrite && HoldsGathered(overwrite[reps[i]], overwrite0, acts, groups[i], uf, removed, reps[i]))
  }

  /** The members of the next group still have their original choices. */
  lemma GatherFrame(groups: seq<set<nat>>, reps: seq<nat>, k: nat,
                    overwrite0: map<nat, seq<Distribution>>, overwrite: map<nat, seq<Distribution>>,
                    acts: seq<seq<Action>>, uf: seq<nat>, removed: set<nat>)
    requires k < |groups| == |reps| && Disjoint(groups)
    requires forall i :: 0 <= i < |groups| ==> reps[i] in groups[i]
    requires forall i, s :: 0 <= i < |groups| && s in groups[i] ==> s < |acts|
    requires GatheredAll(groups, reps, k, overwrite0, overwrite, acts, uf, removed)
    ensures forall s :: s in groups[k] ==> Choices(overwrite, acts, s) == Choices(overwrite0, acts, s)
    ensures Gathered(overwrite, acts, groups[k], uf, removed, reps[k])
         == Gathered(overwrite0, acts, groups[k], uf, removed, reps[k])
  {
    MembersIndex(groups, k);
    RepsIndex(reps, k);
    forall s | s in groups[k]
      ensures Choices(overwrite, acts, s) == Choices(overwrite0, acts, s)
    {
      assert s !in MembersUpTo(groups, k);
      assert s !in RepsUpTo(reps, k);
    }
    GatheredFrame(overwrite, overwrite0, acts, groups[k], uf, removed, reps[k]);
  }

  /** One round of the second loop of `collapse` keeps its invariant. */
  lemma GatherGroupsStep(groups: seq<set<nat>>, reps: seq<nat>, k: nat,
                         overwrite0: map<nat, seq<Distribution>>, overwrite1: map<nat, seq<Distribution>>,
                         overwrite2: map<nat, seq<Distribution>>,
                         acts: seq<seq<Action>>, uf: seq<nat>, removed: set<nat>)
    requires k < |groups| == |reps| && Disjoint(groups)
    requires forall i :: 0 <= i < |groups| ==> reps[i] in groups[i]
    requires forall i, s :: 0 <= i < |groups| && s in groups[i] ==> s < |acts|
    requires GatheredAll(groups, reps, k, overwrite0, overwrite1, acts, uf, removed)
    requires Gathered(overwrite1, acts, groups[k], uf, removed, reps[k])
          == Gathered(overwrite0, acts, groups[k], uf, removed, reps[k])
    requires reps[k] in overwrite2 && overwrite2 == (overwrite1 - groups[k])[reps[k] := overwrite2[reps[k]]]
    requires HoldsGathered(overwrite2[reps[k]], overwrite1, acts, groups[k], uf, removed, reps[k])
    ensures GatheredAll(groups, reps, k + 1, overwrite0, overwrite2, acts, uf, removed)
  {
    GatherKeys(groups, reps, k, overwrite0, overwrite1, overwrite2);
    forall i | 0 <= i < k
      ensures reps[i] in overwrite2 && overwrite2[reps[i]] == overwrite1[reps[i]]
    {
      assert reps[i] !in groups[k];
    }
  }

  /** The overwrite keys after one more round of the second loop. */
  lemma GatherKeys(groups: seq<set<nat>>, reps: seq<nat>, k: nat,
                   overwrite0: map<nat, seq<Distribution>>, overwrite1: map<nat, seq<Distribution>>,
                   overwrite2: map<nat, seq<Distribution>>)
    requires k < |groups| == |reps| && reps[k] in groups[k]
    requires forall s :: s in overwrite1 <==> (s in overwrite0 && s !in MembersUpTo(groups, k)) || s in RepsUpTo(reps, k)
    requires forall s :: s in overwrite0 && s !in MembersUpTo(groups, k) ==> s in overwrite1 && overwrite1[s] == overwrite0[s]
    requires reps[k] in overwrite2 && overwrite2 == (overwrite1 - groups[k])[reps[k] := overwrite2[reps[k]]]
    requires forall i :: 0 <= i < k ==> reps[i] !in groups[k]
    ensures forall s :: s in overwrite2 <==> (s in overwrite0 && s !in MembersUpTo(groups, k + 1)) || s in RepsUpTo(reps, k + 1)
    ensures forall s :: s in overwrite0 && s !in MembersUpTo(groups, k + 1) ==> s in overwrite2 && overwrite2[s] == overwrite0[s]
  {
    RepsIndex(reps, k);
  }

  /** A set with two different members has more than one. */
  lemma TwoMembers(g: set<nat>, a: nat, b: nat)
    requires a in g && b in g && a != b
    ensures |g| > 1
  {
    assert b in g - {a};
    assert |g - {a}| == |g| - 1;
  }

  /** After a collapse, the states marked removed, less this call's
      representatives, are exactly the states that are no longer their own
      representative. */
  lemma CollapseRemovedExact(uf0: seq<nat>, uf1: seq<nat>, removed0: set<nat>,
                             groups: seq<set<nat>>, reps: seq<nat>)
    requires forall t :: t in removed0 <==> RepOf(uf0, t) != t
    requires Disjoint(groups)
    requires forall i, s :: 0 <= i < |groups| && s in groups[i] ==> s !in removed0
    requires |groups| <= |reps| && RepsAfter(groups, |groups|, reps, uf0, uf1)
    ensures forall t :: t in (removed0 + Collapsed(groups)) - RepsUpTo(reps, |reps|) <==> RepOf(uf1, t) != t
  {
    MembersIndex(groups, |groups|);
    CollapsedIndex(groups, |groups|);
    RepsIndex(reps, |reps|);
    forall t
      ensures t in (removed0 + Collapsed(groups)) - RepsUpTo(reps, |reps|) <==> RepOf(uf1, t) != t
    {
      var r0 := RepOf(uf0, t);
      if i :| 0 <= i < |groups| && r0 in groups[i] {
        assert RepOf(uf1, t) == reps[i];
        if t in removed0 {
          forall j | 0 <= j < |reps|
            ensures reps[j] != t
          {
            assert reps[j] in groups[j];
          }
        } else {
          assert r0 == t;
          forall j | 0 <= j < |reps| && reps[j] == t
            ensures j == i
          {
            assert reps[j] in groups[j];
          }
          if t != reps[i] {
            TwoMembers(groups[i], t, reps[i]);
          }
        }
      } else {
        assert RepOf(uf1, t) == r0;
        assert t !in Members(groups);
      }
    }
  }

  /** A collapse keeps the view's invariant. */
  lemma CollapseKeepsInvariant(uf0: seq<nat>, uf1: seq<nat>, removed0: set<nat>,
                               overwrite0: map<nat, seq<Distribution>>, overwrite1: map<nat, seq<Distribution>>,
                               cache0: set<nat>, acts: seq<seq<Action>>, groups: seq<set<nat>>, reps: seq<nat>)
    requires ViewInvariant(uf0, removed0, overwrite0, cache0, acts)
    requires Disjoint(groups) && |groups| == |reps|
    requires forall i, s :: 0 <= i < |groups| && s in groups[i] ==> s < |acts|
    requires forall i, s :: 0 <= i < |groups| && s in groups[i] ==> s !in removed0
    requires Flat(uf1) && RepsAfter(groups, |groups|, reps, uf0, uf1)
    requires GatheredAll(groups, reps, |groups|, overwrite0, overwrite1, acts, uf1, removed0 + Collapsed(groups))
    ensures ViewInvariant(uf1, (removed0 + Collapsed(groups)) - RepsUpTo(reps, |reps|), overwrite1,
                          cache0 * RepsUpTo(reps, |reps|), acts)
  {
    var removed1 := removed0 + Collapsed(groups);
    CollapseRemovedExact(uf0, uf1, removed0, groups, reps);
    MembersIndex(groups, |groups|);
    CollapsedIndex(groups, |groups|);
    RepsIndex(reps, |reps|);
    forall s | s in overwrite1
      ensures RepOf(uf1, s) == s && NoDuplicates(overwrite1[s])
    {
      if i :| 0 <= i < |reps| && reps[i] == s {
        assert RepOf(uf0, s) == s && s in groups[i];
      } else {
        assert s in overwrite0 && s !in Members(groups);
      }
    }
    forall s | s in cache0 * RepsUpTo(reps, |reps|)
      ensures s < |acts| && TargetsRoots(Choices(overwrite1, acts, s), uf1)
    {
      var i :| 0 <= i < |reps| && reps[i] == s;
      GatheredRoots(overwrite0, acts, groups[i], uf1, removed1, reps[i]);
    }
  }

  /** The states a collapse marks removed, less its representatives, are
      the members of its groups other than their representatives, added to
      the states removed before. */
  lemma CollapseRemoved(groups: seq<set<nat>>, reps: seq<nat>, removed0: set<nat>)
    requires |groups| == |reps|
    requires forall i :: 0 <= i < |groups| ==> reps[i] in groups[i]
    requires forall i, s :: 0 <= i < |groups| && s in groups[i] ==> s !in removed0
    ensures (removed0 + Collapsed(groups)) - Elems(reps + reps) == removed0 + (Members(groups) - Elems(reps + reps))
  {
    MembersIndex(groups, |groups|);
    CollapsedIndex(groups, |groups|);
    forall s | s in Members(groups) - Elems(reps + reps)
      ensures s in Collapsed(groups)
    {
      var i :| 0 <= i < |groups| && s in groups[i];
      assert reps[i] in reps + reps;
      TwoMembers(groups[i], s, reps[i]);
    }
  }

  lemma RepsElems(reps: seq<nat>)
    ensures RepsUpTo(reps, |reps|) == Elems(reps) == Elems(reps + reps)
  {
    RepsIndex(reps, |reps|);
    assert forall s :: s in reps + reps <==> s in reps;
  }

  /** The gathered choices of each group point to representatives. */
  lemma CollapseRoots(uf0: seq<nat>, uf1: seq<nat>, removed0: set<nat>,
                      overwrite0: map<nat, seq<Distribution>>, overwrite1: map<nat, seq<Distribution>>,
                      acts: seq<seq<Action>>, groups: seq<set<nat>>, reps: seq<nat>)
    requires forall t :: t in removed0 <==> RepOf(uf0, t) != t
    requires Disjoint(groups) && |groups| == |reps|
    requires forall i, s :: 0 <= i < |groups| && s in groups[i] ==> s < |acts|
    requires forall i, s :: 0 <= i < |groups| && s in groups[i] ==> s !in removed0
    requires Flat(uf1) && RepsAfter(groups, |groups|, reps, uf0, uf1)
    requires GatheredAll(groups, reps, |groups|, overwrite0, overwrite1, acts, uf1, removed0 + Collapsed(groups))
    ensures forall i :: 0 <= i < |groups| ==> TargetsRoots(overwrite1[reps[i]], uf1)
  {
    CollapseRemovedExact(uf0, uf1, removed0, groups, reps);
    forall i | 0 <= i < |groups|
      ensures TargetsRoots(overwrite1[reps[i]], uf1)
    {
      GatheredRoots(overwrite0, acts, groups[i], uf1, removed0 + Collapsed(groups), reps[i]);
    }
  }

  /** The gathered choices of a group of more than one state have no
      target inside the group. */
  lemma CollapseAvoids(uf0: seq<nat>, uf1: seq<nat>, removed0: set<nat>,
                       overwrite0: map<nat, seq<Distribution>>, overwrite1: map<nat, seq<Distribution>>,
                       acts: seq<seq<Action>>, groups: seq<set<nat>>, reps: seq<nat>)
    requires forall t :: t in removed0 <==> RepOf(uf0, t) != t
    requires |groups| == |reps|
    requires forall i, s :: 0 <= i < |groups| && s in groups[i] ==> s < |acts|
    requires forall i, s :: 0 <= i < |groups| && s in groups[i] ==> s !in removed0
    requires Flat(uf1) && RepsAfter(groups, |groups|, reps, uf0, uf1)
    requires GatheredAll(groups, reps, |groups|, overwrite0, overwrite1, acts, uf1, removed0 + Collapsed(groups))
    ensures forall i :: 0 <= i < |groups| && |groups[i]| > 1 ==> Avoids(overwrite1[reps[i]], groups[i])
  {
    CollapsedIndex(groups, |groups|);
    forall i | 0 <= i < |groups| && |groups[i]| > 1
      ensures Avoids(overwrite1[reps[i]], groups[i])
    {
      forall s | s in groups[i]
        ensures RepOf(uf1, s) == reps[i]
      {
        assert RepOf(uf0, s) == s;
      }
      GatheredAvoids(overwrite0, acts, groups[i], uf1, removed0 + Collapsed(groups), reps[i]);
    }
  }

  /** Why `CollapseAvoids` needs more than one state: `collapse` never marks
      the state of a singleton group removed, so its self-loop is untouched
      and stays among its choices, although the state is its own
      representative. Remapping that self-loop would drop it, so an
      untouched distribution need not equal its remapped, rescaled self. */
  lemma SingletonKeepsSelfLoop(s: nat, uf: seq<nat>, removed: set<nat>)
    requires s !in removed
    ensures Rewrite([map[s := 1.0]], uf, removed, RepOf(uf, s)) == [map[s := 1.0]]
    ensures !Avoids(Rewrite([map[s := 1.0]], uf, removed, RepOf(uf, s)), {s})
    ensures Scaled(Remap(map[s := 1.0], uf, RepOf(uf, s))) == map[]
  {
    var d := map[s := 1.0];
    assert !Touched(d, removed) by { assert d.Keys == {s}; }
    assert Rewrite([d], uf, removed, RepOf(uf, s)) == Rewrite([], uf, removed, RepOf(uf, s)) + [d] by {
      assert [d][..0] == [];
    }
    assert s in d;
    assert Remap(d, uf, RepOf(uf, s)) == map[];
  }

  /** The state `collapse` leaves behind, on the values of the view's
      fields: `uf1` and `overwrite1` after both loops, the removed set and
      the cache cut down to the representatives `reps`, and the result
      `reps + reps`. */
  lemma CollapseOutcome(uf0: seq<nat>, uf1: seq<nat>, removed0: set<nat>,
                        overwrite0: map<nat, seq<Distribution>>, overwrite1: map<nat, seq<Distribution>>,
                        cache0: set<nat>, acts: seq<seq<Action>>, groups: seq<set<nat>>, reps: seq<nat>)
    requires ViewInvariant(uf0, removed0, overwrite0, cache0, acts)
    requires Disjoint(groups) && |groups| == |reps|
    requires forall i, s :: 0 <= i < |groups| && s in groups[i] ==> s < |acts|
    requires forall i, s :: 0 <= i < |groups| && s in groups[i] ==> s !in removed0
    requires Flat(uf1) && RepsAfter(groups, |groups|, reps, uf0, uf1)
    requires GatheredAll(groups, reps, |groups|, overwrite0, overwrite1, acts, uf1, removed0 + Collapsed(groups))
    ensures var r, removed1 := reps + reps, (removed0 + Collapsed(groups)) - Elems(reps);
      && ViewInvariant(uf1, removed1, overwrite1, cache0 * Elems(reps), acts)
      && |r| == 2 * |groups| && Elems(r) == Elems(reps)
      && (forall i :: 0 <= i < |groups| ==> r[i] in groups[i] && r[|groups| + i] == r[i])
      && (forall i, t :: 0 <= i < |groups| && RepOf(uf0, t) in groups[i] ==> RepOf(uf1, t) == r[i])
      && (forall t :: RepOf(uf0, t) !in Members(groups) ==> RepOf(uf1, t) == RepOf(uf0, t))
      && removed1 == removed0 + (Members(groups) - Elems(r))
      && (forall s :: s in overwrite1 <==> (s in overwrite0 && s !in Members(groups)) || s in r)
      && (forall s :: s in overwrite0 && s !in Members(groups) ==> overwrite1[s] == overwrite0[s])
      && (forall i :: 0 <= i < |groups| ==>
            HoldsGathered(overwrite1[r[i]], overwrite0, acts, groups[i], uf1, removed0 + Collapsed(groups), r[i]))
      && (forall i :: 0 <= i < |groups| ==> TargetsRoots(overwrite1[r[i]], uf1))
      && (forall i :: 0 <= i < |groups| && |groups[i]| > 1 ==> Avoids(overwrite1[r[i]], groups[i]))
  {
    RepsElems(reps);
    CollapseKeepsInvariant(uf0, uf1, removed0, overwrite0, overwrite1, cache0, acts, groups, reps);
    CollapseRemoved(groups, reps, removed0);
    CollapseRoots(uf0, uf1, removed0, overwrite0, overwrite1, acts, groups, reps);
    CollapseAvoids(uf0, uf1, removed0, overwrite0, overwrite1, acts, groups, reps);
    Twice(reps);
    forall s ensures s in overwrite1 <==> (s in overwrite0 && s !in Members(groups)) || s in reps + reps {
      assert s in reps + reps <==> s in RepsUpTo(reps, |reps|);
    }
  }

  // ----- The clearing of removed representatives, as written -----

  /** `removedStates.andNot(representativeStates)` as the source writes it:
      every state that was ever chosen as a representative, not only the
      representatives of this call, leaves the removed set. */
  function RemovedAsWritten(marked: set<nat>, everReps: set<nat>): (r: set<nat>)
    ensures r <= marked && r !! everReps
  {
    marked - everReps
  }

  /** A state that was a representative of an earlier collapse and is
      merged away by a later one is not its own representative any more,
      yet the clearing as written takes it out of the removed set: the
      invariant of `isRemoved` no longer holds. */
  lemma AsWrittenLosesMergedRepresentative(marked: set<nat>, everReps: set<nat>, uf: seq<nat>, t: nat)
    requires t in everReps && RepOf(uf, t) != t
    ensures exists x :: RepOf(uf, x) != x && x !in RemovedAsWritten(marked, everReps)
  {
    assert t !in RemovedAsWritten(marked, everReps);
  }

  /** The two collapses that reach that state, in a model of four states.
      The first collapses the groups {0, 1} and {2, 3}, with representatives
      0 and 2; the second collapses the group {0, 2}, and the union keeps
      `winner`. The clearing as written leaves two removed states, so
      `getNumStates` reports two states, while only `winner` is still its
      own representative among states 0 to 3; clearing only the second
      call's representative leaves the three others removed. */
  lemma AndNotForgetsMergedRepresentative(winner: nat)
    requires winner == 0 || winner == 2
    ensures var loser := 2 - winner;
            var uf1 := Merged(Merged(Grown([], 9), 1, 0), 3, 2);
            var uf2 := Merged(uf1, loser, winner);
            && (forall t :: t in {1, 3} <==> t < 4 && RepOf(uf1, t) != t)
            && RepOf(uf2, loser) == winner
            && RemovedAsWritten({1, 3} + {0, 2}, {0, 2} + {winner}) == {1, 3}
            && ({1, 3} + {0, 2}) - {winner} == {1, 3, loser}
            && (forall t :: t in {1, 3, loser} <==> t < 4 && RepOf(uf2, t) != t)
  {
    var uf0 := Grown([], 9);
    assert uf0[0] == 0 && uf0[1] == 1 && uf0[2] == 2 && uf0[3] == 3 by {
      assert RepOf(uf0, 0) == 0 && RepOf(uf0, 1) == 1 && RepOf(uf0, 2) == 2 && RepOf(uf0, 3) == 3;
    }
    var ufa := Merged(uf0, 1, 0);
    assert ufa[2] == 2 && ufa[3] == 3 by {
      assert RepOf(ufa, 2) == 2 && RepOf(ufa, 3) == 3;
    }
    var uf1 := Merged(ufa, 3, 2);
    assert uf1[0] == 0 && uf1[2] == 2 by {
      assert RepOf(uf1, 0) == 0 && RepOf(uf1, 2) == 2;
    }
  }

  /** The mutators of the view; the view refuses each of them. */
  datatype Mutator =
    | SetInitialStates | AddChoice | AddAction | SetChoice | SetActions
    | AddInitialState | ClearState | AddState | AddStates

  class CollapseView {
    const model: Model
    var uf: seq<nat>
    var removedStates: set<nat>
    var representativeStates: set<nat>
    var overwrite: map<nat, seq<Distribution>>
    var overwriteCacheValid: set<nat>

    /** The view's invariant: the union-find is flat, the removed states are
        exactly the states that are not their own representative, no removed
        state keeps an overwrite entry (the assertion after the collapse), and
        rewritten lists hold no duplicates, and a state whose cached choices
        are valid has choices that point to representatives only. */
    ghost predicate Valid()
      reads this, model
    {
      ViewInvariant(uf, removedStates, overwrite, overwriteCacheValid, model.actions)
    }

    constructor (model: Model)
      ensures Valid()
      ensures this.model == model && uf == [] && removedStates == {} && representativeStates == {}
      ensures overwrite == map[] && overwriteCacheValid == {}
    {
      this.model := model;
      uf, removedStates, representativeStates := [], {}, {};
      overwrite, overwriteCacheValid := map[], {};
    }

    /** `representative`. */
    function Representative(s: nat): (r: nat)
      reads this
      ensures s >= |uf| ==> r == s
      ensures Flat(uf) ==> RepOf(uf, r) == r
    {
      RepOf(uf, s)
    }

    /** `isRemoved`: its assertion, that the removed set agrees with the
        union-find, is part of the invariant. */
    function IsRemoved(s: nat): (r: bool)
      reads this, model
      requires Valid()
      ensures r <==> s in removedStates
    {
      Representative(s) != s
    }

    /** `getNumStates`: the underlying states that are not removed. */
    function GetNumStates(): (n: int)
      reads this, model
      requires Valid()
      ensures n == |set s | s in Below(|model.actions|) && !IsRemoved(s)|
    {
      var all := Below(|model.actions|);
      assert (set s | s in all && !IsRemoved(s)) == all - removedStates;
      CardBelow(|model.actions|);
      CardDifference(all, removedStates);
      |model.actions| - |removedStates|
    }

    /** `getInitialStates`: the representatives of the initial states. */
    function GetInitialStates(): (r: set<nat>)
      reads this, model
      ensures forall s :: s in r <==> exists i :: i in model.initialStates && RepOf(uf, i) == s
      ensures Valid() ==> forall s :: s in r ==> !IsRemoved(s)
    {
      set i | i in model.initialStates :: RepOf(uf, i)
    }

    /** Every structural mutator throws `UnsupportedOperationException`. */
    method Mutate(op: Mutator) returns (o: Outcome)
      ensures o == Fail(UnsupportedOperation)
    {
      o := Fail(UnsupportedOperation);
    }

    /** `computeSuccessors`: the rewritten choices of `state`, or nothing
        when rewriting changes none of them. */
    method ComputeSuccessors(state: nat) returns (r: Option<seq<Distribution>>)
      requires state in overwrite || state < |model.actions|
      ensures var ds := Choices(overwrite, model.actions, state);
        && (r.Some? <==> exists j :: 0 <= j < |ds| && Changes(ds[j], uf, removedStates, RepOf(uf, state)))
        && (r.Some? ==> r.value == Rewrite(ds, uf, removedStates, RepOf(uf, state)))
        && (r.None? ==> Rewrite(ds, uf, removedStates, RepOf(uf, state)) == ds)
    {
      var ds := if state in overwrite then overwrite[state] else model.GetChoices(state);
      assert ds == Choices(overwrite, model.actions, state);
      var rep := Representative(state);
      var out, anyDifferent := RewriteAll(ds, uf, removedStates, rep);
      r := if anyDifferent then Some(out) else None;
    }

    /** The refresh in `getChoices`: the choices of a representative whose
        cache entry is stale are rewritten, and stored deduplicated when the
        rewrite changes any of them. */
    method Refresh(state: nat)
      requires Valid() && state < |model.actions| && !IsRemoved(state)
      requires state !in overwriteCacheValid
      modifies this
      ensures Valid()
      ensures uf == old(uf) && removedStates == old(removedStates)
      ensures representativeStates == old(representativeStates)
      ensures overwriteCacheValid == old(overwriteCacheValid) + {state}
      ensures overwrite == Refreshed(old(overwrite), model.actions, uf, removedStates, state)
    {
      ghost var overwrite0, cache0 := overwrite, overwriteCacheValid;
      var ds := ComputeSuccessors(state);
      if ds.Some? {
        overwrite := overwrite[state := Dedup(ds.value)];
      }
      overwriteCacheValid := overwriteCacheValid + {state};
      CacheKeepsInvariant(uf, removedStates, overwrite0, cache0, model.actions, state);
    }

    /** `getChoices` on a state that is not removed: the choices are rewritten
        (and deduplicated) once, until a collapse makes them stale again; they
        point to representatives only. */
    method GetChoices(state: nat) returns (r: seq<Distribution>)
      requires Valid() && state < |model.actions| && !IsRemoved(state)
      modifies this
      ensures Valid()
      ensures uf == old(uf) && removedStates == old(removedStates)
      ensures representativeStates == old(representativeStates)
      ensures overwriteCacheValid == old(overwriteCacheValid) + {state}
      ensures overwrite == if old(state in overwriteCacheValid) then old(overwrite)
                           else Refreshed(old(overwrite), model.actions, uf, removedStates, state)
      ensures r == Choices(overwrite, model.actions, state)
      ensures TargetsRoots(r, uf)
      ensures state in overwrite ==> NoDuplicates(r)
    {
      if state !in overwriteCacheValid {
        Refresh(state);
      }
      r := if state in overwrite then overwrite[state] else model.GetChoices(state);
    }

    /** The union-find's `union`: the classes of `a` and `b` become one, whose
        root is one of their two roots (which one is the library's choice). */
    method Union(a: nat, b: nat)
      requires Flat(uf) && a < |uf| && b < |uf|
      modifies this
      ensures Flat(uf) && |uf| == old(|uf|)
      ensures RepOf(uf, a) == RepOf(uf, b)
      ensures RepOf(uf, a) == old(RepOf(uf, a)) || RepOf(uf, a) == old(RepOf(uf, b))
      ensures forall t ::
        RepOf(uf, t) == if old(RepOf(uf, t)) in {old(RepOf(uf, a)), old(RepOf(uf, b))} then RepOf(uf, a) else old(RepOf(uf, t))
      ensures removedStates == old(removedStates) && representativeStates == old(representativeStates)
      ensures overwrite == old(overwrite) && overwriteCacheValid == old(overwriteCacheValid)
    {
      var ra, rb := uf[a], uf[b];
      if ra != rb {
        var winner :| winner in {ra, rb};
        var loser := if winner == ra then rb else ra;
        uf := Merged(uf, loser, winner);
      }
    }

    /** `states.forEach(state -> union(anyState, state))`. */
    method UnionAll(anyState: nat, states: set<nat>)
      requires Flat(uf) && anyState in states
      requires forall s :: s in states ==> s < |uf| && RepOf(uf, s) == s
      modifies this
      ensures Flat(uf) && |uf| == old(|uf|) && RepOf(uf, anyState) in states
      ensures forall t :: RepOf(uf, t) == (if old(RepOf(uf, t)) in states then RepOf(uf, anyState) else old(RepOf(uf, t)))
      ensures removedStates == old(removedStates) && representativeStates == old(representativeStates)
      ensures overwrite == old(overwrite) && overwriteCacheValid == old(overwriteCacheValid)
    {
      ghost var uf0 := uf;
      var todo := states;
      ghost var done: set<nat> := {anyState};
      while todo != {}
        invariant todo <= states && anyState in done && done <= states
        invariant forall s :: s in states ==> s in done || s in todo
        invariant Flat(uf) && |uf| == |uf0|
        invariant RepOf(uf, anyState) in done
        invariant forall t :: RepOf(uf, t) == (if RepOf(uf0, t) in done then RepOf(uf, anyState) else RepOf(uf0, t))
        invariant removedStates == old(removedStates) && representativeStates == old(representativeStates)
        invariant overwrite == old(overwrite) && overwriteCacheValid == old(overwriteCacheValid)
        decreases todo
      {
        var state :| state in todo;
        Union(anyState, state);
        todo, done := todo - {state}, done + {state};
      }
    }

    /** `collapse(IntSet)`: merges one group of representatives and returns
        the group's new representative. */
    method CollapseGroup(states: set<nat>) returns (rep: nat)
      requires Flat(uf) && states != {}
      requires forall s :: s in states ==> s < |model.actions| && RepOf(uf, s) == s
      modifies this
      ensures Flat(uf) && rep in states
      ensures |uf| == if |states| > 1 && old(|uf|) <= |model.actions| then 2 * |model.actions| + 1 else old(|uf|)
      ensures |states| == 1 ==> uf == old(uf)
      ensures forall t :: RepOf(uf, t) == if old(RepOf(uf, t)) in states then rep else old(RepOf(uf, t))
      ensures removedStates == if |states| == 1 then old(removedStates) else old(removedStates) + states
      ensures representativeStates == old(representativeStates) + {rep}
      ensures overwrite == old(overwrite) && overwriteCacheValid == old(overwriteCacheValid)
    {
      var first :| first in states;
      if |states| == 1 {
        assert states == {first} by {
          assert states * {first} == {first} && states + {first} == states && {first} - states == {};
          assert |states - {first}| == 0;
        }
        representativeStates := representativeStates + {first};
        return first;
      }
      var modelStates := |model.actions|;
      if |uf| <= modelStates {
        uf := Grown(uf, modelStates * 2 + 1);
      }
      var anyState := Representative(first);
      UnionAll(anyState, states);
      rep := Representative(anyState);
      removedStates := removedStates + states;
      representativeStates := representativeStates + {rep};
    }

    /** The first loop of `collapse`: every group is merged into one
        representative, in order. */
    method CollapseGroups(groups: seq<set<nat>>) returns (reps: seq<nat>)
      requires Flat(uf) && Disjoint(groups)
      requires forall i :: 0 <= i < |groups| ==> groups[i] != {}
      requires forall i, s :: 0 <= i < |groups| && s in groups[i] ==> s < |model.actions| && RepOf(uf, s) == s
      modifies this
      ensures Flat(uf) && RepsAfter(groups, |groups|, reps, old(uf), uf)
      ensures removedStates == old(removedStates) + Collapsed(groups)
      ensures representativeStates == old(representativeStates) + Elems(reps)
      ensures overwrite == old(overwrite) && overwriteCacheValid == old(overwriteCacheValid)
    {
      ghost var uf0 := uf;
      reps := [];
      var k := 0;
      while k < |groups|
        invariant 0 <= k <= |groups| && Flat(uf)
        invariant RepsAfter(groups, k, reps, uf0, uf)
        invariant removedStates == old(removedStates) + CollapsedUpTo(groups, k)
        invariant representativeStates == old(representativeStates) + Elems(reps)
        invariant overwrite == old(overwrite) && overwriteCacheValid == old(overwriteCacheValid)
      {
        ghost var uf1 := uf;
        NextGroupRoots(groups, k, reps, uf0, uf);
        var rep := CollapseGroup(groups[k]);
        CollapseGroupsStep(groups, reps, k, rep, uf0, uf1, uf);
        reps := reps + [rep];
        k := k + 1;
      }
    }

    /** One round of the second loop of `collapse`: the rewritten choices of
        every member of the group are gathered into a set, the members'
        overwrite entries are dropped, and the set becomes the
        representative's entry. */
    method GatherGroup(g: set<nat>, rep: nat)
      requires forall s :: s in g ==> s < |model.actions| && RepOf(uf, s) == rep
      modifies this
      ensures uf == old(uf) && removedStates == old(removedStates)
      ensures representativeStates == old(representativeStates) && overwriteCacheValid == old(overwriteCacheValid)
      ensures rep in overwrite && overwrite == (old(overwrite) - g)[rep := overwrite[rep]]
      ensures HoldsGathered(overwrite[rep], old(overwrite), model.actions, g, uf, removedStates, rep)
    {
      ghost var overwrite0 := overwrite;
      var collected: set<Distribution> := {};
      var todo := g;
      ghost var done: set<nat> := {};
      while todo != {}
        invariant todo <= g && done <= g
        invariant forall s :: s in g ==> s in done || s in todo
        invariant forall s :: s in todo ==> s !in done
        invariant overwrite == overwrite0 - done
        invariant collected == Gathered(overwrite0, model.actions, done, uf, removedStates, rep)
        invariant uf == old(uf) && removedStates == old(removedStates)
        invariant representativeStates == old(representativeStates) && overwriteCacheValid == old(overwriteCacheValid)
        decreases todo
      {
        var state :| state in todo;
        collected := GatherMember(state, rep, overwrite0, done, collected);
        todo, done := todo - {state}, done + {state};
      }
      assert done == g;
      var list := SetToSeq(collected);
      overwrite := overwrite[rep := list];
    }

    /** The body of the inner loop of the second loop of `collapse`: the
        rewritten choices of `state` join the gathered set, and its overwrite
        entry is dropped. */
    method GatherMember(state: nat, rep: nat, ghost overwrite0: map<nat, seq<Distribution>>,
                        ghost done: set<nat>, collected: set<Distribution>)
      returns (collected': set<Distribution>)
      requires state < |model.actions| && RepOf(uf, state) == rep && state !in done
      requires forall s :: s in done ==> s < |model.actions|
      requires overwrite == overwrite0 - done
      requires collected == Gathered(overwrite0, model.actions, done, uf, removedStates, rep)
      modifies this
      ensures overwrite == overwrite0 - (done + {state})
      ensures collected' == Gathered(overwrite0, model.actions, done + {state}, uf, removedStates, rep)
      ensures uf == old(uf) && removedStates == old(removedStates)
      ensures representativeStates == old(representativeStates) && overwriteCacheValid == old(overwriteCacheValid)
    {
      assert Choices(overwrite, model.actions, state) == Choices(overwrite0, model.actions, state);
      var ds := ComputeSuccessors(state);
      var list := if ds.Some? then ds.value else if state in overwrite then overwrite[state] else model.GetChoices(state);
      assert list == Rewrite(Choices(overwrite0, model.actions, state), uf, removedStates, rep);
      GatheredAdd(overwrite0, model.actions, done, state, uf, removedStates, rep);
      collected' := collected + Elems(list);
      overwrite := overwrite - {state};
      assert overwrite0 - done - {state} == overwrite0 - (done + {state});
    }

    /** The second loop of `collapse`, over all groups and their
        representatives. */
    method GatherGroups(groups: seq<set<nat>>, reps: seq<nat>)
      requires |reps| == |groups| && Disjoint(groups)
      requires forall i :: 0 <= i < |groups| ==> reps[i] in groups[i]
      requires forall i, s :: 0 <= i < |groups| && s in groups[i] ==> s < |model.actions|
      requires forall i, s :: 0 <= i < |groups| && s in groups[i] ==> RepOf(uf, s) == reps[i]
      modifies this
      ensures uf == old(uf) && removedStates == old(removedStates)
      ensures representativeStates == old(representativeStates) && overwriteCacheValid == old(overwriteCacheValid)
      ensures GatheredAll(groups, reps, |groups|, old(overwrite), overwrite, model.actions, uf, removedStates)
    {
      ghost var overwrite0 := overwrite;
      var k := 0;
      while k < |groups|
        invariant 0 <= k <= |groups|
        invariant GatheredAll(groups, reps, k, overwrite0, overwrite, model.actions, uf, removedStates)
        invariant uf == old(uf) && removedStates == old(removedStates)
        invariant representativeStates == old(representativeStates) && overwriteCacheValid == old(overwriteCacheValid)
      {
        ghost var overwrite1 := overwrite;
        GatherFrame(groups, reps, k, overwrite0, overwrite, model.actions, uf, removedStates);
        GatherGroup(groups[k], reps[k]);
        GatherGroupsStep(groups, reps, k, overwrite0, overwrite1, overwrite, model.actions, uf, removedStates);
        k := k + 1;
      }
    }

    /** `collapse(List<IntSet>)`: every group of states becomes one state,
        its representative, whose choices are the rewritten choices of all
        members; the representatives are returned twice over. */
    method Collapse(groups: seq<set<nat>>) returns (r: seq<nat>)
      requires Valid() && Disjoint(groups)
      requires forall i :: 0 <= i < |groups| ==> groups[i] != {}
      requires forall i, s :: 0 <= i < |groups| && s in groups[i] ==> s < |model.actions|
      requires forall i, s :: 0 <= i < |groups| && s in groups[i] ==> !IsRemoved(s)
      modifies this
      ensures Valid()
      ensures groups == [] ==> r == [] && unchanged(this)
      ensures |r| == 2 * |groups|
      ensures forall i :: 0 <= i < |groups| ==> r[i] in groups[i] && r[|groups| + i] == r[i]
      ensures forall i, t :: 0 <= i < |groups| && RepOf(old(uf), t) in groups[i] ==> RepOf(uf, t) == r[i]
      ensures forall t :: RepOf(old(uf), t) !in Members(groups) ==> RepOf(uf, t) == RepOf(old(uf), t)
      ensures removedStates == old(removedStates) + (Members(groups) - Elems(r))
      ensures representativeStates == old(representativeStates) + Elems(r)
      ensures groups != [] ==> overwriteCacheValid == old(overwriteCacheValid) * Elems(r)
      ensures forall s :: s in overwrite <==> (s in old(overwrite) && s !in Members(groups)) || s in r
      ensures forall s :: s in old(overwrite) && s !in Members(groups) ==> overwrite[s] == old(overwrite)[s]
      ensures forall i :: 0 <= i < |groups| ==>
        HoldsGathered(overwrite[r[i]], old(overwrite), model.actions, groups[i], uf,
                      old(removedStates) + Collapsed(groups), r[i])
      ensures forall i :: 0 <= i < |groups| ==> TargetsRoots(overwrite[r[i]], uf)
      ensures forall i :: 0 <= i < |groups| && |groups[i]| > 1 ==> Avoids(overwrite[r[i]], groups[i])
    {
      if groups == [] {
        return [];
      }
      ghost var uf0, removed0, overwrite0, cache0 := uf, removedStates, overwrite, overwriteCacheValid;
      forall i, s | 0 <= i < |groups| && s in groups[i]
        ensures RepOf(uf, s) == s
      {
        assert !IsRemoved(s);
      }
      var reps := CollapseGroups(groups);
      GatherGroups(groups, reps);
      CollapseOutcome(uf0, uf, removed0, overwrite0, overwrite, cache0, model.actions, groups, reps);
      var repSet := Elems(reps);
      overwriteCacheValid := overwriteCacheValid * repSet;
      removedStates := removedStates - repSet;
      r := reps + reps;
    }
  }
}
